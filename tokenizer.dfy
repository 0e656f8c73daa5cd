/** The search-query lexer: the constructor's normalisation of the raw text and
    the `index`/`done` cursor that `consume`, `peek` and the iterator move. */
module QueryTokenizer {
  import opened Common

  /** Replaces every maximal run of white space by one space (`/\s+/g` to `" "`). */
  function Collapse(s: string): (r: string)
    ensures |r| == 0 <==> |s| == 0
    ensures |s| > 0 ==> (IsWhitespace(r[0]) <==> IsWhitespace(s[0]))
    ensures |s| > 0 ==> (IsWhitespace(r[|r| - 1]) <==> IsWhitespace(s[|s| - 1]))
    ensures forall i :: 0 <= i < |r| && IsWhitespace(r[i]) ==> r[i] == ' '
    ensures forall i :: 0 <= i < |r| - 1 ==> !(r[i] == ' ' && r[i + 1] == ' ')
    decreases |s|
  {
    if s == [] then []
    else if IsWhitespace(s[0]) then [' '] + Collapse(s[LeadingSpace(s)..])
    else [s[0]] + Collapse(s[1..])
  }

  /** Collapsing keeps every character that is not white space, in order. */
  lemma {:induction false} CollapseKeepsWords(s: string)
    ensures Words(Collapse(s)) == Words(s)
    decreases |s|
  {
    if s != [] {
      if IsWhitespace(s[0]) {
        var n := LeadingSpace(s);
        CollapseKeepsWords(s[n..]);
        WordsSkipSpace(s, n);
        WordsCons(' ', Collapse(s[n..]));
      } else {
        CollapseKeepsWords(s[1..]);
        WordsCons(s[0], Collapse(s[1..]));
        WordsCons(s[0], s[1..]);
        assert [s[0]] + s[1..] == s;
      }
    }
  }

  /** The text the tokenizer works on: trimmed, white-space runs collapsed, and the
      first newline (there is none left by then) replaced by a space. */
  function Normalize(raw: string): string {
    ReplaceFirst(Collapse(Trim(raw)), '\n', " ")
  }

  /** The working text has no leading, trailing or doubled space and no white space
      other than the plain space. */
  lemma {:induction false} NormalizeShape(raw: string)
    ensures var t := Normalize(raw);
      (|t| > 0 ==> t[0] != ' ' && t[|t| - 1] != ' ')
      && (forall i :: 0 <= i < |t| - 1 ==> !(t[i] == ' ' && t[i + 1] == ' '))
      && (forall i :: 0 <= i < |t| && IsWhitespace(t[i]) ==> t[i] == ' ')
  {
    var c := Collapse(Trim(raw));
    assert IsWhitespace('\n');
    assert '\n' !in c;
    assert Normalize(raw) == c;
  }

  /** One `consume` call: the token read and the new `index`. */
  datatype Cut = Cut(token: string, next: nat)

  /** The scan loop of `consume`, started at `start` and now at `i`. */
  function Scan(text: string, start: nat, i: nat): (c: Cut)
    requires start <= i <= |text|
    ensures i <= c.next <= |text| && (i < |text| ==> i < c.next)
    decreases |text| - i
  {
    if i == |text| then Cut(text[start..], |text|)
    else if text[i] == ' ' then Cut(text[start..i], i + 1)
    else if text[i] == '-' && i == start then Cut("-", i + 1)
    else Scan(text, start, i + 1)
  }

  /** The token ends at the end of the text, or just before a space, or is a lone `-`;
      it never contains a space. */
  lemma {:induction false} ScanShape(text: string, start: nat, i: nat)
    requires start <= i <= |text|
    requires ' ' !in text[start..i]
    requires i > start ==> text[start] != '-'
    ensures var c := Scan(text, start, i);
      ' ' !in c.token
      && ((c.next == |text| && c.token == text[start..])
         || (start < c.next && text[c.next - 1] == ' ' && c.token == text[start..c.next - 1])
         || (c.token == "-" && start < |text| && text[start] == '-' && c.next == start + 1))
    decreases |text| - i
  {
    if i < |text| && text[i] != ' ' && !(text[i] == '-' && i == start) {
      assert text[start..i + 1] == text[start..i] + [text[i]];
      ScanShape(text, start, i + 1);
    }
  }

  /** What `consume` returns from position `index`. */
  function NextToken(text: string, index: nat): Cut
    requires index <= |text|
  {
    Scan(text, index, index)
  }

  lemma {:induction false} NextTokenShape(text: string, index: nat)
    requires index <= |text|
    ensures var c := NextToken(text, index);
      ' ' !in c.token
      && ((c.next == |text| && c.token == text[index..])
         || (index < c.next && text[c.next - 1] == ' ' && c.token == text[index..c.next - 1])
         || (c.token == "-" && index < |text| && text[index] == '-' && c.next == index + 1))
  {
    ScanShape(text, index, index);
  }

  /** A `-` met before any other character is a token of its own. */
  lemma {:induction false} DashAlone(text: string, index: nat)
    requires index < |text| && text[index] == '-'
    ensures NextToken(text, index) == Cut("-", index + 1)
  {
  }

  /** Otherwise the token runs to the next space or the end, `-` included. */
  lemma {:induction false} WordToken(text: string, index: nat, j: nat)
    requires index <= j <= |text| && (index < |text| ==> text[index] != '-')
    requires ' ' !in text[index..j] && (j == |text| || text[j] == ' ')
    ensures NextToken(text, index) == if j == |text| then Cut(text[index..], |text|)
                                      else Cut(text[index..j], j + 1)
  {
    ScanTo(text, index, index, j);
  }

  lemma {:induction false} ScanTo(text: string, start: nat, i: nat, j: nat)
    requires start <= i <= j <= |text| && (start < |text| ==> text[start] != '-')
    requires ' ' !in text[start..j] && (j == |text| || text[j] == ' ')
    ensures Scan(text, start, i) == if j == |text| then Cut(text[start..], |text|)
                                    else Cut(text[start..j], j + 1)
    decreases j - i
  {
    assert text[start..i] == text[start..j][..i - start];
    if i < j {
      assert text[i] == text[start..j][i - start];
      ScanTo(text, start, i + 1, j);
    }
  }

  /** The tokens the iterator yields from position `i` until `done`. */
  function TokensFrom(text: string, i: nat): (r: seq<string>)
    requires i <= |text|
    ensures |r| >= 1
    decreases |text| - i
  {
    var c := NextToken(text, i);
    if c.next >= |text| then [c.token] else [c.token] + TokensFrom(text, c.next)
  }

  /** The tokens of a raw query. */
  function Tokenize(raw: string): seq<string> {
    TokensFrom(Normalize(raw), 0)
  }

  /** No token contains a space, and a token that starts with `-` is `-` itself. */
  lemma {:induction false} TokenShape(text: string, i: nat)
    requires i <= |text|
    ensures forall k :: 0 <= k < |TokensFrom(text, i)| ==>
      ' ' !in TokensFrom(text, i)[k]
      && (|TokensFrom(text, i)[k]| > 0 && TokensFrom(text, i)[k][0] == '-' ==> TokensFrom(text, i)[k] == "-")
    decreases |text| - i
  {
    var c := NextToken(text, i);
    NextTokenShape(text, i);
    if c.next < |text| {
      TokenShape(text, c.next);
    }
  }

  /** The text with its spaces removed. */
  function RemoveSpaces(s: string): (r: string)
    ensures ' ' !in r
  {
    if s == [] then [] else (if s[0] == ' ' then [] else [s[0]]) + RemoveSpaces(s[1..])
  }

  lemma {:induction false} RemoveSpacesAppend(a: string, b: string)
    ensures RemoveSpaces(a + b) == RemoveSpaces(a) + RemoveSpaces(b)
  {
    if a != [] {
      assert (a + b)[1..] == a[1..] + b;
      RemoveSpacesAppend(a[1..], b);
    } else {
      assert a + b == b;
    }
  }

  lemma {:induction false} RemoveSpacesKeeps(a: string)
    requires ' ' !in a
    ensures RemoveSpaces(a) == a
  {
    if a != [] {
      RemoveSpacesKeeps(a[1..]);
    }
  }

  /** One step of the iterator: the next token followed by the rest. */
  lemma {:induction false} TokensStep(text: string, i: nat)
    requires i <= |text|
    ensures var c := NextToken(text, i);
      TokensFrom(text, i) == [c.token] + (if c.next >= |text| then [] else TokensFrom(text, c.next))
  {
  }

  lemma {:induction false} ConcatCons(x: string, xs: seq<string>)
    ensures Concat([x] + xs) == x + Concat(xs)
  {
    assert ([x] + xs)[1..] == xs;
  }

  /** Removing spaces from the text at `i` gives the next token followed by the
      space-free rest after it. */
  lemma {:induction false} RemoveSpacesStep(text: string, i: nat)
    requires i <= |text|
    ensures var c := NextToken(text, i);
      RemoveSpaces(text[i..]) == c.token + RemoveSpaces(text[c.next..])
  {
    var c := NextToken(text, i);
    NextTokenShape(text, i);
    RemoveSpacesKeeps(c.token);
    if c.next == |text| && c.token == text[i..] {
      assert text[c.next..] == [];
      assert c.token + RemoveSpaces([]) == c.token;
    } else if i < c.next && text[c.next - 1] == ' ' && c.token == text[i..c.next - 1] {
      var tail := [' '] + text[c.next..];
      assert text[i..] == c.token + tail;
      RemoveSpacesAppend(c.token, tail);
      assert tail[1..] == text[c.next..];
      assert RemoveSpaces(tail) == RemoveSpaces(text[c.next..]);
    } else {
      assert text[i..] == c.token + text[c.next..];
      RemoveSpacesAppend(c.token, text[c.next..]);
    }
  }

  /** The tokens, concatenated, are the text from `i` with its spaces removed. */
  lemma {:induction false} TokensCoverText(text: string, i: nat)
    requires i <= |text|
    ensures Concat(TokensFrom(text, i)) == RemoveSpaces(text[i..])
    decreases |text| - i
  {
    var c := NextToken(text, i);
    TokensStep(text, i);
    RemoveSpacesStep(text, i);
    if c.next >= |text| {
      ConcatCons(c.token, []);
      assert text[c.next..] == [];
    } else {
      ConcatCons(c.token, TokensFrom(text, c.next));
      TokensCoverText(text, c.next);
    }
  }

  /** On text whose only white space is the plain space, removing spaces leaves
      exactly its words. */
  lemma {:induction false} RemoveSpacesIsWords(t: string)
    requires forall i :: 0 <= i < |t| && IsWhitespace(t[i]) ==> t[i] == ' '
    ensures RemoveSpaces(t) == Words(t)
  {
    if t != [] {
      assert IsWhitespace(' ');
      RemoveSpacesIsWords(t[1..]);
    }
  }

  /** The working text has the words of the raw query, in order. */
  lemma {:induction false} NormalizeKeepsWords(raw: string)
    ensures Words(Normalize(raw)) == Words(raw)
  {
    var c := Collapse(Trim(raw));
    assert IsWhitespace('\n');
    assert '\n' !in c;
    assert Normalize(raw) == c;
    CollapseKeepsWords(Trim(raw));
    WordsTrim(raw);
  }

  /** The tokens of a query, concatenated, are its characters other than white
      space, in order: lexing loses and invents nothing. */
  lemma {:induction false} TokensAreWords(raw: string)
    ensures Concat(Tokenize(raw)) == Words(raw)
  {
    var t := Normalize(raw);
    TokensCoverText(t, 0);
    assert t[0..] == t;
    NormalizeShape(raw);
    RemoveSpacesIsWords(t);
    NormalizeKeepsWords(raw);
  }

  /** Without any `-` and without a trailing space, the tokens are exactly the pieces
      of the text between single spaces. */
  lemma {:induction false} TokensAreSplit(text: string, i: nat)
    requires i <= |text| && '-' !in text[i..]
    requires |text| == 0 || text[|text| - 1] != ' '
    ensures TokensFrom(text, i) == Split(text[i..], ' ')
    decreases |text| - i
  {
    if i < |text| {
      assert text[i] == text[i..][0];
    }
    if ' ' in text[i..] {
      var j := FirstSpace(text, i);
      TokensSplitStep(text, i, j);
      TokensAreSplit(text, j + 1);
    } else {
      WordToken(text, i, |text|);
      SplitWithoutSeparator(text[i..], ' ');
    }
  }

  lemma {:induction false} TokensSplitStep(text: string, i: nat, j: nat)
    requires i <= j < |text| && text[j] == ' ' && ' ' !in text[i..j]
    requires '-' !in text[i..] && text[|text| - 1] != ' '
    ensures j + 1 < |text| && '-' !in text[j + 1..]
    ensures TokensFrom(text, i) == [text[i..j]] + TokensFrom(text, j + 1)
    ensures Split(text[i..], ' ') == [text[i..j]] + Split(text[j + 1..], ' ')
  {
    assert text[i] == text[i..][0];
    WordToken(text, i, j);
    assert text[i..] == text[i..j] + [' '] + text[j + 1..];
    SplitAtFirst(text[i..j], ' ', text[j + 1..]);
  }

  /** Hence joining the tokens with single spaces rebuilds the text. */
  lemma {:induction false} TokensJoin(text: string, i: nat)
    requires i <= |text| && '-' !in text[i..]
    requires |text| == 0 || text[|text| - 1] != ' '
    ensures Join(TokensFrom(text, i), ' ') == text[i..]
  {
    TokensAreSplit(text, i);
    JoinSplit(text[i..], ' ');
  }

  lemma {:induction false} FirstSpace(text: string, i: nat) returns (j: nat)
    requires i <= |text| && ' ' in text[i..]
    ensures i <= j < |text| && text[j] == ' ' && ' ' !in text[i..j]
    decreases |text| - i
  {
    if text[i] == ' ' {
      j := i;
    } else {
      assert text[i..] == [text[i]] + text[i + 1..];
      j := FirstSpace(text, i + 1);
      assert text[i..j] == [text[i]] + text[i + 1..j];
    }
  }

  /** What `peek` returns: the text up to the next space, or nothing when no space
      follows. Unlike `consume` it does not split off a leading `-`. */
  function PeekFrom(text: string, index: nat): Option<string>
    requires index <= |text|
    decreases |text| - index
  {
    if index == |text| then None
    else if text[index] == ' ' then Some("")
    else Prepend([text[index]], PeekFrom(text, index + 1))
  }

  /** `peek` finds something exactly when a space follows, and then returns the
      space-free text between the cursor and that space. */
  lemma {:induction false} PeekShape(text: string, index: nat)
    requires index <= |text|
    ensures var r := PeekFrom(text, index);
      (r.Some? <==> ' ' in text[index..])
      && (r.Some? ==> index + |r.value| < |text| && r.value == text[index..index + |r.value|]
                      && text[index + |r.value|] == ' ' && ' ' !in r.value)
    decreases |text| - index
  {
    if index < |text| {
      assert text[index..] == [text[index]] + text[index + 1..];
      if text[index] != ' ' {
        PeekShape(text, index + 1);
      }
    }
  }

  function Prepend(t: string, r: Option<string>): Option<string> {
    match r
    case None => None
    case Some(u) => Some(t + u)
  }

  /** Where the next token is not a lone `-`, `peek` sees the token `consume` will
      return, provided a space follows it. */
  lemma {:induction false} PeekAgreesWithConsume(text: string, index: nat)
    requires index <= |text| && (index < |text| ==> text[index] != '-')
    requires PeekFrom(text, index).Some?
    ensures PeekFrom(text, index).value == NextToken(text, index).token
    ensures NextToken(text, index).next == index + |PeekFrom(text, index).value| + 1
  {
    PeekShape(text, index);
    var t := PeekFrom(text, index).value;
    WordToken(text, index, index + |t|);
  }

  /** The character loop of `consume`: accumulates characters from `start` until a
      space, a leading `-`, or the end of the text. */
  method ScanToken(text: string, start: nat) returns (c: Cut)
    requires start <= |text|
    ensures c == NextToken(text, start)
  {
    var token := "";
    var i := start;
    while i < |text|
      invariant start <= i <= |text|
      invariant token == text[start..i]
      invariant Scan(text, start, i) == NextToken(text, start)
      decreases |text| - i
    {
      var t := text[i];
      if t == ' ' {
        return Cut(token, i + 1);
      } else if t == '-' && |token| == 0 {
        return Cut("-", i + 1);
      } else {
        SliceSnoc(text, start, i);
        token := token + [t];
        i := i + 1;
      }
    }
    return Cut(token, |text|);
  }

  /** The lexer object: the normalised characters, the cursor and the end flag. */
  class Tokenizer {
    const raw: string
    const split: string
    var index: nat
    var done: bool

    ghost predicate Valid()
      reads this
    {
      index <= |split| && (done ==> index == |split|)
    }

    constructor (raw: string)
      ensures Valid() && this.raw == raw && split == Normalize(raw) && index == 0 && !done
    {
      this.raw := raw;
      split := Normalize(raw);
      index := 0;
      done := false;
    }

    /** `peek`: reads ahead to the next space without moving the cursor. */
    method Peek() returns (r: Option<string>)
      requires Valid()
      ensures r == PeekFrom(split, index)
    {
      var text, start := split, index;
      var token := "";
      var i := start;
      PrependEmpty(PeekFrom(text, start));
      while i < |text|
        invariant start <= i <= |text|
        invariant PeekFrom(text, start) == Prepend(token, PeekFrom(text, i))
        decreases |text| - i
      {
        if text[i] == ' ' {
          assert token + "" == token;
          return Some(token);
        }
        PrependTwice(token, [text[i]], PeekFrom(text, i + 1));
        token := token + [text[i]];
        i := i + 1;
      }
      return None;
    }

    /** `consume`: returns the next token and moves the cursor past it. */
    method Consume() returns (token: string)
      requires Valid()
      modifies this
      ensures Valid()
      ensures Cut(token, index) == NextToken(split, old(index))
      ensures old(index) <= index && done == (index == |split|)
    {
      var c := ScanToken(split, index);
      token, index := c.token, c.next;
      done := index >= |split|;
    }

    /** The iterator: consumes tokens until `done`. */
    method All() returns (tokens: seq<string>)
      requires Valid()
      modifies this
      ensures Valid() && done
      ensures tokens == if old(done) then [] else TokensFrom(split, old(index))
    {
      tokens := [];
      ghost var text := split;
      ghost var rest := if done then [] else TokensFrom(text, index);
      ghost var total := rest;
      while !done
        invariant Valid() && text == split
        invariant tokens + rest == total
        invariant !done ==> rest == TokensFrom(text, index)
        invariant done ==> rest == []
        decreases |text| - index, if done then 0 else 1
      {
        ghost var i0 := index;
        var t := Consume();
        ghost var rest' := if done then [] else TokensFrom(text, index);
        assert rest == [t] + rest' by {
          TokensStep(text, i0);
        }
        SnocCons(tokens, t, rest');
        tokens := tokens + [t];
        rest := rest';
      }
    }
  }

  lemma {:induction false} SnocCons(xs: seq<string>, x: string, ys: seq<string>)
    ensures (xs + [x]) + ys == xs + ([x] + ys)
  {
  }

  lemma {:induction false} PrependEmpty(r: Option<string>)
    ensures Prepend("", r) == r
  {
    if r.Some? {
      assert "" + r.value == r.value;
    }
  }

  lemma {:induction false} PrependTwice(a: string, b: string, r: Option<string>)
    ensures Prepend(a, Prepend(b, r)) == Prepend(a + b, r)
  {
    if r.Some? {
      assert a + (b + r.value) == (a + b) + r.value;
    }
  }

  /** Running the iterator over a fresh tokenizer yields `Tokenize(raw)`; empty
      input yields exactly one empty token. */
  method TokenizeAll(raw: string) returns (tokens: seq<string>)
    ensures tokens == Tokenize(raw)
    ensures Trim(raw) == "" ==> tokens == [""]
    ensures Concat(tokens) == Words(raw)
  {
    var t := new Tokenizer(raw);
    tokens := t.All();
    TokensAreWords(raw);
  }
}
