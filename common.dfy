/** Shared vocabulary: optional values, results, and the few JavaScript string
    operations (split, join, trim, whitespace) the rest of the model relies on. */
module Common {

  /** An octet, as Node's Buffer holds it. */
  type byte = b: int | 0 <= b < 256

  datatype Option<T> = None | Some(value: T) {
    function GetOr(default: T): T {
      if Some? then value else default
    }
  }

  datatype Result<T, E> = Ok(value: T) | Err(error: E)

  /** The characters JavaScript's `\s` and `String.prototype.trim` treat as white space. */
  predicate IsWhitespace(c: char) {
    var n := c as int;
    (0x09 <= n <= 0x0D) || n == 0x20 || n == 0xA0 || n == 0x1680
    || (0x2000 <= n <= 0x200A) || n == 0x2028 || n == 0x2029 || n == 0x202F
    || n == 0x205F || n == 0x3000 || n == 0xFEFF
  }

  /** The number of white-space characters at the start of `s`. */
  function LeadingSpace(s: string): (n: nat)
    ensures n <= |s|
    ensures forall i :: 0 <= i < n ==> IsWhitespace(s[i])
    ensures n < |s| ==> !IsWhitespace(s[n])
  {
    if s == [] || !IsWhitespace(s[0]) then 0 else 1 + LeadingSpace(s[1..])
  }

  /** The number of white-space characters at the end of `s`. */
  function TrailingSpace(s: string): (n: nat)
    ensures n <= |s|
    ensures forall i :: |s| - n <= i < |s| ==> IsWhitespace(s[i])
    ensures n < |s| ==> !IsWhitespace(s[|s| - 1 - n])
  {
    if s == [] || !IsWhitespace(s[|s| - 1]) then 0 else 1 + TrailingSpace(s[..|s| - 1])
  }

  /** Drops leading white space. */
  function TrimStart(s: string): string {
    s[LeadingSpace(s)..]
  }

  /** Drops trailing white space. */
  function TrimEnd(s: string): string {
    s[..|s| - TrailingSpace(s)]
  }

  /** `String.prototype.trim`: the middle part of `s`, with only white space cut off
      on either side. */
  function Trim(s: string): (r: string)
    ensures r == [] || (!IsWhitespace(r[0]) && !IsWhitespace(r[|r| - 1]))
    ensures LeadingSpace(s) + |r| <= |s| && r == s[LeadingSpace(s)..LeadingSpace(s) + |r|]
    ensures forall k :: LeadingSpace(s) + |r| <= k < |s| ==> IsWhitespace(s[k])
  {
    TrimCuts(s);
    TrimEnd(TrimStart(s))
  }

  /** Where `Trim` cuts: after the leading and before the trailing white space. */
  lemma {:induction false} TrimCuts(s: string)
    ensures var i := LeadingSpace(s);
      var j := i + |TrimEnd(TrimStart(s))|;
      i <= j <= |s| && TrimEnd(TrimStart(s)) == s[i..j]
      && forall k :: (0 <= k < i || j <= k < |s|) ==> IsWhitespace(s[k])
  {
    var i := LeadingSpace(s);
    var t := s[i..];
    var n := TrailingSpace(t);
    var j := i + (|t| - n);
    assert TrimEnd(TrimStart(s)) == t[..|t| - n] == s[i..j];
    forall k | j <= k < |s|
      ensures IsWhitespace(s[k])
    {
      assert s[k] == t[k - i];
    }
  }

  /** The characters of `s` that are not white space, in order. */
  function Words(s: string): (r: string)
    ensures forall k :: 0 <= k < |r| ==> !IsWhitespace(r[k])
  {
    if s == [] then [] else (if IsWhitespace(s[0]) then [] else [s[0]]) + Words(s[1..])
  }

  lemma {:induction false} WordsAppend(a: string, b: string)
    ensures Words(a + b) == Words(a) + Words(b)
  {
    if a == [] {
      assert a + b == b;
    } else {
      assert (a + b)[1..] == a[1..] + b;
      WordsAppend(a[1..], b);
    }
  }

  /** White space alone has no words. */
  lemma {:induction false} WordsOfSpace(s: string)
    requires forall k :: 0 <= k < |s| ==> IsWhitespace(s[k])
    ensures Words(s) == []
  {
    if s != [] {
      WordsOfSpace(s[1..]);
    }
  }

  /** Dropping a run of white space at the front keeps the words. */
  lemma {:induction false} WordsSkipSpace(s: string, n: nat)
    requires n <= |s| && forall k :: 0 <= k < n ==> IsWhitespace(s[k])
    ensures Words(s) == Words(s[n..])
  {
    assert s == s[..n] + s[n..];
    WordsAppend(s[..n], s[n..]);
    WordsOfSpace(s[..n]);
  }

  /** One leading character counts exactly when it is not white space. */
  lemma {:induction false} WordsCons(c: char, s: string)
    ensures Words([c] + s) == (if IsWhitespace(c) then [] else [c]) + Words(s)
  {
    assert ([c] + s)[1..] == s;
  }

  /** Trimming keeps every character that is not white space, in order. */
  lemma {:induction false} WordsTrim(s: string)
    ensures Words(Trim(s)) == Words(s)
  {
    TrimCuts(s);
    var i := LeadingSpace(s);
    var t := s[i..];
    var m := |Trim(s)|;
    WordsSkipSpace(s, i);
    assert Trim(s) == t[..m];
    forall k | m <= k < |t|
      ensures IsWhitespace(t[k])
    {
      assert t[k] == s[i + k];
    }
    WordsDropSpace(t, m);
  }

  /** Dropping a run of white space at the end keeps the words. */
  lemma {:induction false} WordsDropSpace(s: string, m: nat)
    requires m <= |s| && forall k :: m <= k < |s| ==> IsWhitespace(s[k])
    ensures Words(s) == Words(s[..m])
  {
    assert s == s[..m] + s[m..];
    WordsAppend(s[..m], s[m..]);
    WordsOfSpace(s[m..]);
  }

  /** `s.split(sep)` for a one-character separator: the pieces between separators,
      empty pieces included, so that there is always one more piece than separators. */
  function Split(s: string, sep: char): (parts: seq<string>)
    ensures |parts| >= 1
  {
    if s == [] then [""]
    else
      var rest := Split(s[1..], sep);
      if s[0] == sep then [""] + rest else [[s[0]] + rest[0]] + rest[1..]
  }

  /** `parts.join(sep)`. */
  function Join(parts: seq<string>, sep: char): string {
    if parts == [] then ""
    else if |parts| == 1 then parts[0]
    else parts[0] + [sep] + Join(parts[1..], sep)
  }

  /** No piece produced by Split contains the separator. */
  lemma {:induction false} SplitPiecesLackSeparator(s: string, sep: char)
    ensures forall k :: 0 <= k < |Split(s, sep)| ==> sep !in Split(s, sep)[k]
  {
    if s != [] {
      SplitPiecesLackSeparator(s[1..], sep);
    }
  }

  /** Joining the pieces with the separator gives back the original string. */
  lemma {:induction false} JoinSplit(s: string, sep: char)
    ensures Join(Split(s, sep), sep) == s
  {
    if s != [] {
      var rest := Split(s[1..], sep);
      assert Join(rest, sep) == s[1..] by {
        JoinSplit(s[1..], sep);
      }
      assert s == [s[0]] + s[1..];
      if s[0] == sep {
        assert Split(s, sep) == [""] + rest;
        assert Join([""] + rest, sep) == [sep] + Join(rest, sep) by {
          assert ([""] + rest)[1..] == rest;
          assert "" + [sep] + Join(rest, sep) == [sep] + Join(rest, sep);
        }
      } else {
        var parts := [[s[0]] + rest[0]] + rest[1..];
        assert Split(s, sep) == parts;
        if |rest| == 1 {
          assert Join(parts, sep) == [s[0]] + rest[0];
        } else {
          var tail := Join(rest[1..], sep);
          assert Join(rest, sep) == rest[0] + [sep] + tail;
          assert Join(parts, sep) == [s[0]] + (rest[0] + [sep] + tail) by {
            assert parts[1..] == rest[1..];
            assert ([s[0]] + rest[0]) + [sep] + tail == [s[0]] + (rest[0] + [sep] + tail);
          }
        }
      }
    }
  }

  /** A string without the separator is a single piece. */
  lemma {:induction false} SplitWithoutSeparator(a: string, sep: char)
    requires sep !in a
    ensures Split(a, sep) == [a]
  {
    if a != [] {
      SplitWithoutSeparator(a[1..], sep);
      assert [a[0]] + a[1..] == a;
    }
  }

  /** The first piece ends at the first separator. */
  lemma {:induction false} SplitAtFirst(a: string, sep: char, b: string)
    requires sep !in a
    ensures Split(a + [sep] + b, sep) == [a] + Split(b, sep)
  {
    var s := a + [sep] + b;
    if a == [] {
      assert s[1..] == b;
    } else {
      assert s[1..] == a[1..] + [sep] + b;
      SplitAtFirst(a[1..], sep, b);
      assert [a[0]] + a[1..] == a;
    }
  }

  /** The entries of `xs` that are not the empty string, in order (`filter(s => s)`). */
  function NonEmpty(xs: seq<string>): (r: seq<string>)
    ensures |r| <= |xs|
    ensures forall k :: 0 <= k < |r| ==> r[k] != ""
    ensures forall x :: x in r <==> x in xs && x != ""
  {
    if xs == [] then []
    else if xs[0] == "" then NonEmpty(xs[1..])
    else [xs[0]] + NonEmpty(xs[1..])
  }

  /** `s.replace(c, r)` with a one-character pattern: only the first occurrence is replaced. */
  function ReplaceFirst(s: string, c: char, r: string): (t: string)
    ensures c !in s ==> t == s
  {
    if s == [] then []
    else if s[0] == c then r + s[1..]
    else [s[0]] + ReplaceFirst(s[1..], c, r)
  }

  /** The filter keeps order: it works piece by piece over an append. */
  lemma {:induction false} NonEmptyAppend(a: seq<string>, b: seq<string>)
    ensures NonEmpty(a + b) == NonEmpty(a) + NonEmpty(b)
    decreases |a|
  {
    if a != [] {
      assert (a + b)[0] == a[0] && (a + b)[1..] == a[1..] + b;
      NonEmptyAppend(a[1..], b);
      if a[0] != "" {
        assert NonEmpty(a + b) == [a[0]] + (NonEmpty(a[1..]) + NonEmpty(b));
      }
    } else {
      assert a + b == b;
    }
  }

  /** One entry is kept exactly when it is not the empty string. */
  lemma {:induction false} NonEmptySingle(x: string)
    ensures NonEmpty([x]) == if x == "" then [] else [x]
  {
    assert [x][1..] == [];
  }

  /** Only the first occurrence of `c` is replaced; the text after it, later
      occurrences included, is kept as it is. */
  lemma {:induction false} ReplaceFirstAt(a: string, c: char, r: string, b: string)
    requires c !in a
    ensures ReplaceFirst(a + [c] + b, c, r) == a + r + b
    decreases |a|
  {
    if a == [] {
      assert a + [c] + b == [c] + b && a + r + b == r + b;
      ReplaceFirstHead(b, c, r);
    } else {
      var t := a[1..] + [c] + b;
      assert a[0] != c && c !in a[1..] by {
        NotInTail(a, c);
      }
      assert a + [c] + b == [a[0]] + t by {
        ConsAppend(a, [c] + b);
      }
      assert ReplaceFirst([a[0]] + t, c, r) == [a[0]] + ReplaceFirst(t, c, r) by {
        ReplaceFirstCons(a[0], t, c, r);
      }
      assert ReplaceFirst(t, c, r) == a[1..] + (r + b) by {
        ReplaceFirstAt(a[1..], c, r, b);
      }
      assert [a[0]] + (a[1..] + (r + b)) == a + r + b by {
        ConsAppend(a, r + b);
      }
    }
  }

  lemma {:induction false} NotInTail(a: string, c: char)
    requires a != [] && c !in a
    ensures a[0] != c && c !in a[1..]
  {
    assert a == [a[0]] + a[1..];
  }

  lemma {:induction false} ReplaceFirstHead(t: string, c: char, r: string)
    ensures ReplaceFirst([c] + t, c, r) == r + t
  {
    assert ([c] + t)[1..] == t;
  }

  lemma {:induction false} ReplaceFirstCons(x: char, t: string, c: char, r: string)
    requires x != c
    ensures ReplaceFirst([x] + t, c, r) == [x] + ReplaceFirst(t, c, r)
  {
    assert ([x] + t)[1..] == t;
  }

  lemma {:induction false} ConsAppend<T>(a: seq<T>, t: seq<T>)
    requires a != []
    ensures [a[0]] + (a[1..] + t) == a + t
  {
    assert a == [a[0]] + a[1..];
  }

  /** Concatenation of a list of strings (or lists). */
  function Concat<T>(xs: seq<seq<T>>): seq<T> {
    if xs == [] then [] else xs[0] + Concat(xs[1..])
  }

  lemma {:induction false} ConcatAppend<T>(xs: seq<seq<T>>, y: seq<T>)
    ensures Concat(xs + [y]) == Concat(xs) + y
  {
    if xs == [] {
      assert [] + [y] == [y];
    } else {
      assert (xs + [y])[1..] == xs[1..] + [y];
      ConcatAppend(xs[1..], y);
    }
  }

  /** Membership in a concatenation is membership in one of its parts. */
  lemma {:induction false} InConcat<T>(xs: seq<seq<T>>, x: T)
    ensures x in Concat(xs) <==> exists k :: 0 <= k < |xs| && x in xs[k]
  {
    if xs != [] {
      InConcat(xs[1..], x);
      if x in Concat(xs[1..]) {
        var k :| 0 <= k < |xs[1..]| && x in xs[1..][k];
        assert x in xs[k + 1];
      }
      if exists k :: 0 <= k < |xs| && x in xs[k] {
        var k :| 0 <= k < |xs| && x in xs[k];
        if k > 0 {
          assert x in xs[1..][k - 1];
        }
      }
    }
  }

  /** `s.startsWith(p)`. */
  predicate StartsWith(s: string, p: string) {
    |p| <= |s| && s[..|p|] == p
  }

  /** Extending a slice by one element. */
  lemma {:induction false} SliceSnoc<T>(s: seq<T>, a: nat, b: nat)
    requires a <= b < |s|
    ensures s[a..b + 1] == s[a..b] + [s[b]]
  {
  }
}
