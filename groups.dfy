/** The query front end after lexing: `getGroups` turns the token stream into a tree
    of parenthesised groups, and `convertToTagIds` rewrites each group's tokens into
    tag ids. */
module QueryGroups {
  import opened Common
  import opened QueryTokenizer

  /** A slot of a group's token list. `Ref(k)` is the placeholder `__k` for the
      group's k-th subgroup; `TagId` is what `convertToTagIds` writes. */
  datatype Entry = Name(name: string) | TagId(id: int) | Ref(index: nat)

  datatype Group = Group(tokens: seq<Entry>, groups: seq<Group>)

  datatype ErrorReply = ErrorReply(status: int, message: string)

  const UnclosedGroup := ErrorReply(400, "Malformed tags, group not closed")

  // ---------------------------------------------------------------------------
  // What a token stream means: nesting depth and the stream with stray `)` dropped.

  /** The number of groups still open after the tokens; a `)` with none open is ignored. */
  function Depth(toks: seq<string>): nat {
    if toks == [] then 0
    else
      var d := Depth(toks[..|toks| - 1]);
      var t := toks[|toks| - 1];
      if t == "(" then d + 1 else if t == ")" then (if d > 0 then d - 1 else 0) else d
  }

  /** The tokens with every `)` that closes nothing removed. */
  function Clean(toks: seq<string>): seq<string> {
    if toks == [] then []
    else
      var pre := toks[..|toks| - 1];
      var t := toks[|toks| - 1];
      if t == ")" && Depth(pre) == 0 then Clean(pre) else Clean(pre) + [t]
  }

  // ---------------------------------------------------------------------------
  // What a tree means: the token stream it renders back to.

  function Piece(g: Group, e: Entry): seq<string>
    decreases g, 0, 0
  {
    match e
    case Name(s) => [s]
    case TagId(_) => []
    case Ref(k) => if k < |g.groups| then ["("] + Render(g.groups[k]) + [")"] else []
  }

  /** The rendering of the first `n` slots of `g`. */
  function RenderUpTo(g: Group, n: nat): seq<string>
    requires n <= |g.tokens|
    decreases g, 1, n
  {
    if n == 0 then [] else RenderUpTo(g, n - 1) + Piece(g, g.tokens[n - 1])
  }

  /** The group written out as tokens, each placeholder replaced by its subgroup in
      parentheses. */
  function Render(g: Group): seq<string>
    decreases g, 2, 0
  {
    RenderUpTo(g, |g.tokens|)
  }

  /** The placeholders among `ts` are `Ref(0)`, ..., `Ref(m - 1)`, in that order. */
  predicate RefsInOrder(ts: seq<Entry>, m: nat) {
    if ts == [] then m == 0
    else
      var pre := ts[..|ts| - 1];
      match ts[|ts| - 1]
      case Ref(k) => m > 0 && k == m - 1 && RefsInOrder(pre, m - 1)
      case _ => RefsInOrder(pre, m)
  }

  /** Every group's placeholders name its subgroups once each, in order. */
  predicate WellFormed(g: Group) {
    RefsInOrder(g.tokens, |g.groups|) && forall k :: 0 <= k < |g.groups| ==> WellFormed(g.groups[k])
  }

  lemma {:induction false} RefsBelow(ts: seq<Entry>, m: nat)
    requires RefsInOrder(ts, m)
    ensures forall i :: 0 <= i < |ts| && ts[i].Ref? ==> ts[i].index < m
  {
    if ts != [] {
      var pre := ts[..|ts| - 1];
      if ts[|ts| - 1].Ref? {
        RefsBelow(pre, m - 1);
      } else {
        RefsBelow(pre, m);
      }
      assert forall i :: 0 <= i < |pre| ==> pre[i] == ts[i];
    }
  }

  /** A slot `getGroups` can write: a placeholder, or a name that is not a parenthesis
      (every `(` and `)` is consumed as structure). */
  predicate PlainEntry(e: Entry) {
    match e
    case Name(s) => s != "(" && s != ")"
    case TagId(_) => false
    case Ref(_) => true
  }

  /** No group at any depth holds a parenthesis name or a tag id. */
  predicate Plain(g: Group) {
    (forall i :: 0 <= i < |g.tokens| ==> PlainEntry(g.tokens[i]))
    && forall k :: 0 <= k < |g.groups| ==> Plain(g.groups[k])
  }

  /** Slots that agree and refer only to agreeing subgroups render alike. */
  lemma {:induction false} RenderUpToAgree(g: Group, h: Group, n: nat, bound: nat)
    requires n <= |g.tokens| && n <= |h.tokens| && g.tokens[..n] == h.tokens[..n]
    requires bound <= |g.groups| && bound <= |h.groups| && g.groups[..bound] == h.groups[..bound]
    requires forall i :: 0 <= i < n && g.tokens[i].Ref? ==> g.tokens[i].index < bound
    ensures RenderUpTo(g, n) == RenderUpTo(h, n)
  {
    if n > 0 {
      assert g.tokens[..n - 1] == h.tokens[..n - 1] by {
        assert g.tokens[..n - 1] == g.tokens[..n][..n - 1];
        assert h.tokens[..n - 1] == h.tokens[..n][..n - 1];
      }
      RenderUpToAgree(g, h, n - 1, bound);
      assert g.tokens[n - 1] == g.tokens[..n][n - 1] == h.tokens[n - 1];
      match g.tokens[n - 1]
      case Ref(k) =>
        assert g.groups[k] == g.groups[..bound][k] == h.groups[k];
      case _ =>
    }
  }

  // ---------------------------------------------------------------------------
  // The mutable tree of `getGroups`, modelled on values: the stack of open-group
  // indices is a path from the root.

  /** The group the path leads to (`curGroup`). */
  function At(g: Group, path: seq<nat>): Group
    decreases |path|
  {
    if path == [] || path[0] >= |g.groups| then g else At(g.groups[path[0]], path[1..])
  }

  /** Appends `e` to the tokens of the group at `path`, and a new empty subgroup
      to its `groups` when `opening`. */
  function AddAt(g: Group, path: seq<nat>, e: Entry, opening: bool): Group
    decreases |path|
  {
    if path == [] then
      Group(g.tokens + [e], if opening then g.groups + [Group([], [])] else g.groups)
    else if path[0] < |g.groups| then
      g.(groups := g.groups[path[0] := AddAt(g.groups[path[0]], path[1..], e, opening)])
    else g
  }

  /** Appending a plain slot keeps the tree plain. */
  lemma {:induction false} AddAtPlain(g: Group, path: seq<nat>, e: Entry, opening: bool)
    requires Plain(g) && PlainEntry(e)
    ensures Plain(AddAt(g, path, e, opening))
    decreases |path|
  {
    var g' := AddAt(g, path, e, opening);
    if path == [] {
      assert forall i :: 0 <= i < |g'.tokens| ==> g'.tokens[i] == if i < |g.tokens| then g.tokens[i] else e;
      assert forall k :: 0 <= k < |g'.groups| ==> g'.groups[k] == if k < |g.groups| then g.groups[k] else Group([], []);
      assert Plain(Group([], []));
    } else if path[0] < |g.groups| {
      AddAtPlain(g.groups[path[0]], path[1..], e, opening);
    }
  }

  /** Every group on the path is open: it is the last subgroup of its parent, and its
      placeholder is the parent's last slot. */
  predicate Spine(g: Group, path: seq<nat>)
    decreases |path|
  {
    path == [] ||
    (|g.tokens| > 0 && |g.groups| > 0 && g.tokens[|g.tokens| - 1] == Ref(path[0])
     && path[0] == |g.groups| - 1 && Spine(g.groups[path[0]], path[1..]))
  }

  /** The rendering of the tree up to the innermost open group, without the closing
      parentheses still owed to the open groups. */
  function OpenPrefix(g: Group, path: seq<nat>): seq<string>
    decreases |path|
  {
    if path == [] || |g.tokens| == 0 || path[0] >= |g.groups| then Render(g)
    else RenderUpTo(g, |g.tokens| - 1) + ["("] + OpenPrefix(g.groups[path[0]], path[1..])
  }

  /** Appending a slot (and possibly an empty subgroup) leaves the rendering of
      the existing slots as it was. */
  lemma {:induction false} ExtendHere(g: Group, e: Entry, opening: bool)
    requires WellFormed(g)
    ensures var g' := Group(g.tokens + [e], if opening then g.groups + [Group([], [])] else g.groups);
      g'.tokens[..|g.tokens|] == g.tokens && RenderUpTo(g', |g.tokens|) == Render(g)
  {
    var g' := Group(g.tokens + [e], if opening then g.groups + [Group([], [])] else g.groups);
    assert g'.tokens[..|g.tokens|] == g.tokens;
    assert g.tokens[..|g.tokens|] == g.tokens;
    assert g'.groups[..|g.groups|] == g.groups;
    RefsBelow(g.tokens, |g.groups|);
    RenderUpToAgree(g, g', |g.tokens|, |g.groups|);
  }

  /** Replacing the innermost open subgroup by a well-formed one keeps the tree
      well-formed and changes the open prefix only below that subgroup. */
  lemma {:induction false} ReplaceLast(g: Group, c: Group, q: seq<nat>)
    requires WellFormed(g) && |g.tokens| > 0 && |g.groups| > 0
    requires g.tokens[|g.tokens| - 1] == Ref(|g.groups| - 1)
    requires WellFormed(c)
    ensures var p := |g.groups| - 1;
      var g' := g.(groups := g.groups[p := c]);
      WellFormed(g') && (Spine(c, q) ==> Spine(g', [p] + q))
      && OpenPrefix(g', [p] + q) == RenderUpTo(g, |g.tokens| - 1) + ["("] + OpenPrefix(c, q)
  {
    var n, p := |g.tokens| - 1, |g.groups| - 1;
    var g' := g.(groups := g.groups[p := c]);
    assert g.tokens[..n] == g.tokens[..|g.tokens|][..n];
    assert RefsInOrder(g.tokens[..n], p);
    RefsBelow(g.tokens[..n], p);
    assert forall i :: 0 <= i < n ==> g.tokens[..n][i] == g.tokens[i];
    assert g'.groups[..p] == g.groups[..p];
    RenderUpToAgree(g, g', n, p);
    assert ([p] + q)[0] == p && ([p] + q)[1..] == q;
    assert forall k :: 0 <= k < |g'.groups| ==> WellFormed(g'.groups[k]);
  }

  /** Appending a name to the innermost open group extends the open prefix by it. */
  lemma {:induction false} PushName(g: Group, path: seq<nat>, s: string)
    requires WellFormed(g) && Spine(g, path)
    ensures var g' := AddAt(g, path, Name(s), false);
      WellFormed(g') && Spine(g', path) && OpenPrefix(g', path) == OpenPrefix(g, path) + [s]
    decreases |path|
  {
    var g' := AddAt(g, path, Name(s), false);
    if path == [] {
      ExtendHere(g, Name(s), false);
      assert g'.tokens[..|g'.tokens| - 1] == g.tokens;
      assert g'.tokens[|g.tokens|] == Name(s);
      assert Piece(g', Name(s)) == [s];
      assert RenderUpTo(g', |g'.tokens|) == RenderUpTo(g', |g.tokens|) + [s];
    } else {
      var p, q := path[0], path[1..];
      assert path == [p] + q;
      PushName(g.groups[p], q, s);
      ReplaceLast(g, AddAt(g.groups[p], q, Name(s), false), q);
    }
  }

  lemma {:induction false} OpenHere(g: Group)
    requires WellFormed(g)
    ensures var k := |g.groups|;
      var g' := Group(g.tokens + [Ref(k)], g.groups + [Group([], [])]);
      WellFormed(g') && Spine(g', [k]) && OpenPrefix(g', [k]) == Render(g) + ["("]
  {
    var k := |g.groups|;
    var g' := Group(g.tokens + [Ref(k)], g.groups + [Group([], [])]);
    ExtendHere(g, Ref(k), true);
    assert g'.tokens[..|g'.tokens| - 1] == g.tokens;
    assert RefsInOrder(g'.tokens, |g'.groups|);
    assert g'.groups[k] == Group([], []);
    assert forall j :: 0 <= j < |g'.groups| ==> WellFormed(g'.groups[j]);
    assert [k][1..] == [];
    assert OpenPrefix(Group([], []), []) == [];
  }

  /** Opening a group at the innermost open group extends the open prefix by `(`,
      and the new group becomes the innermost one. */
  lemma {:induction false} OpenChild(g: Group, path: seq<nat>)
    requires WellFormed(g) && Spine(g, path)
    ensures var k := |At(g, path).groups|;
      var g' := AddAt(g, path, Ref(k), true);
      WellFormed(g') && Spine(g', path + [k]) && OpenPrefix(g', path + [k]) == OpenPrefix(g, path) + ["("]
    decreases |path|
  {
    var k := |At(g, path).groups|;
    var g' := AddAt(g, path, Ref(k), true);
    if path == [] {
      OpenHere(g);
    } else {
      var p, q := path[0], path[1..];
      assert path == [p] + q && path + [k] == [p] + (q + [k]);
      OpenChild(g.groups[p], q);
      ReplaceLast(g, AddAt(g.groups[p], q, Ref(k), true), q + [k]);
    }
  }

  /** Closing the innermost open group extends the open prefix by `)`. */
  lemma {:induction false} CloseChild(g: Group, path: seq<nat>)
    requires WellFormed(g) && Spine(g, path) && |path| > 0
    ensures Spine(g, path[..|path| - 1])
    ensures OpenPrefix(g, path[..|path| - 1]) == OpenPrefix(g, path) + [")"]
    decreases |path|
  {
    var p := path[0];
    var n := |g.tokens| - 1;
    if |path| == 1 {
      assert path[..0] == [] && path[1..] == [];
      assert g.tokens[n] == Ref(p);
      assert Render(g) == RenderUpTo(g, n) + Piece(g, Ref(p));
    } else {
      var q := path[1..];
      assert path[..|path| - 1] == [p] + q[..|q| - 1];
      CloseChild(g.groups[p], q);
    }
  }

  lemma {:induction false} ClosedSpine(g: Group)
    ensures OpenPrefix(g, []) == Render(g)
  {
  }

  /** Depth and Clean after one more token. */
  lemma {:induction false} TokenStep(toks: seq<string>, i: nat)
    requires i < |toks|
    ensures var pre, t, d := toks[..i], toks[i], Depth(toks[..i]);
      Depth(toks[..i + 1]) == (if t == "(" then d + 1 else if t == ")" then (if d > 0 then d - 1 else 0) else d)
      && Clean(toks[..i + 1]) == (if t == ")" && d == 0 then Clean(pre) else Clean(pre) + [toks[i]])
  {
    assert toks[..i + 1][..i] == toks[..i];
  }

  /** The loop invariant of `getGroups` after the first `i` tokens: the tree is
      well-formed, the path is its chain of open groups, one per unclosed `(`, and
      the tree so far renders to the cleaned tokens. */
  ghost predicate Building(root: Group, path: seq<nat>, toks: seq<string>, i: nat)
  {
    i <= |toks| && WellFormed(root) && Spine(root, path)
    && |path| == Depth(toks[..i]) && OpenPrefix(root, path) == Clean(toks[..i])
  }

  lemma {:induction false} BuildOpen(root: Group, path: seq<nat>, toks: seq<string>, i: nat)
    requires Building(root, path, toks, i) && i < |toks| && toks[i] == "("
    ensures var k := |At(root, path).groups|;
      Building(AddAt(root, path, Ref(k), true), path + [k], toks, i + 1)
  {
    TokenStep(toks, i);
    OpenChild(root, path);
  }

  lemma {:induction false} BuildClose(root: Group, path: seq<nat>, toks: seq<string>, i: nat)
    requires Building(root, path, toks, i) && i < |toks| && toks[i] == ")"
    ensures Building(root, if |path| > 0 then path[..|path| - 1] else path, toks, i + 1)
  {
    TokenStep(toks, i);
    if |path| > 0 {
      CloseChild(root, path);
    }
  }

  lemma {:induction false} BuildName(root: Group, path: seq<nat>, toks: seq<string>, i: nat)
    requires Building(root, path, toks, i) && i < |toks| && toks[i] != "(" && toks[i] != ")"
    ensures Building(AddAt(root, path, Name(toks[i]), false), path, toks, i + 1)
  {
    TokenStep(toks, i);
    PushName(root, path, toks[i]);
  }

  /** `getGroups`: walks the tokens with a stack of open-group indices. The result is
      an error exactly when some `(` is still open at the end; otherwise the tree
      renders back to the tokens with stray `)` dropped, its placeholders name its
      subgroups in order, and no parenthesis survives as a name. */
  method GetGroups(query: string) returns (r: Result<Group, ErrorReply>)
    ensures r.Ok? <==> Depth(Tokenize(query)) == 0
    ensures r.Ok? ==> WellFormed(r.value) && Render(r.value) == Clean(Tokenize(query))
    ensures r.Ok? ==> Plain(r.value)
    ensures r.Err? ==> r.error == UnclosedGroup
  {
    var toks := TokenizeAll(query);
    var root := Group([], []);
    var path: seq<nat> := [];
    var i := 0;
    assert toks[..0] == [];
    while i < |toks|
      invariant Building(root, path, toks, i)
      invariant Plain(root)
    {
      var token := toks[i];
      if token == "(" {
        BuildOpen(root, path, toks, i);
        var k: nat := |At(root, path).groups|;
        AddAtPlain(root, path, Ref(k), true);
        root := AddAt(root, path, Ref(k), true);
        path := path + [k];
      } else if token == ")" {
        BuildClose(root, path, toks, i);
        if |path| > 0 {
          path := path[..|path| - 1];
        }
      } else {
        BuildName(root, path, toks, i);
        AddAtPlain(root, path, Name(token), false);
        root := AddAt(root, path, Name(token), false);
      }
      i := i + 1;
    }
    assert toks[..|toks|] == toks;
    if |path| != 0 {
      return Err(UnclosedGroup);
    }
    return Ok(root);
  }

  // ---------------------------------------------------------------------------
  // `convertToTagIds`.

  /** The tokens `convertToTagIds` leaves alone. */
  const TokensToSkip: seq<string> := ["~", "^", "-"]

  predicate Skipped(e: Entry) {
    match e
    case Name(s) => s in TokensToSkip || StartsWith(s, "__")
    case _ => true
  }

  /** The pattern built for a wildcard token: anchored, with the first `*` turned into
      `.*` (any later `*` stays as it is). */
  function WildcardPattern(token: string): string {
    "^" + ReplaceFirst(token, '*', ".*") + "$"
  }

  /** The ids of the k matches, separated by `~`: 2k - 1 slots. */
  function Expansion(ids: seq<int>): (r: seq<Entry>)
    requires |ids| > 0
    ensures |r| == 2 * |ids| - 1
  {
    if |ids| == 1 then [TagId(ids[0])] else [TagId(ids[0]), Name("~")] + Expansion(ids[1..])
  }

  /** Slot 2j of the expansion holds the j-th id and slot 2j + 1 a `~`. */
  lemma {:induction false} ExpansionAt(ids: seq<int>, j: nat)
    requires j < |ids|
    ensures Expansion(ids)[2 * j] == TagId(ids[j])
    ensures j < |ids| - 1 ==> Expansion(ids)[2 * j + 1] == Name("~")
  {
    if j > 0 {
      ExpansionAt(ids[1..], j - 1);
    }
  }

  /** `tokens[i++] = ...` for each slot of `run`, from slot `s` on: each store
      overwrites a slot, or appends when it lands just past the end. */
  function WriteRun(ts: seq<Entry>, s: nat, run: seq<Entry>): (r: seq<Entry>)
    requires s <= |ts|
    ensures |r| == if s + |run| <= |ts| then |ts| else s + |run|
    decreases |run|
  {
    if run == [] then ts
    else Store(WriteRun(ts, s, run[..|run| - 1]), s + |run| - 1, run[|run| - 1])
  }

  /** The slots before the run are kept, the run is written, and the slots after it
      are kept. */
  lemma {:induction false} WriteRunShape(ts: seq<Entry>, s: nat, run: seq<Entry>)
    requires s <= |ts|
    ensures var r := WriteRun(ts, s, run);
      (forall j | 0 <= j < s :: r[j] == ts[j])
      && (forall j | 0 <= j < |run| :: r[s + j] == run[j])
      && (forall j | s + |run| <= j < |ts| :: r[j] == ts[j])
    decreases |run|
  {
    if run != [] {
      var init := run[..|run| - 1];
      WriteRunShape(ts, s, init);
      forall j | 0 <= j < |init|
        ensures init[j] == run[j]
      {
      }
    }
  }

  /** The same, as slices: the prefix is kept and the run is in place. */
  lemma {:induction false} WriteRunSlices(ts: seq<Entry>, s: nat, run: seq<Entry>)
    requires s <= |ts|
    ensures WriteRun(ts, s, run)[..s] == ts[..s]
    ensures WriteRun(ts, s, run)[s..s + |run|] == run
  {
    WriteRunShape(ts, s, run);
    var r := WriteRun(ts, s, run);
    forall j | 0 <= j < s
      ensures r[..s][j] == ts[..s][j]
    {
    }
    forall j | 0 <= j < |run|
      ensures r[s..s + |run|][j] == run[j]
    {
      assert r[s..s + |run|][j] == r[s + j];
    }
  }

  /** The slot-rewriting loop of `convertToTagIds` from slot `i` on. `lookup` stands
      for `getOrAddTag` and `matches` for the tag-name query with a pattern. */
  function RewriteFrom(ts: seq<Entry>, i: nat, lookup: string -> Option<int>,
                       matches: string -> seq<int>): (r: seq<Entry>)
    ensures |r| >= |ts|
    ensures i <= |ts| ==> r[..i] == ts[..i]
    ensures i >= |ts| ==> r == ts
    decreases if i < |ts| then |ts| - i else 0
  {
    if i >= |ts| then ts
    else if Skipped(ts[i]) then RewriteFrom(ts, i + 1, lookup, matches)
    else
      var s := ts[i].name;
      if '*' in s then
        var ids := matches(WildcardPattern(s));
        if |ids| == 0 then RewriteFrom(ts, i + 1, lookup, matches)
        else
          var ts' := WriteRun(ts, i, Expansion(ids));
          WriteRunSlices(ts, i, Expansion(ids));
          var r := RewriteFrom(ts', i + 2 * |ids|, lookup, matches);
          PrefixOfPrefix(r, ts', i, if i + 2 * |ids| <= |ts'| then i + 2 * |ids| else |ts'|);
          r
      else
        var e := match lookup(s) case Some(id) => TagId(id) case None => Name("");
        var r := RewriteFrom(ts[i := e], i + 1, lookup, matches);
        PrefixOfPrefix(r, ts[i := e], i, i + 1);
        r
  }

  /** Agreement on the first `n` slots gives agreement on the first `m <= n`. */
  lemma PrefixOfPrefix(a: seq<Entry>, b: seq<Entry>, m: nat, n: nat)
    requires m <= n <= |a| && n <= |b| && a[..n] == b[..n]
    ensures a[..m] == b[..m]
  {
    assert a[..m] == a[..n][..m] && b[..m] == b[..n][..m];
  }

  /** Whether the loop from slot `i` on reaches a wildcard whose pattern `new RegExp`
      rejects with a `SyntaxError` (`a**`, say, gives `^a.**$`), which rejects
      `convertToTagIds`; `compiles` stands for the regular-expression syntax. */
  predicate AbortsFrom(ts: seq<Entry>, i: nat, lookup: string -> Option<int>,
                       matches: string -> seq<int>, compiles: string -> bool)
    decreases if i < |ts| then |ts| - i else 0
  {
    if i >= |ts| then false
    else if Skipped(ts[i]) then AbortsFrom(ts, i + 1, lookup, matches, compiles)
    else
      var s := ts[i].name;
      if '*' in s then
        if !compiles(WildcardPattern(s)) then true
        else
          var ids := matches(WildcardPattern(s));
          if |ids| == 0 then AbortsFrom(ts, i + 1, lookup, matches, compiles)
          else
            AbortsFrom(WriteRun(ts, i, Expansion(ids)), i + 2 * |ids|, lookup, matches, compiles)
      else
        var e := match lookup(s) case Some(id) => TagId(id) case None => Name("");
        AbortsFrom(ts[i := e], i + 1, lookup, matches, compiles)
  }

  /** The loose-equality test of `filter(t => t != "")`: the empty name and the id 0
      both compare equal to `""`. */
  predicate LooselyEmpty(e: Entry) {
    e == Name("") || e == TagId(0)
  }

  function RemoveEmpty(ts: seq<Entry>): seq<Entry> {
    if ts == [] then [] else (if LooselyEmpty(ts[0]) then [] else [ts[0]]) + RemoveEmpty(ts[1..])
  }

  /** The filter keeps exactly the slots that are not loosely empty. */
  lemma {:induction false} RemoveEmptyMembers(ts: seq<Entry>)
    ensures forall e :: e in RemoveEmpty(ts) <==> e in ts && !LooselyEmpty(e)
  {
    if ts != [] {
      RemoveEmptyMembers(ts[1..]);
      assert ts == [ts[0]] + ts[1..];
    }
  }

  /** What `convertToTagIds` leaves in a group. */
  function Converted(g: Group, lookup: string -> Option<int>, matches: string -> seq<int>): Group {
    Group(RemoveEmpty(RewriteFrom(g.tokens, 0, lookup, matches)),
          seq(|g.groups|, k requires 0 <= k < |g.groups| => Converted(g.groups[k], lookup, matches)))
  }

  /** Only a wildcard can reject: without one from slot `i` on, the loop runs to the end. */
  lemma {:induction false} NoWildcardNoAbort(ts: seq<Entry>, i: nat, lookup: string -> Option<int>,
                                             matches: string -> seq<int>, compiles: string -> bool)
    requires forall j :: i <= j < |ts| ==> !HasWildcard(ts[j])
    ensures !AbortsFrom(ts, i, lookup, matches, compiles)
    decreases if i < |ts| then |ts| - i else 0
  {
    if i < |ts| {
      if Skipped(ts[i]) {
        NoWildcardNoAbort(ts, i + 1, lookup, matches, compiles);
      } else {
        var e := match lookup(ts[i].name) case Some(id) => TagId(id) case None => Name("");
        var ts' := ts[i := e];
        assert forall j :: i + 1 <= j < |ts'| ==> ts'[j] == ts[j];
        NoWildcardNoAbort(ts', i + 1, lookup, matches, compiles);
      }
    }
  }

  /** A wildcard slot the loop reaches rejects exactly when its pattern does not compile. */
  lemma {:induction false} BadWildcardAborts(ts: seq<Entry>, i: nat, lookup: string -> Option<int>,
                                             matches: string -> seq<int>, compiles: string -> bool)
    requires i < |ts| && HasWildcard(ts[i]) && !compiles(WildcardPattern(ts[i].name))
    ensures AbortsFrom(ts, i, lookup, matches, compiles)
  {
  }

  /** Some group of the tree, itself or one below it, meets a pattern that does not compile. */
  predicate ConvertAborts(g: Group, lookup: string -> Option<int>, matches: string -> seq<int>,
                          compiles: string -> bool)
  {
    AbortsFrom(g.tokens, 0, lookup, matches, compiles)
    || exists k | 0 <= k < |g.groups| :: ConvertAborts(g.groups[k], lookup, matches, compiles)
  }

  /** The rejection of `convertToTagIds` by a bad wildcard pattern. */
  const BadPattern := "SyntaxError: invalid regular expression"

  /** JavaScript's `tokens[i] = v` for `i` at most the length: replaces the slot, or
      appends when `i` is the length. */
  function Store(ts: seq<Entry>, i: nat, v: Entry): seq<Entry>
    requires i <= |ts|
  {
    if i < |ts| then ts[i := v] else ts + [v]
  }

  /** Storing slot w of a run just past its first w slots writes one more slot of it. */
  lemma {:induction false} WriteOne(ts: seq<Entry>, s: nat, run: seq<Entry>, w: nat)
    requires s <= |ts| && w < |run|
    ensures s + w <= |WriteRun(ts, s, run[..w])|
    ensures Store(WriteRun(ts, s, run[..w]), s + w, run[w]) == WriteRun(ts, s, run[..w + 1])
  {
    assert run[..w + 1][..w] == run[..w];
  }

  /** One round of the inner loop: the j-th id, then a `~` unless it is the last. */
  lemma {:induction false} WritePair(ts: seq<Entry>, i: nat, tags: seq<int>, j: nat)
    requires i <= |ts| && j < |tags|
    ensures var run, w := Expansion(tags), 2 * j;
      i + w <= |WriteRun(ts, i, run[..w])| &&
      Store(WriteRun(ts, i, run[..w]), i + w, TagId(tags[j])) == WriteRun(ts, i, run[..w + 1]) &&
      (j < |tags| - 1 ==>
        i + w + 1 <= |WriteRun(ts, i, run[..w + 1])| &&
        Store(WriteRun(ts, i, run[..w + 1]), i + w + 1, Name("~")) == WriteRun(ts, i, run[..w + 2]))
  {
    var run, w := Expansion(tags), 2 * j;
    ExpansionAt(tags, j);
    WriteOne(ts, i, run, w);
    if j < |tags| - 1 {
      WriteOne(ts, i, run, w + 1);
    }
  }

  /** The inner loop of the wildcard case: writes the ids with `~` between them from
      slot `i` on, moving `i` past each slot written (`tokens[i++] = ...`). */
  method WriteMatches(ts: seq<Entry>, i: nat, tags: seq<int>) returns (tokens: seq<Entry>, next: nat)
    requires i <= |ts| && |tags| > 0
    ensures tokens == WriteRun(ts, i, Expansion(tags))
    ensures next == i + 2 * |tags| - 1
  {
    ghost var run := Expansion(tags);
    tokens := ts;
    var k := i;
    assert WriteRun(ts, i, run[..0]) == ts;
    var j := 0;
    while j < |tags|
      invariant 0 <= j <= |tags|
      invariant k == i + (if j < |tags| then 2 * j else 2 * j - 1)
      invariant tokens == WriteRun(ts, i, run[..k - i])
    {
      WritePair(ts, i, tags, j);
      tokens := Store(tokens, k, TagId(tags[j]));
      k := k + 1;
      if j < |tags| - 1 {
        tokens := Store(tokens, k, Name("~"));
        k := k + 1;
      }
      j := j + 1;
    }
    assert run[..k - i] == run;
    next := k;
  }

  /** The slot loop of `convertToTagIds` over one group's tokens: stops at a
      wildcard whose pattern does not compile, and otherwise leaves the rewritten
      tokens. */
  method RewriteSlots(ts: seq<Entry>, lookup: string -> Option<int>, matches: string -> seq<int>,
                      compiles: string -> bool)
    returns (tokens: seq<Entry>, aborted: bool)
    ensures aborted == AbortsFrom(ts, 0, lookup, matches, compiles)
    ensures !aborted ==> tokens == RewriteFrom(ts, 0, lookup, matches)
  {
    tokens := ts;
    var i: nat := 0;
    while i < |tokens|
      invariant RewriteFrom(tokens, i, lookup, matches) == RewriteFrom(ts, 0, lookup, matches)
      invariant AbortsFrom(tokens, i, lookup, matches, compiles) == AbortsFrom(ts, 0, lookup, matches, compiles)
      decreases SlotsLeft(tokens, i)
    {
      var stop;
      tokens, i, stop := RewriteSlot(tokens, i, lookup, matches, compiles);
      if stop {
        return tokens, true;
      }
    }
    aborted := false;
  }

  /** The slots the loop has still to visit. */
  function SlotsLeft(ts: seq<Entry>, i: nat): nat
  {
    if i < |ts| then |ts| - i else 0
  }

  /** One pass of the loop body at slot `i`: it stops at a wildcard whose pattern does
      not compile, and otherwise moves the cursor on with both loops' outcomes kept. */
  method RewriteSlot(ts: seq<Entry>, i: nat, lookup: string -> Option<int>, matches: string -> seq<int>,
                     compiles: string -> bool)
    returns (tokens: seq<Entry>, next: nat, stop: bool)
    requires i < |ts|
    ensures stop <==> !Skipped(ts[i]) && '*' in ts[i].name && !compiles(WildcardPattern(ts[i].name))
    ensures stop ==> AbortsFrom(ts, i, lookup, matches, compiles)
    ensures !stop ==> RewriteFrom(tokens, next, lookup, matches) == RewriteFrom(ts, i, lookup, matches)
    ensures !stop ==> AbortsFrom(tokens, next, lookup, matches, compiles) == AbortsFrom(ts, i, lookup, matches, compiles)
    ensures !stop ==> SlotsLeft(tokens, next) < SlotsLeft(ts, i)
  {
    tokens, next, stop := ts, i + 1, false;
    var token := ts[i];
    if !Skipped(token) {
      var s := token.name;
      if '*' in s {
        if !compiles(WildcardPattern(s)) {
          stop := true;
          return;
        }
        var tags := matches(WildcardPattern(s));
        if |tags| > 0 {
          tokens, next := WriteMatches(ts, i, tags);
          next := next + 1;
          MatchedSlot(ts, i, tokens, next, lookup, matches, compiles);
        } else {
          UnmatchedSlot(ts, i, lookup, matches, compiles);
        }
      } else {
        NameSlot(ts, i, lookup, matches, compiles);
        var e := match lookup(s) case Some(id) => TagId(id) case None => Name("");
        tokens := ts[i := e];
      }
    } else {
      SkipSlot(ts, i, lookup, matches, compiles);
    }
  }

  /** One step of both loops at a slot the loop skips. */
  lemma SkipSlot(ts: seq<Entry>, i: nat, lookup: string -> Option<int>, matches: string -> seq<int>,
                 compiles: string -> bool)
    requires i < |ts| && Skipped(ts[i])
    ensures RewriteFrom(ts, i + 1, lookup, matches) == RewriteFrom(ts, i, lookup, matches)
    ensures AbortsFrom(ts, i + 1, lookup, matches, compiles) == AbortsFrom(ts, i, lookup, matches, compiles)
  {
  }

  /** One step of both loops at a plain name: the slot takes the looked-up id. */
  lemma NameSlot(ts: seq<Entry>, i: nat, lookup: string -> Option<int>, matches: string -> seq<int>,
                 compiles: string -> bool)
    requires i < |ts| && !Skipped(ts[i]) && '*' !in ts[i].name
    ensures var e := match lookup(ts[i].name) case Some(id) => TagId(id) case None => Name("");
      RewriteFrom(ts[i := e], i + 1, lookup, matches) == RewriteFrom(ts, i, lookup, matches)
      && AbortsFrom(ts[i := e], i + 1, lookup, matches, compiles) == AbortsFrom(ts, i, lookup, matches, compiles)
  {
  }

  /** One step of both loops at a wildcard whose pattern compiles and matches no tag. */
  lemma UnmatchedSlot(ts: seq<Entry>, i: nat, lookup: string -> Option<int>, matches: string -> seq<int>,
                      compiles: string -> bool)
    requires i < |ts| && !Skipped(ts[i]) && '*' in ts[i].name && compiles(WildcardPattern(ts[i].name))
    requires |matches(WildcardPattern(ts[i].name))| == 0
    ensures RewriteFrom(ts, i + 1, lookup, matches) == RewriteFrom(ts, i, lookup, matches)
    ensures AbortsFrom(ts, i + 1, lookup, matches, compiles) == AbortsFrom(ts, i, lookup, matches, compiles)
  {
  }

  /** One step of both loops at a wildcard whose pattern compiles and matches k > 0
      tags: the expansion is written and the cursor resumes at i + 2k. */
  lemma MatchedSlot(ts: seq<Entry>, i: nat, tokens: seq<Entry>, next: nat, lookup: string -> Option<int>,
                    matches: string -> seq<int>, compiles: string -> bool)
    requires i < |ts| && !Skipped(ts[i]) && '*' in ts[i].name && compiles(WildcardPattern(ts[i].name))
    requires |matches(WildcardPattern(ts[i].name))| > 0
    requires tokens == WriteRun(ts, i, Expansion(matches(WildcardPattern(ts[i].name))))
    requires next == i + 2 * |matches(WildcardPattern(ts[i].name))|
    ensures RewriteFrom(tokens, next, lookup, matches) == RewriteFrom(ts, i, lookup, matches)
    ensures AbortsFrom(tokens, next, lookup, matches, compiles) == AbortsFrom(ts, i, lookup, matches, compiles)
  {
    assert RewriteFrom(tokens, next, lookup, matches) == RewriteFrom(ts, i, lookup, matches) by {
      WildcardStep(ts, i, lookup, matches);
    }
    assert AbortsFrom(tokens, next, lookup, matches, compiles) == AbortsFrom(ts, i, lookup, matches, compiles) by {
      var ids := matches(WildcardPattern(ts[i].name));
      assert AbortsFrom(ts, i, lookup, matches, compiles)
        == AbortsFrom(WriteRun(ts, i, Expansion(ids)), i + 2 * |ids|, lookup, matches, compiles);
    }
  }


  /** `convertToTagIds`: rewrites the slots in place, filters, then recurses. It
      rejects exactly when some group meets a wildcard pattern that does not compile,
      and otherwise leaves the converted tree. */
  method ConvertToTagIds(g: Group, lookup: string -> Option<int>, matches: string -> seq<int>,
                         compiles: string -> bool)
    returns (r: Result<Group, string>)
    ensures r.Err? <==> ConvertAborts(g, lookup, matches, compiles)
    ensures r.Err? ==> r.error == BadPattern
    ensures r.Ok? ==> r.value == Converted(g, lookup, matches)
    decreases g
  {
    var tokens, aborted := RewriteSlots(g.tokens, lookup, matches, compiles);
    if aborted {
      return Err(BadPattern);
    }
    var kept := RemoveEmpty(tokens);
    var groups: seq<Group> := [];
    for k := 0 to |g.groups|
      invariant groups == seq(k, j requires 0 <= j < k => Converted(g.groups[j], lookup, matches))
      invariant forall j | 0 <= j < k :: !ConvertAborts(g.groups[j], lookup, matches, compiles)
    {
      var c := ConvertToTagIds(g.groups[k], lookup, matches, compiles);
      if c.Err? {
        return c;
      }
      groups := groups + [c.value];
    }
    r := Ok(Group(kept, groups));
  }

  // ---------------------------------------------------------------------------
  // What the rewrite does, slot by slot.

  /** The value one non-wildcard slot is rewritten to. */
  function ConvertSlot(e: Entry, lookup: string -> Option<int>): (r: Entry)
    ensures Skipped(e) ==> r == e
    ensures !Skipped(e) && lookup(e.name).Some? ==> r == TagId(lookup(e.name).value)
    ensures !Skipped(e) && lookup(e.name).None? ==> r == Name("")
  {
    if Skipped(e) then e
    else match lookup(e.name) case Some(id) => TagId(id) case None => Name("")
  }

  predicate HasWildcard(e: Entry) {
    e.Name? && !Skipped(e) && '*' in e.name
  }

  /** Without wildcards the rewrite keeps the length and converts each slot on its own:
      skipped tokens and placeholders stay, known names become their ids and unknown
      names become the empty string. */
  lemma {:induction false} RewritePointwise(ts: seq<Entry>, i: nat, lookup: string -> Option<int>,
                                            matches: string -> seq<int>)
    requires i <= |ts|
    requires forall j :: i <= j < |ts| ==> !HasWildcard(ts[j])
    ensures |RewriteFrom(ts, i, lookup, matches)| == |ts|
    ensures forall j :: i <= j < |ts| ==>
      RewriteFrom(ts, i, lookup, matches)[j] == ConvertSlot(ts[j], lookup)
    decreases |ts| - i
  {
    if i < |ts| {
      var e := ConvertSlot(ts[i], lookup);
      var ts' := if Skipped(ts[i]) then ts else ts[i := e];
      assert RewriteFrom(ts, i, lookup, matches) == RewriteFrom(ts', i + 1, lookup, matches);
      RewritePointwise(ts', i + 1, lookup, matches);
      var r := RewriteFrom(ts, i, lookup, matches);
      assert r[..i + 1] == ts'[..i + 1];
      assert r[i] == ts'[..i + 1][i] == e;
    }
  }

  /** One step of the rewrite at a wildcard with matches. */
  lemma {:induction false} WildcardStep(ts: seq<Entry>, i: nat, lookup: string -> Option<int>,
                     matches: string -> seq<int>)
    requires i < |ts| && HasWildcard(ts[i])
    requires |matches(WildcardPattern(ts[i].name))| > 0
    ensures var ids := matches(WildcardPattern(ts[i].name));
      RewriteFrom(ts, i, lookup, matches)
        == RewriteFrom(WriteRun(ts, i, Expansion(ids)), i + 2 * |ids|, lookup, matches)
  {
  }

  /** A wildcard with k > 0 matches leaves its expansion in slots i .. i + 2k - 2, and
      the cursor resumes at i + 2k: the slot after the expansion is not rewritten. */
  lemma {:induction false} WildcardWritten(ts: seq<Entry>, i: nat, lookup: string -> Option<int>,
                                     matches: string -> seq<int>)
    requires i < |ts| && HasWildcard(ts[i])
    requires |matches(WildcardPattern(ts[i].name))| > 0
    ensures var ids := matches(WildcardPattern(ts[i].name));
      var r := RewriteFrom(ts, i, lookup, matches);
      i + |Expansion(ids)| <= |r| && r[i..i + |Expansion(ids)|] == Expansion(ids)
  {
    var ids := matches(WildcardPattern(ts[i].name));
    var run := Expansion(ids);
    WriteRunSlices(ts, i, run);
    WildcardStep(ts, i, lookup, matches);
    KeptRun(WriteRun(ts, i, run), i + 2 * |ids|, i, run, lookup, matches);
  }

  /** A run written below the cursor survives the rest of the rewrite. */
  lemma {:induction false} KeptRun(ts: seq<Entry>, n: nat, i: nat, run: seq<Entry>, lookup: string -> Option<int>,
                                   matches: string -> seq<int>)
    requires i + |run| <= n && i + |run| <= |ts| && ts[i..i + |run|] == run
    ensures i + |run| <= |RewriteFrom(ts, n, lookup, matches)| && RewriteFrom(ts, n, lookup, matches)[i..i + |run|] == run
  {
    RewriteKeepsBelow(ts, n, i, i + |run|, lookup, matches);
  }

  /** The rewrite from slot n leaves any range of slots below n as it was. */
  lemma {:induction false} RewriteKeepsBelow(ts: seq<Entry>, n: nat, lo: nat, hi: nat, lookup: string -> Option<int>,
                          matches: string -> seq<int>)
    requires lo <= hi <= |ts| && hi <= n
    ensures hi <= |RewriteFrom(ts, n, lookup, matches)|
    ensures RewriteFrom(ts, n, lookup, matches)[lo..hi] == ts[lo..hi]
  {
    if n < |ts| {
      var p := RewriteFrom(ts, n, lookup, matches)[..n];
      assert p == ts[..n];
      assert RewriteFrom(ts, n, lookup, matches)[lo..hi] == p[lo..hi];
      assert ts[lo..hi] == p[lo..hi];
    }
  }

  /** A wildcard with no match is left as it is. */
  lemma {:induction false} WildcardUnmatched(ts: seq<Entry>, i: nat, lookup: string -> Option<int>,
                          matches: string -> seq<int>)
    requires i < |ts| && HasWildcard(ts[i])
    requires matches(WildcardPattern(ts[i].name)) == []
    ensures RewriteFrom(ts, i, lookup, matches)[i] == ts[i]
  {
    var r := RewriteFrom(ts, i + 1, lookup, matches);
    assert r[..i + 1][i] == ts[..i + 1][i];
  }

  /** `a* b c` with two matches: the expansion `1 ~ 2` overwrites `b` and `c`. */
  lemma {:induction false} WildcardOverwrites(lookup: string -> Option<int>, matches: string -> seq<int>)
    requires matches(WildcardPattern("a*")) == [1, 2]
    ensures RewriteFrom([Name("a*"), Name("b"), Name("c")], 0, lookup, matches)
      == [TagId(1), Name("~"), TagId(2)]
  {
    var ts := [Name("a*"), Name("b"), Name("c")];
    assert !Skipped(ts[0]) && '*' in ts[0].name;
    var e := Expansion([1, 2]);
    assert e == [TagId(1), Name("~"), TagId(2)];
    WriteRunSlices(ts, 0, e);
    var r := WriteRun(ts, 0, e);
    assert r == r[0..3] == e;
  }

  /** `a* b` with one match: the cursor skips the slot after the id, so `b` stays an
      unconverted name. */
  lemma {:induction false} WildcardSkipsNext(lookup: string -> Option<int>, matches: string -> seq<int>)
    requires matches(WildcardPattern("a*")) == [1]
    ensures RewriteFrom([Name("a*"), Name("b")], 0, lookup, matches) == [TagId(1), Name("b")]
  {
    var ts := [Name("a*"), Name("b")];
    assert !Skipped(ts[0]) && '*' in ts[0].name;
    assert Expansion([1]) == [TagId(1)];
    assert [TagId(1)][..0] == [];
    assert WriteRun(ts, 0, [TagId(1)]) == Store(ts, 0, TagId(1)) == [TagId(1), Name("b")];
  }

  /** The filter keeps order: it distributes over concatenation and leaves alone a list
      with nothing loosely empty in it. */
  lemma {:induction false} RemoveEmptyAppend(a: seq<Entry>, b: seq<Entry>)
    ensures RemoveEmpty(a + b) == RemoveEmpty(a) + RemoveEmpty(b)
  {
    if a != [] {
      var head := if LooselyEmpty(a[0]) then [] else [a[0]];
      assert (a + b)[0] == a[0];
      assert (a + b)[1..] == a[1..] + b;
      assert RemoveEmpty(a + b) == head + RemoveEmpty(a[1..] + b);
      RemoveEmptyAppend(a[1..], b);
      assert RemoveEmpty(a) == head + RemoveEmpty(a[1..]);
    } else {
      assert a + b == b;
    }
  }

  lemma {:induction false} RemoveEmptyKeeps(ts: seq<Entry>)
    requires forall k :: 0 <= k < |ts| ==> !LooselyEmpty(ts[k])
    ensures RemoveEmpty(ts) == ts
  {
    if ts != [] {
      RemoveEmptyKeeps(ts[1..]);
    }
  }

  /** With no wildcard in a group, its converted tokens are its tokens converted slot by
      slot with the empty results dropped, in order. */
  lemma {:induction false} ConvertedPlain(g: Group, lookup: string -> Option<int>, matches: string -> seq<int>)
    requires forall j :: 0 <= j < |g.tokens| ==> !HasWildcard(g.tokens[j])
    ensures Converted(g, lookup, matches).tokens
      == RemoveEmpty(seq(|g.tokens|, j requires 0 <= j < |g.tokens| => ConvertSlot(g.tokens[j], lookup)))
    ensures |Converted(g, lookup, matches).groups| == |g.groups|
  {
    RewritePointwise(g.tokens, 0, lookup, matches);
    var r := RewriteFrom(g.tokens, 0, lookup, matches);
    assert r == seq(|g.tokens|, j requires 0 <= j < |g.tokens| => ConvertSlot(g.tokens[j], lookup));
  }
}
