/** Helpers of the browser user script (e621AdvancedSearch.user.js): the
    query-string splitter, the expansion of a `set:`/`pool:` id list, the
    search cursor reset, and the status shown on a post preview. */
module UserScript {
  import opened Common

  // ---------------------------------------------------------------------------
  // parseQuery
  // ---------------------------------------------------------------------------

  /** `decodeURIComponent`, taken as given. */
  type Decoder = string -> string

  /** The query string without one leading `?`. */
  function WithoutQuestion(qs: string): string {
    if |qs| > 0 && qs[0] == '?' then qs[1..] else qs
  }

  /** The key of a pair: the text before its first `=`. */
  function KeyOf(pair: string): string {
    Split(pair, '=')[0]
  }

  /** The value of a pair: the pieces after the first `=`, joined back with `=`. */
  function ValueOf(pair: string): string {
    Join(Split(pair, '=')[1..], '=')
  }

  /** The object `parseQuery` builds from `pairs`, a later pair overwriting an earlier one. */
  function Query(pairs: seq<string>, decode: Decoder): map<string, string>
    decreases |pairs|
  {
    if pairs == [] then map[]
    else
      var p := pairs[|pairs| - 1];
      Query(pairs[..|pairs| - 1], decode)[decode(KeyOf(p)) := decode(ValueOf(p))]
  }

  /** `parseQuery`: splits on `&` and fills the object pair by pair. */
  method ParseQuery(queryString: string, decode: Decoder) returns (query: map<string, string>)
    ensures query == Query(Split(WithoutQuestion(queryString), '&'), decode)
  {
    query := map[];
    var pairs := Split(if |queryString| > 0 && queryString[0] == '?' then queryString[1..] else queryString, '&');
    var i := 0;
    while i < |pairs|
      invariant 0 <= i <= |pairs|
      invariant query == Query(pairs[..i], decode)
    {
      assert pairs[..i + 1][..i] == pairs[..i];
      var pair := Split(pairs[i], '=');
      query := query[decode(pair[0]) := decode(Join(pair[1..], '='))];
      i := i + 1;
    }
    assert pairs[..i] == pairs;
  }

  /** A pair `k=v` has key `k` and value `v`, even when `v` holds more `=`. */
  lemma {:induction false} PairMeaning(k: string, v: string)
    requires '=' !in k
    ensures KeyOf(k + "=" + v) == k && ValueOf(k + "=" + v) == v
  {
    SplitAtFirst(k, '=', v);
    JoinSplit(v, '=');
  }

  /** A pair without `=` is a key with the empty value. */
  lemma {:induction false} PairWithoutValue(k: string)
    requires '=' !in k
    ensures KeyOf(k) == k && ValueOf(k) == ""
  {
    SplitWithoutSeparator(k, '=');
  }

  /** A key of the result comes from some pair, and holds the value of the
      last pair with that key. */
  lemma {:induction false} QueryLastWins(pairs: seq<string>, decode: Decoder, key: string)
    ensures key in Query(pairs, decode) <==> exists i | 0 <= i < |pairs| :: decode(KeyOf(pairs[i])) == key
    ensures forall i | 0 <= i < |pairs| && decode(KeyOf(pairs[i])) == key &&
        (forall j | i < j < |pairs| :: decode(KeyOf(pairs[j])) != key) ::
      Query(pairs, decode)[key] == decode(ValueOf(pairs[i]))
    decreases |pairs|
  {
    if pairs != [] {
      var init := pairs[..|pairs| - 1];
      QueryLastWins(init, decode, key);
      assert forall i | 0 <= i < |init| :: init[i] == pairs[i];
    }
  }

  /** `parseQuery("a=b=c")` maps `a` to `b=c`, given a decoder that leaves plain text alone. */
  lemma {:induction false} ExampleRejoinsValue(decode: Decoder)
    requires decode("a") == "a" && decode("b=c") == "b=c"
    ensures Query(Split(WithoutQuestion("?a=b=c"), '&'), decode) == map["a" := "b=c"]
  {
    var q := "a=b=c";
    assert WithoutQuestion("?a=b=c") == q;
    assert q == "a" + "=" + "b=c";
    assert '&' !in q;
    SplitWithoutSeparator(q, '&');
    PairMeaning("a", "b=c");
    assert [q][..0] == [];
    assert Query([q], decode) == Query([], decode)[decode(KeyOf(q)) := decode(ValueOf(q))];
  }

  // ---------------------------------------------------------------------------
  // set: and pool: expansion
  // ---------------------------------------------------------------------------

  /** `parts.join(sep)` for a string separator. */
  function JoinWith(parts: seq<string>, sep: string): string
    decreases |parts|
  {
    if parts == [] then ""
    else if |parts| == 1 then parts[0]
    else parts[0] + sep + JoinWith(parts[1..], sep)
  }

  /** The text a `set:N` or `pool:N` match is replaced by, given the ids of the set or pool. */
  function IdList(ids: seq<string>): string {
    if |ids| > 0 then "( id:" + JoinWith(ids, " ~ id:") + " )" else ""
  }

  /** The `id:` terms of an id list, separated by ` ~ `. */
  function Terms(ids: seq<string>): string
    decreases |ids|
  {
    if ids == [] then ""
    else if |ids| == 1 then "id:" + ids[0]
    else "id:" + ids[0] + " ~ " + Terms(ids[1..])
  }

  lemma {:induction false} JoinIsTerms(ids: seq<string>)
    requires |ids| > 0
    ensures "id:" + JoinWith(ids, " ~ id:") == Terms(ids)
    decreases |ids|
  {
    if |ids| > 1 {
      JoinIsTerms(ids[1..]);
      assert "id:" + JoinWith(ids, " ~ id:") == "id:" + ids[0] + " ~ " + ("id:" + JoinWith(ids[1..], " ~ id:"));
    }
  }

  /** An id list is one parenthesised `~`-group of `id:` terms, one per id in
      order; an empty set or pool expands to nothing. */
  lemma {:induction false} IdListMeaning(ids: seq<string>)
    ensures |ids| == 0 ==> IdList(ids) == ""
    ensures |ids| > 0 ==> IdList(ids) == "( " + Terms(ids) + " )"
  {
    if |ids| > 0 {
      JoinIsTerms(ids);
      assert "( id:" + JoinWith(ids, " ~ id:") == "( " + ("id:" + JoinWith(ids, " ~ id:"));
    }
  }

  // ---------------------------------------------------------------------------
  // The search cursor
  // ---------------------------------------------------------------------------

  /** The global `searchData`: whether a search is loading, the last expanded
      search text, and the `searchAfter` cursor for the next page. */
  class SearchData {
    var loading: bool
    var searchText: string
    var searchAfter: Option<string>

    constructor()
      ensures !loading && searchText == "" && searchAfter == None
    {
      loading := false;
      searchText := "";
      searchAfter := None;
    }

    /** The start of `executeSearch` once the text is expanded: the cursor is
        dropped whenever the text differs from the stored one, and the text is stored. */
    method BeginSearch(expanded: string)
      modifies this
      ensures loading && searchText == expanded
      ensures searchAfter == if old(searchText) != expanded then None else old(searchAfter)
    {
      loading := true;
      if searchText != expanded {
        searchAfter := None;
      }
      searchText := expanded;
    }
  }

  // ---------------------------------------------------------------------------
  // Post status
  // ---------------------------------------------------------------------------

  /** The fields of a search result `createPost` looks at. */
  datatype PostFlags = PostFlags(isDeleted: bool, isFlagged: bool, isPending: bool,
                                 parentId: Option<int>, childCount: nat)

  datatype Status = Active | Deleted | Flagged | Pending

  /** The preview's status: deleted wins over flagged, flagged over pending. */
  function StatusOf(p: PostFlags): (r: Status)
    ensures r == Deleted <==> p.isDeleted
    ensures r == Flagged <==> !p.isDeleted && p.isFlagged
    ensures r == Pending <==> !p.isDeleted && !p.isFlagged && p.isPending
    ensures r == Active <==> !p.isDeleted && !p.isFlagged && !p.isPending
  {
    if p.isDeleted then Deleted
    else if p.isFlagged then Flagged
    else if p.isPending then Pending
    else Active
  }

  /** `post.parentId` is truthy: present and not 0. */
  predicate HasParent(p: PostFlags) {
    p.parentId.Some? && p.parentId.value != 0
  }

  /** The position of a flag letter in `PCUF`. */
  function Rank(c: char): int {
    if c == 'P' then 0 else if c == 'C' then 1 else if c == 'U' then 2 else if c == 'F' then 3 else 4
  }

  /** `statusFlags.join("")`: P for a parent, C for children, U for pending, F
      for flagged, each at most once and in that order. */
  method StatusFlags(p: PostFlags) returns (flags: string)
    ensures 'P' in flags <==> HasParent(p)
    ensures 'C' in flags <==> p.childCount > 0
    ensures 'U' in flags <==> p.isPending
    ensures 'F' in flags <==> p.isFlagged
    ensures forall i | 0 <= i < |flags| :: Rank(flags[i]) < 4
    ensures forall i, j | 0 <= i < j < |flags| :: Rank(flags[i]) < Rank(flags[j])
  {
    // Each entry of `statusFlags` is one letter, so `join("")` is the letters in order.
    flags := [];
    if HasParent(p) {
      flags := flags + ['P'];
    }
    if p.childCount > 0 {
      flags := flags + ['C'];
    }
    if p.isPending {
      flags := flags + ['U'];
    }
    if p.isFlagged {
      flags := flags + ['F'];
    }
  }
}
