/** The source-check work queue (src/sourceChecker/SourceCheckerManager.js):
    which posts are eligible, how the in-memory queue and the `sourceChecker`
    collection are updated when posts arrive, pruning by age, and how the
    reports of the registered checkers are merged. */
module SourceQueue {
  import opened Common
  import opened CheckData

  /** A registered site checker: `supportsSource`, and `processPost` given the
      queued post and the data of its stored record. */
  datatype Checker = Checker(supports: string -> bool,
                             process: (Entry, Option<map<string, Report>>) -> map<string, Report>)

  /** A post as the indexer hands it over. */
  datatype Post = Post(id: int, isPending: bool, isDeleted: bool, sources: seq<string>, createdAt: int,
                       width: int, height: int, fileType: string, fileSize: int, md5: string)

  /** A document of the `posts` collection as `getPost` reads it back: it is keyed
      by `_id` and has no `id` field. */
  datatype PostDoc = PostDoc(isPending: bool, isDeleted: bool, sources: seq<string>, createdAt: int,
                             width: int, height: int, fileType: string, fileSize: int, md5: string)

  /** `getPost(id)`: `findOne({ _id: id })` on the posts collection. */
  function GetPost(posts: map<int, PostDoc>, id: int): Option<PostDoc> {
    if id in posts then Some(posts[id]) else None
  }

  /** The post `checkFor` hands to `queuePosts`, keyed by the document's `_id`. */
  function WithId(id: int, d: PostDoc): Post {
    Post(id, d.isPending, d.isDeleted, d.sources, d.createdAt, d.width, d.height, d.fileType, d.fileSize, d.md5)
  }

  /** The `toQueue` object built from a post. */
  function ToQueue(p: Post): Entry {
    Entry(p.id, p.createdAt, p.sources, p.width, p.height, p.fileType, p.fileSize, p.md5)
  }

  /** A document of the `sourceChecker` collection: the queued fields, `checked`, and `data` when present. */
  datatype Stored = Stored(entry: Entry, checked: bool, data: Option<map<string, Report>>)

  // ---------------------------------------------------------------------------
  // Eligibility
  // ---------------------------------------------------------------------------

  /** `isSupportedSource`: some registered checker supports the source. */
  predicate Supported(checkers: seq<Checker>, source: string) {
    exists j | 0 <= j < |checkers| :: checkers[j].supports(source)
  }

  /** `hasAnySupportedSources`: some source is supported by some checker. */
  predicate AnySupported(checkers: seq<Checker>, sources: seq<string>) {
    exists i | 0 <= i < |sources| :: Supported(checkers, sources[i])
  }

  /** The posts `queuePosts` works on: pending, not deleted, with a supported source. */
  predicate Eligible(checkers: seq<Checker>, p: Post) {
    p.isPending && !p.isDeleted && |p.sources| != 0 && AnySupported(checkers, p.sources)
  }

  /** Every supported source of the post already has data in its stored record. */
  predicate AllChecked(checkers: seq<Checker>, p: Post, rec: Stored) {
    forall i | 0 <= i < |p.sources| ::
      !Supported(checkers, p.sources[i]) || (rec.data.Some? && p.sources[i] in rec.data.value)
  }

  // ---------------------------------------------------------------------------
  // Queue edits
  // ---------------------------------------------------------------------------

  /** `queue.findIndex(p => p._id == id)`. */
  function FindIndex(queue: seq<Entry>, id: int): (r: int)
    ensures -1 <= r < |queue|
    ensures r == -1 <==> forall i | 0 <= i < |queue| :: queue[i].id != id
    ensures r != -1 ==> queue[r].id == id && forall i | 0 <= i < r :: queue[i].id != id
    decreases |queue|
  {
    if queue == [] then -1
    else if queue[0].id == id then 0
    else
      var r := FindIndex(queue[1..], id);
      assert forall i | 1 <= i < |queue| :: queue[i] == queue[1..][i - 1];
      if r == -1 then -1 else r + 1
  }

  /** No two queue entries share an id. */
  ghost predicate DistinctIds(queue: seq<Entry>) {
    forall i, j | 0 <= i < j < |queue| :: queue[i].id != queue[j].id
  }

  /** The splice that drops the first entry with the id, if any. */
  function RemoveFirst(queue: seq<Entry>, id: int): seq<Entry> {
    var i := FindIndex(queue, id);
    if i == -1 then queue else queue[..i] + queue[i + 1..]
  }

  /** Replace-at-index when an entry has the id, push otherwise. */
  function ReplaceOrAppend(queue: seq<Entry>, e: Entry): seq<Entry> {
    var i := FindIndex(queue, e.id);
    if i == -1 then queue + [e] else queue[i := e]
  }

  /** Dropping the entry at `i` keeps the other entries in order. */
  lemma {:induction false} RemoveAtMeaning(queue: seq<Entry>, i: nat)
    requires i < |queue|
    ensures var r := queue[..i] + queue[i + 1..];
      |r| == |queue| - 1 &&
      forall k | 0 <= k < |r| :: r[k] == if k < i then queue[k] else queue[k + 1]
  {
  }

  lemma {:induction false} RemoveAtDistinct(queue: seq<Entry>, i: nat)
    requires i < |queue| && DistinctIds(queue)
    ensures DistinctIds(queue[..i] + queue[i + 1..])
  {
    var r := queue[..i] + queue[i + 1..];
    RemoveAtMeaning(queue, i);
    forall a, b | 0 <= a < b < |r|
      ensures r[a].id != r[b].id
    {
      var a' := if a < i then a else a + 1;
      var b' := if b < i then b else b + 1;
      assert r[a] == queue[a'] && r[b] == queue[b'] && a' < b';
    }
  }

  lemma {:induction false} RemoveAtMembers(queue: seq<Entry>, i: nat)
    requires i < |queue| && DistinctIds(queue)
    ensures var r := queue[..i] + queue[i + 1..];
      (forall e | e in r :: e in queue && e.id != queue[i].id) &&
      (forall e | e in queue && e.id != queue[i].id :: e in r)
  {
    var r := queue[..i] + queue[i + 1..];
    RemoveAtMeaning(queue, i);
    forall e | e in r
      ensures e in queue && e.id != queue[i].id
    {
      var k :| 0 <= k < |r| && r[k] == e;
      var k' := if k < i then k else k + 1;
      assert r[k] == queue[k'] && k' != i;
    }
    forall e | e in queue && e.id != queue[i].id
      ensures e in r
    {
      var k :| 0 <= k < |queue| && queue[k] == e;
      if k < i { assert r[k] == e; } else { assert k != i && r[k - 1] == e; }
    }
  }

  /** On a queue without repeated ids, removing an id drops exactly the entry
      with that id and keeps the others in order. */
  lemma {:induction false} RemoveFirstMeaning(queue: seq<Entry>, id: int)
    requires DistinctIds(queue)
    ensures var r := RemoveFirst(queue, id);
      DistinctIds(r) && (forall e | e in r :: e.id != id) &&
      (forall e | e in queue && e.id != id :: e in r) && (forall e | e in r :: e in queue)
  {
    var i := FindIndex(queue, id);
    if i != -1 {
      RemoveAtDistinct(queue, i);
      RemoveAtMembers(queue, i);
    }
  }

  /** On a queue without repeated ids, the new entry takes the place of the one
      with its id, or goes to the end; all other entries stay where they were,
      and ids stay distinct. */
  lemma {:induction false} ReplaceOrAppendMeaning(queue: seq<Entry>, e: Entry)
    requires DistinctIds(queue)
    ensures var r := ReplaceOrAppend(queue, e);
      DistinctIds(r) && e in r &&
      (forall k | 0 <= k < |r| && r[k].id == e.id :: r[k] == e) &&
      (FindIndex(queue, e.id) == -1 ==> r == queue + [e]) &&
      (FindIndex(queue, e.id) != -1 ==>
        |r| == |queue| && r[FindIndex(queue, e.id)] == e &&
        forall k | 0 <= k < |queue| && k != FindIndex(queue, e.id) :: r[k] == queue[k])
  {
    var i := FindIndex(queue, e.id);
    var r := ReplaceOrAppend(queue, e);
    if i == -1 {
      assert r[|queue|] == e;
      assert forall k | 0 <= k < |queue| :: r[k] == queue[k];
    } else {
      assert r[i] == e;
      forall k | 0 <= k < |r| && k != i
        ensures r[k].id != e.id
      {
        assert r[k] == queue[k];
      }
    }
  }

  // ---------------------------------------------------------------------------
  // queuePosts
  // ---------------------------------------------------------------------------

  /** Where the loop of `queuePosts` stands: the queue, the collection, and the
      `postsToQueue` gathered so far. */
  datatype Batch = Batch(queue: seq<Entry>, store: map<int, Stored>, toQueue: seq<Entry>)

  /** One post of the loop: an ineligible post leaves the queue; a recorded post
      is skipped when all its sources are checked, and otherwise is marked
      unchecked (with its current sources) and replaces or joins its queue
      entry; an unrecorded post waits in `postsToQueue`. */
  function Step(checkers: seq<Checker>, b: Batch, p: Post): Batch {
    if !Eligible(checkers, p) then Batch(RemoveFirst(b.queue, p.id), b.store, b.toQueue)
    else if p.id in b.store then
      var rec := b.store[p.id];
      if AllChecked(checkers, p, rec) then b
      else
        var store := if rec.checked then b.store[p.id := Stored(rec.entry.(sources := p.sources), false, rec.data)]
                     else b.store;
        Batch(ReplaceOrAppend(b.queue, ToQueue(p)), store, b.toQueue)
    else Batch(b.queue, b.store, b.toQueue + [ToQueue(p)])
  }

  function Steps(checkers: seq<Checker>, b: Batch, posts: seq<Post>): Batch
    decreases |posts|
  {
    if posts == [] then b else Step(checkers, Steps(checkers, b, posts[..|posts| - 1]), posts[|posts| - 1])
  }

  /** `insertMany`: each entry becomes an unchecked document without data. */
  function Insert(store: map<int, Stored>, entries: seq<Entry>): map<int, Stored>
    decreases |entries|
  {
    if entries == [] then store
    else
      var e := entries[|entries| - 1];
      Insert(store, entries[..|entries| - 1])[e.id := Stored(e, false, None)]
  }

  /** The entries for the eligible posts that `store` has no record of, in input order. */
  function Fresh(checkers: seq<Checker>, store: set<int>, posts: seq<Post>): seq<Entry>
    decreases |posts|
  {
    if posts == [] then []
    else
      var p := posts[|posts| - 1];
      Fresh(checkers, store, posts[..|posts| - 1]) +
        (if Eligible(checkers, p) && p.id !in store then [ToQueue(p)] else [])
  }

  /** The loop never adds documents to the collection, and gathers exactly
      the eligible unrecorded posts in input order; on a queue without
      repeated ids, the queue keeps distinct ids. */
  lemma {:induction false} StepsMeaning(checkers: seq<Checker>, b: Batch, posts: seq<Post>)
    ensures var r := Steps(checkers, b, posts);
      r.store.Keys == b.store.Keys && r.toQueue == b.toQueue + Fresh(checkers, b.store.Keys, posts) &&
      (DistinctIds(b.queue) ==> DistinctIds(r.queue))
    decreases |posts|
  {
    if posts != [] {
      var init := posts[..|posts| - 1];
      var p := posts[|posts| - 1];
      StepsMeaning(checkers, b, init);
      var m := Steps(checkers, b, init);
      if DistinctIds(b.queue) {
        if !Eligible(checkers, p) {
          RemoveFirstMeaning(m.queue, p.id);
        } else if p.id in m.store {
          ReplaceOrAppendMeaning(m.queue, ToQueue(p));
        }
      }
    }
  }

  /** An ineligible post leaves no entry with its id in a queue without
      repeated ids, and changes neither the collection nor `postsToQueue`. */
  lemma {:induction false} IneligibleRemoved(checkers: seq<Checker>, b: Batch, p: Post)
    requires !Eligible(checkers, p) && DistinctIds(b.queue)
    ensures var r := Step(checkers, b, p);
      (forall e | e in r.queue :: e.id != p.id) && r.store == b.store && r.toQueue == b.toQueue
  {
    RemoveFirstMeaning(b.queue, p.id);
  }

  /** What `queuePosts` leaves: the edited queue followed by the new entries,
      and the collection with those entries inserted. */
  function Enqueued(checkers: seq<Checker>, queue: seq<Entry>, store: map<int, Stored>, posts: seq<Post>): Batch {
    var b := Steps(checkers, Batch(queue, store, []), posts);
    Batch(b.queue + b.toQueue, Insert(b.store, b.toQueue), [])
  }

  // ---------------------------------------------------------------------------
  // Merging reports
  // ---------------------------------------------------------------------------

  /** The stored data overridden, checker by checker, by each checker's report map. */
  function Combined(base: map<string, Report>, reports: seq<map<string, Report>>): map<string, Report>
    decreases |reports|
  {
    if reports == [] then base else Combined(base, reports[..|reports| - 1]) + reports[|reports| - 1]
  }

  /** The record's data as a checker sees it after the `earlier` reports were
      merged: when the record has data, `combinedData` is that very object, so
      the merge writes into it; without data the merge goes to a fresh object. */
  function Seen(current: Option<map<string, Report>>, earlier: seq<map<string, Report>>): Option<map<string, Report>> {
    if current.Some? then Some(Combined(current.value, earlier)) else None
  }

  /** The report maps of the checkers, in registration order, each checker
      handed the record as the checkers before it left it. */
  function Reports(checkers: seq<Checker>, post: Entry, current: Option<map<string, Report>>): (r: seq<map<string, Report>>)
    ensures |r| == |checkers|
    decreases |checkers|
  {
    if checkers == [] then []
    else
      var init := Reports(checkers[..|checkers| - 1], post, current);
      init + [checkers[|checkers| - 1].process(post, Seen(current, init))]
  }

  /** Checker j's report is its answer for the record as checkers 0 to j - 1 left it. */
  lemma {:induction false} ReportAt(checkers: seq<Checker>, post: Entry, current: Option<map<string, Report>>, j: nat)
    requires j < |checkers|
    ensures var r := Reports(checkers, post, current);
      r[j] == checkers[j].process(post, Seen(current, r[..j]))
    decreases |checkers|
  {
    var r := Reports(checkers, post, current);
    var n := |checkers| - 1;
    var init := Reports(checkers[..n], post, current);
    assert r[..n] == init;
    if j < n {
      ReportAt(checkers[..n], post, current, j);
      assert r[..j] == init[..j] && checkers[..n][j] == checkers[j];
    }
  }

  /** Checker j is handed the record's data overwritten by the reports of
      checkers 0 to j - 1, so it sees every source they reported; a record
      without data is handed over without data to every checker. */
  lemma {:induction false} ReportsSeeEarlier(checkers: seq<Checker>, post: Entry, current: Option<map<string, Report>>)
    ensures var r := Reports(checkers, post, current);
      forall j | 0 <= j < |checkers| :: r[j] == checkers[j].process(post, Seen(current, r[..j]))
    ensures var r := Reports(checkers, post, current);
      forall j, i, k | 0 <= i < j < |checkers| && k in r[i] ::
        current.Some? ==> k in Seen(current, r[..j]).value
    ensures current.None? ==> forall j | 0 <= j <= |checkers| :: Seen(current, Reports(checkers, post, current)[..j]) == None
  {
    var r := Reports(checkers, post, current);
    forall j | 0 <= j < |checkers|
      ensures r[j] == checkers[j].process(post, Seen(current, r[..j]))
    {
      ReportAt(checkers, post, current, j);
    }
    if current.Some? {
      forall j, i, k | 0 <= i < j < |checkers| && k in r[i]
        ensures k in Seen(current, r[..j]).value
      {
        CombinedMeaning(current.value, r[..j], k);
        assert r[..j][i] == r[i];
      }
    }
  }

  /** The stored data of a post, when its record has any. */
  function StoredData(store: map<int, Stored>, id: int): Option<map<string, Report>> {
    if id in store then store[id].data else None
  }

  /** A key of the merged data holds the value of the last checker that
      reported it, or the stored value when none did. */
  lemma {:induction false} CombinedMeaning(base: map<string, Report>, reports: seq<map<string, Report>>, k: string)
    ensures k in Combined(base, reports) <==> k in base || exists j | 0 <= j < |reports| :: k in reports[j]
    ensures forall j | 0 <= j < |reports| && k in reports[j] && (forall l | j < l < |reports| :: k !in reports[l]) ::
      Combined(base, reports)[k] == reports[j][k]
    ensures (forall j | 0 <= j < |reports| :: k !in reports[j]) && k in base ==> Combined(base, reports)[k] == base[k]
    decreases |reports|
  {
    if reports != [] {
      var init := reports[..|reports| - 1];
      CombinedMeaning(base, init, k);
      assert forall j | 0 <= j < |init| :: init[j] == reports[j];
    }
  }

  /** The prune cutoff: 30 days in milliseconds. */
  const PruneAge: int := 2592000000

  /** The queue entries younger than the cutoff, in order. */
  function Recent(queue: seq<Entry>, pruneDate: int): seq<Entry>
    decreases |queue|
  {
    if queue == [] then []
    else (if queue[0].createdAt > pruneDate then [queue[0]] else []) + Recent(queue[1..], pruneDate)
  }

  /** The entries kept are exactly those created after the cutoff. */
  lemma {:induction false} RecentMembers(queue: seq<Entry>, pruneDate: int)
    ensures forall e :: e in Recent(queue, pruneDate) <==> e in queue && e.createdAt > pruneDate
    decreases |queue|
  {
    if queue != [] {
      RecentMembers(queue[1..], pruneDate);
      assert queue == [queue[0]] + queue[1..];
    }
  }

  /** One backward step of the prune loop: keeping or dropping entry `i`. */
  lemma {:induction false} PruneStep(q: seq<Entry>, i: nat, pruneDate: int)
    requires i < |q|
    ensures q[..i] + Recent(q[i..], pruneDate) ==
      if q[i].createdAt <= pruneDate then q[..i] + Recent(q[i + 1..], pruneDate)
      else q[..i + 1] + Recent(q[i + 1..], pruneDate)
  {
    assert q[i..][1..] == q[i + 1..];
    assert q[..i + 1] == q[..i] + [q[i]];
  }

  /** The answer of `checkFor`. */
  datatype Verdict = NotIndexed | NotPending | Unsupported | Queued | Data(data: map<string, Report>)

  /** `checkFor`'s decision: the stored data when there is any, and otherwise,
      in this order, not indexed, not pending, unsupported, or queued. */
  function Decide(checkers: seq<Checker>, rec: Option<Stored>, post: Option<PostDoc>): Verdict {
    if rec.Some? && rec.value.data.Some? then Data(rec.value.data.value)
    else if post.None? then NotIndexed
    else if !post.value.isPending then NotPending
    else if post.value.isDeleted || |post.value.sources| == 0 || !AnySupported(checkers, post.value.sources)
    then Unsupported
    else Queued
  }

  /** A post that is reported as queued is in the queue afterwards, whether it
      was there already or `queuePosts` puts it there, and so a second `checkFor`
      finds it and does not queue it again. */
  lemma {:induction false} QueuedIsQueued(checkers: seq<Checker>, queue: seq<Entry>, store: map<int, Stored>,
                                          id: int, d: PostDoc)
    requires Decide(checkers, if id in store then Some(store[id]) else None, Some(d)) == Queued
    ensures exists e | e in Enqueued(checkers, queue, store, [WithId(id, d)]).queue :: e.id == id
    ensures FindIndex(Enqueued(checkers, queue, store, [WithId(id, d)]).queue, id) != -1
  {
    var p := WithId(id, d);
    var b := Batch(queue, store, []);
    assert [p][..0] == [];
    assert Steps(checkers, b, [p]) == Step(checkers, b, p);
    var s := Step(checkers, b, p);
    var q := Enqueued(checkers, queue, store, [p]).queue;
    if p.id in store {
      var k :| 0 <= k < |p.sources| && Supported(checkers, p.sources[k]);
      assert !AllChecked(checkers, p, store[p.id]);
      var r := ReplaceOrAppend(queue, ToQueue(p));
      assert s.queue == r && s.toQueue == [];
      assert r + [] == r;
      var i := FindIndex(queue, p.id);
      if i == -1 { assert q[|queue|] == ToQueue(p); } else { assert q[i] == ToQueue(p); }
    } else {
      assert q == queue + [ToQueue(p)];
      assert q[|queue|] == ToQueue(p);
    }
  }

  // ---------------------------------------------------------------------------
  // The hand-over of `checkFor` as written: the posts document goes to
  // `queuePosts`, which keys the queue entry by `post.id`.

  /** An `_id` field of a queue entry as JavaScript holds it. */
  datatype Key = Undefined | Num(n: int)

  /** `post.id` on a posts document: the document has no `id` field. */
  function IdField(d: PostDoc): Key {
    Undefined
  }

  /** The `_id` fields of the queue after `checkFor(id)` as written, for an
      eligible post that has no record: `findIndex(p => p._id == id)` looks for
      the number, and `queuePosts` appends an entry keyed by `post.id`. */
  function CheckForKeysAsWritten(keys: seq<Key>, id: int, d: PostDoc): seq<Key> {
    if Num(id) in keys then keys else keys + [IdField(d)]
  }

  /** As written, the queued entry never carries the post's id, so a second
      `checkFor` for the same post queues it once more. */
  lemma {:induction false} RequeuedAsWritten(keys: seq<Key>, id: int, d: PostDoc)
    requires Num(id) !in keys
    ensures var once := CheckForKeysAsWritten(keys, id, d);
      Num(id) !in once && CheckForKeysAsWritten(once, id, d) == keys + [Undefined, Undefined]
  {
    var once := CheckForKeysAsWritten(keys, id, d);
    assert once == keys + [Undefined];
    assert Num(id) !in once;
    assert once + [Undefined] == keys + [Undefined, Undefined];
  }

  // ---------------------------------------------------------------------------
  // The manager
  // ---------------------------------------------------------------------------

  class Manager {
    /** `sourceCheckers`, in registration order. */
    var checkers: seq<Checker>
    /** The in-memory work queue. */
    var queue: seq<Entry>
    /** The `sourceChecker` collection, by `_id`. */
    var store: map<int, Stored>

    constructor(checkers: seq<Checker>, store: map<int, Stored>)
      ensures this.checkers == checkers && queue == [] && this.store == store
    {
      this.checkers := checkers;
      queue := [];
      this.store := store;
    }

    /** `isSupportedSource`. */
    method IsSupportedSource(source: string) returns (b: bool)
      ensures b <==> Supported(checkers, source)
    {
      var j := 0;
      while j < |checkers|
        invariant 0 <= j <= |checkers|
        invariant forall l | 0 <= l < j :: !checkers[l].supports(source)
      {
        if checkers[j].supports(source) {
          return true;
        }
        j := j + 1;
      }
      return false;
    }

    /** `hasAnySupportedSources`: the nested search over sources and checkers. */
    method HasAnySupportedSources(sources: seq<string>) returns (b: bool)
      ensures b <==> AnySupported(checkers, sources)
    {
      var i := 0;
      while i < |sources|
        invariant 0 <= i <= |sources|
        invariant forall k | 0 <= k < i :: !Supported(checkers, sources[k])
      {
        var j := 0;
        while j < |checkers|
          invariant 0 <= j <= |checkers|
          invariant forall l | 0 <= l < j :: !checkers[l].supports(sources[i])
        {
          if checkers[j].supports(sources[i]) {
            return true;
          }
          j := j + 1;
        }
        i := i + 1;
      }
      return false;
    }

    /** `post.sources.every(s => !isSupportedSource(s) || current.data?.[s] != null)`. */
    method AllSourcesChecked(p: Post, rec: Stored) returns (b: bool)
      ensures b <==> AllChecked(checkers, p, rec)
    {
      var i := 0;
      while i < |p.sources|
        invariant 0 <= i <= |p.sources|
        invariant forall k | 0 <= k < i ::
          !Supported(checkers, p.sources[k]) || (rec.data.Some? && p.sources[k] in rec.data.value)
      {
        var supported := IsSupportedSource(p.sources[i]);
        if supported && !(rec.data.Some? && p.sources[i] in rec.data.value) {
          return false;
        }
        i := i + 1;
      }
      return true;
    }

    /** `pruneRoutine`: deletes the documents and drops the queue entries
        created at or before 30 days before `now`, walking the queue backwards
        with `splice`. */
    method Prune(now: int)
      modifies this
      ensures checkers == old(checkers)
      ensures queue == Recent(old(queue), now - PruneAge)
      ensures store == map id | id in old(store) && old(store)[id].entry.createdAt > now - PruneAge :: old(store)[id]
    {
      var pruneDate := now - PruneAge;
      store := map id | id in store && store[id].entry.createdAt > pruneDate :: store[id];
      ghost var pruned := store;
      ghost var q := queue;
      var i := |queue|;
      while i >= 0
        invariant -1 <= i <= |q|
        invariant checkers == old(checkers) && store == pruned
        invariant var n := if i < |q| then i + 1 else |q|;
          queue == q[..n] + Recent(q[n..], pruneDate)
        decreases i
      {
        if i < |q| {
          PruneStep(q, i, pruneDate);
          assert queue == q[..i + 1] + Recent(q[i + 1..], pruneDate);
          assert queue[i] == q[i];
          assert queue[..i] == q[..i] && queue[i + 1..] == Recent(q[i + 1..], pruneDate);
        } else {
          assert queue == q[..|q|] + Recent([], pruneDate);
        }
        if i < |queue| && queue[i].createdAt <= pruneDate {
          queue := queue[..i] + queue[i + 1..];
        }
        i := i - 1;
      }
      assert q[..0] == [] && q[0..] == q;
    }

    /** The body of the loop of `queuePosts` for one post. */
    method QueuePost(post: Post, postsToQueue: seq<Entry>) returns (toQueueAfter: seq<Entry>)
      modifies this
      ensures checkers == old(checkers)
      ensures Batch(queue, store, toQueueAfter) == Step(checkers, Batch(old(queue), old(store), postsToQueue), post)
    {
      toQueueAfter := postsToQueue;
      var supported := HasAnySupportedSources(post.sources);
      if !post.isPending || post.isDeleted || |post.sources| == 0 || !supported {
        var index := FindIndex(queue, post.id);
        if index != -1 {
          queue := queue[..index] + queue[index + 1..];
        }
      } else if post.id in store {
        var current := store[post.id];
        var allSourcesChecked := AllSourcesChecked(post, current);
        if !allSourcesChecked {
          if current.checked {
            store := store[post.id := Stored(current.entry.(sources := post.sources), false, current.data)];
          }
          var toQueue := ToQueue(post);
          var index := FindIndex(queue, post.id);
          if index != -1 {
            queue := queue[index := toQueue];
          } else {
            queue := queue + [toQueue];
          }
        }
      } else {
        toQueueAfter := postsToQueue + [ToQueue(post)];
      }
    }

    /** `queuePosts`: updates the queue and the collection post by post, then
        inserts and appends the posts that had no record. */
    method QueuePosts(posts: seq<Post>)
      modifies this
      ensures checkers == old(checkers)
      ensures var r := Enqueued(checkers, old(queue), old(store), posts);
        queue == r.queue && store == r.store
    {
      var postsToQueue: seq<Entry> := [];
      var i := 0;
      while i < |posts|
        invariant 0 <= i <= |posts|
        invariant checkers == old(checkers)
        invariant Steps(checkers, Batch(old(queue), old(store), []), posts[..i]) == Batch(queue, store, postsToQueue)
      {
        assert posts[..i + 1][..i] == posts[..i];
        postsToQueue := QueuePost(posts[i], postsToQueue);
        i := i + 1;
      }
      assert posts[..i] == posts;
      var k := 0;
      ghost var before := store;
      ghost var edited := queue;
      while k < |postsToQueue|
        invariant 0 <= k <= |postsToQueue|
        invariant checkers == old(checkers) && queue == edited
        invariant store == Insert(before, postsToQueue[..k])
      {
        assert postsToQueue[..k + 1][..k] == postsToQueue[..k];
        var e := postsToQueue[k];
        store := store[e.id := Stored(e, false, None)];
        k := k + 1;
      }
      assert postsToQueue[..k] == postsToQueue;
      queue := queue + postsToQueue;
    }

    /** The inner loop of `processPost`: `combinedData[key] = value` for every entry of `data`. */
    static method Overlay(combined: map<string, Report>, data: map<string, Report>) returns (r: map<string, Report>)
      ensures r == combined + data
    {
      r := combined;
      var keys := data.Keys;
      while keys != {}
        invariant keys <= data.Keys
        invariant r == combined + map k | k in data.Keys - keys :: data[k]
        decreases keys
      {
        var key :| key in keys;
        r := r[key := data[key]];
        keys := keys - {key};
      }
      assert data == map k | k in data.Keys - keys :: data[k];
    }

    /** `processPost`: the stored data, overridden by each checker's report
        map in registration order, where each checker is handed the record
        with the data merged so far. */
    method ProcessPost(post: Entry) returns (combined: map<string, Report>)
      ensures var current := StoredData(store, post.id);
        combined == Combined(current.GetOr(map[]), Reports(checkers, post, current))
    {
      var current := StoredData(store, post.id);
      combined := current.GetOr(map[]);
      ghost var reports := Reports(checkers, post, current);
      var j := 0;
      while j < |checkers|
        invariant 0 <= j <= |checkers|
        invariant combined == Combined(current.GetOr(map[]), reports[..j])
      {
        assert reports[..j + 1][..j] == reports[..j];
        // Each checker is handed `current`, whose data is `combinedData` once the record has data.
        var seen := if current.Some? then Some(combined) else None;
        assert seen == Seen(current, reports[..j]);
        ReportAt(checkers, post, current, j);
        var data := checkers[j].process(post, seen);
        combined := Overlay(combined, data);
        j := j + 1;
      }
      assert reports[..j] == reports;
    }

    /** One turn of `queueRoutine`: the first queued post is taken off the
        queue, and its record is marked checked with the merged data (`updateOne`
        changes nothing when the record is gone). */
    method ProcessNext()
      modifies this
      ensures checkers == old(checkers)
      ensures old(queue) == [] ==> queue == [] && store == old(store)
      ensures old(queue) != [] ==>
        var post := old(queue)[0];
        var current := StoredData(old(store), post.id);
        var data := Combined(current.GetOr(map[]), Reports(checkers, post, current));
        queue == old(queue)[1..] &&
        store == if post.id in old(store) then old(store)[post.id := old(store)[post.id].(checked := true, data := Some(data))]
                 else old(store)
    {
      if queue == [] {
        return;
      }
      var post := queue[0];
      queue := queue[1..];
      var data := ProcessPost(post);
      if post.id in store {
        store := store[post.id := store[post.id].(checked := true, data := Some(data))];
      }
    }

    /** `checkFor`: the stored data, or the decision for an unrecorded post; a
        post reported as queued is queued when not already in the queue. The
        post read from `posts` is handed to `queuePosts` keyed by its `_id`
        (the hand-over as written keys it by the absent `id`; see
        `RequeuedAsWritten`). */
    method CheckFor(id: int, posts: map<int, PostDoc>) returns (r: Verdict)
      modifies this
      ensures checkers == old(checkers)
      ensures r == Decide(checkers, if id in old(store) then Some(old(store)[id]) else None, GetPost(posts, id))
      ensures r == Queued && FindIndex(old(queue), id) == -1 ==>
        var e := Enqueued(checkers, old(queue), old(store), [WithId(id, posts[id])]);
        queue == e.queue && store == e.store
      ensures !(r == Queued && FindIndex(old(queue), id) == -1) ==> queue == old(queue) && store == old(store)
      ensures r == Queued ==> exists e | e in queue :: e.id == id
    {
      if !(id in store && store[id].data.Some?) {
        var post := GetPost(posts, id);
        if post.None? {
          return NotIndexed;
        }
        if !post.value.isPending {
          return NotPending;
        }
        var supported := HasAnySupportedSources(post.value.sources);
        if post.value.isDeleted || |post.value.sources| == 0 || !supported {
          return Unsupported;
        }
        if FindIndex(queue, id) == -1 {
          QueuedIsQueued(checkers, queue, store, id, post.value);
          QueuePosts([WithId(id, post.value)]);
        }
        return Queued;
      }
      return Data(store[id].data.value);
    }
  }
}
