/** The batch reconciliation of the database exports (`processTagExport`,
    `processPostExport`, `processTagAliasExport`): incoming rows are grouped into
    batches, and each batch is compared with the stored documents the database
    returns for its ids, giving a list of bulk writes. */
module ExportDiff {
  import opened Common
  import opened PostRecords

  /** One entry of a `bulkWrite`. An insert carries the id of its document, or `None`
      for a document without one. */
  datatype Write<D> = UpdateOne(id: int, doc: D) | InsertOne(key: Option<int>, doc: D) | DeleteOne(id: int)

  function WriteKey<D>(w: Write<D>): Option<int> {
    match w
    case UpdateOne(id, _) => Some(id)
    case InsertOne(key, _) => key
    case DeleteOne(id) => Some(id)
  }

  /** The writes that concern the document with that id, in order. */
  function WritesFor<D>(ws: seq<Write<D>>, id: int): (r: seq<Write<D>>)
    ensures |r| <= |ws|
  {
    if ws == [] then []
    else (if WriteKey(ws[0]) == Some(id) then [ws[0]] else []) + WritesFor(ws[1..], id)
  }

  lemma {:induction false} WritesForAppend<D>(a: seq<Write<D>>, b: seq<Write<D>>, id: int)
    ensures WritesFor(a + b, id) == WritesFor(a, id) + WritesFor(b, id)
  {
    if a == [] {
      assert a + b == b;
    } else {
      var head := if WriteKey(a[0]) == Some(id) then [a[0]] else [];
      assert (a + b)[0] == a[0];
      assert (a + b)[1..] == a[1..] + b;
      assert WritesFor(a + b, id) == head + WritesFor(a[1..] + b, id);
      WritesForAppend(a[1..], b, id);
      assert WritesFor(a, id) == head + WritesFor(a[1..], id);
    }
  }

  /** Writes that all concern one id are kept whole by `WritesFor` for that id and
      dropped entirely for any other. */
  lemma {:induction false} WritesForUniform<D>(ws: seq<Write<D>>, key: int, id: int)
    requires forall k :: 0 <= k < |ws| ==> WriteKey(ws[k]) == Some(key)
    ensures WritesFor(ws, id) == if key == id then ws else []
  {
    if ws != [] {
      WritesForUniform(ws[1..], key, id);
    }
  }

  // ---------------------------------------------------------------------------
  // Taking a row out of the batch: `rows.splice(rows.findIndex(r => r.id == id), 1)[0]`.

  /** The index of the first row with that id, or the length when there is none. */
  function FirstKey<R>(rows: seq<R>, keyOf: R -> int, id: int): (k: nat)
    ensures k <= |rows|
    ensures k < |rows| ==> keyOf(rows[k]) == id
    ensures forall j :: 0 <= j < k ==> keyOf(rows[j]) != id
  {
    if rows == [] then 0
    else if keyOf(rows[0]) == id then 0
    else 1 + FirstKey(rows[1..], keyOf, id)
  }

  function Without<R>(rows: seq<R>, k: nat): (r: seq<R>)
    requires k < |rows|
    ensures |r| == |rows| - 1
  {
    rows[..k] + rows[k + 1..]
  }

  /** Removing one row keeps every other, shifted down past the removed slot. */
  lemma {:induction false} WithoutAt<R>(rows: seq<R>, k: nat, j: nat)
    requires k < |rows| && j < |rows| && j != k
    ensures var r := Without(rows, k);
      if j < k then r[j] == rows[j] else r[j - 1] == rows[j]
  {
  }

  predicate HasKey<R>(rows: seq<R>, keyOf: R -> int, id: int) {
    exists k :: 0 <= k < |rows| && keyOf(rows[k]) == id
  }

  predicate DistinctKeys<R>(rows: seq<R>, keyOf: R -> int) {
    forall a, b :: 0 <= a < b < |rows| ==> keyOf(rows[a]) != keyOf(rows[b])
  }

  /** Each cursor id is stored and names a row of the batch, once. */
  predicate CursorFound<R, S>(cursor: seq<int>, stored: map<int, S>, rows: seq<R>, keyOf: R -> int) {
    (forall a, b :: 0 <= a < b < |cursor| ==> cursor[a] != cursor[b])
    && (forall j :: 0 <= j < |cursor| ==> cursor[j] in stored && HasKey(rows, keyOf, cursor[j]))
  }

  /** What the database returns for a batch: each stored id among the batch's ids
      exactly once, in some order. */
  predicate CursorFor<R, S>(cursor: seq<int>, stored: map<int, S>, rows: seq<R>, keyOf: R -> int) {
    CursorFound(cursor, stored, rows, keyOf)
    && (forall k :: 0 <= k < |rows| && keyOf(rows[k]) in stored ==> keyOf(rows[k]) in cursor)
  }

  /** Each decision only writes to the document of the row it is about. */
  ghost predicate KeepsToRow<R(!new), S(!new), D>(keyOf: R -> int, onStored: (S, R) -> seq<Write<D>>, onNew: R -> seq<Write<D>>) {
    (forall s, r, k :: 0 <= k < |onStored(s, r)| ==> WriteKey(onStored(s, r)[k]) == Some(keyOf(r)))
    && (forall r, k :: 0 <= k < |onNew(r)| ==> WriteKey(onNew(r)[k]) == Some(keyOf(r)))
  }

  // ---------------------------------------------------------------------------
  // The shape shared by the three `update` closures.

  /** The writes for the remaining (unstored) rows, in batch order. */
  function NewWrites<R, D>(rows: seq<R>, onNew: R -> seq<Write<D>>): seq<Write<D>> {
    if rows == [] then [] else onNew(rows[0]) + NewWrites(rows[1..], onNew)
  }

  /** Walks the cursor: each stored document takes its row out of the batch and
      decides with `onStored`; what is left of the batch is decided with `onNew`. */
  function DiffFrom<R, S, D>(stored: map<int, S>, cursor: seq<int>, pending: seq<R>, keyOf: R -> int,
                             onStored: (S, R) -> seq<Write<D>>, onNew: R -> seq<Write<D>>): seq<Write<D>>
    decreases |cursor|
  {
    if cursor == [] then NewWrites(pending, onNew)
    else
      var k := FirstKey(pending, keyOf, cursor[0]);
      if k == |pending| || cursor[0] !in stored then DiffFrom(stored, cursor[1..], pending, keyOf, onStored, onNew)
      else onStored(stored[cursor[0]], pending[k])
           + DiffFrom(stored, cursor[1..], Without(pending, k), keyOf, onStored, onNew)
  }

  lemma {:induction false} NewWritesFor<R(!new), D>(rows: seq<R>, keyOf: R -> int, onNew: R -> seq<Write<D>>, id: int)
    requires forall r, k :: 0 <= k < |onNew(r)| ==> WriteKey(onNew(r)[k]) == Some(keyOf(r))
    requires DistinctKeys(rows, keyOf)
    ensures WritesFor(NewWrites(rows, onNew), id)
      == if HasKey(rows, keyOf, id) then onNew(rows[FirstKey(rows, keyOf, id)]) else []
  {
    if rows != [] {
      var tail := rows[1..];
      assert DistinctKeys(tail, keyOf) by {
        forall a, b | 0 <= a < b < |tail|
          ensures keyOf(tail[a]) != keyOf(tail[b])
        {
          assert tail[a] == rows[a + 1] && tail[b] == rows[b + 1];
        }
      }
      NewWritesFor(tail, keyOf, onNew, id);
      WritesForAppend(onNew(rows[0]), NewWrites(tail, onNew), id);
      WritesForUniform(onNew(rows[0]), keyOf(rows[0]), id);
      if keyOf(rows[0]) == id {
        assert !HasKey(tail, keyOf, id) by {
          forall k | 0 <= k < |tail|
            ensures keyOf(tail[k]) != id
          {
            assert tail[k] == rows[k + 1];
          }
        }
      } else {
        assert HasKey(rows, keyOf, id) <==> HasKey(tail, keyOf, id) by {
          if HasKey(rows, keyOf, id) {
            var k :| 0 <= k < |rows| && keyOf(rows[k]) == id;
            assert keyOf(tail[k - 1]) == id;
          }
          if HasKey(tail, keyOf, id) {
            var k :| 0 <= k < |tail| && keyOf(tail[k]) == id;
            assert keyOf(rows[k + 1]) == id;
          }
        }
      }
    }
  }

  /** The slots of the batch after removing slot k. */
  lemma {:induction false} WithoutIndex<R>(rows: seq<R>, k: nat)
    requires k < |rows|
    ensures forall j :: 0 <= j < |rows| - 1 ==> Without(rows, k)[j] == rows[if j < k then j else j + 1]
  {
  }

  /** Removing the row at k keeps exactly the other rows' ids, and it keeps them
      distinct. */
  lemma {:induction false} WithoutKeys<R>(rows: seq<R>, keyOf: R -> int, k: nat)
    requires k < |rows| && DistinctKeys(rows, keyOf)
    ensures var rest := Without(rows, k);
      DistinctKeys(rest, keyOf) && !HasKey(rest, keyOf, keyOf(rows[k]))
      && forall id :: id != keyOf(rows[k]) ==> (HasKey(rest, keyOf, id) <==> HasKey(rows, keyOf, id))
  {
    var rest := Without(rows, k);
    WithoutIndex(rows, k);
    forall id | id != keyOf(rows[k])
      ensures HasKey(rest, keyOf, id) <==> HasKey(rows, keyOf, id)
    {
      if HasKey(rows, keyOf, id) {
        var j :| 0 <= j < |rows| && keyOf(rows[j]) == id;
        assert keyOf(rest[if j < k then j else j - 1]) == id;
      }
      if HasKey(rest, keyOf, id) {
        var j :| 0 <= j < |rest| && keyOf(rest[j]) == id;
        assert keyOf(rows[if j < k then j else j + 1]) == id;
      }
    }
    assert !HasKey(rest, keyOf, keyOf(rows[k])) by {
      forall j | 0 <= j < |rest|
        ensures keyOf(rest[j]) != keyOf(rows[k])
      {
        var m := if j < k then j else j + 1;
        assert m != k && keyOf(rows[m]) != keyOf(rows[k]);
      }
    }
    forall a, b | 0 <= a < b < |rest|
      ensures keyOf(rest[a]) != keyOf(rest[b])
    {
      var ma := if a < k then a else a + 1;
      var mb := if b < k then b else b + 1;
      assert ma < mb;
    }
  }

  lemma {:induction false} WithoutHas<R>(rows: seq<R>, keyOf: R -> int, k: nat, id: int)
    requires k < |rows| && id != keyOf(rows[k]) && HasKey(rows, keyOf, id)
    ensures HasKey(Without(rows, k), keyOf, id)
  {
    var j :| 0 <= j < |rows| && keyOf(rows[j]) == id;
    WithoutAt(rows, k, j);
    assert keyOf(Without(rows, k)[if j < k then j else j - 1]) == id;
  }

  /** The row of `cursor[0]` is found, and the rest of the cursor still names rows of
      what is left. */
  lemma {:induction false} TakeFound<R, S>(stored: map<int, S>, cursor: seq<int>, pending: seq<R>, keyOf: R -> int)
    requires cursor != [] && CursorFound(cursor, stored, pending, keyOf)
    ensures FirstKey(pending, keyOf, cursor[0]) < |pending|
    ensures CursorFound(cursor[1..], stored, Without(pending, FirstKey(pending, keyOf, cursor[0])), keyOf)
  {
    var k := FirstKey(pending, keyOf, cursor[0]);
    assert HasKey(pending, keyOf, cursor[0]);
    var k0 :| 0 <= k0 < |pending| && keyOf(pending[k0]) == cursor[0];
    assert k <= k0;
    var c := cursor[1..];
    forall j | 0 <= j < |c|
      ensures c[j] in stored && HasKey(Without(pending, k), keyOf, c[j])
    {
      assert c[j] == cursor[j + 1] != cursor[0];
      WithoutHas(pending, keyOf, k, c[j]);
    }
  }

  /** The facts about the batch that survive taking out the row of `cursor[0]`. */
  lemma {:induction false} TakeStep<R, S>(stored: map<int, S>, cursor: seq<int>, pending: seq<R>, keyOf: R -> int)
    requires cursor != [] && CursorFor(cursor, stored, pending, keyOf) && DistinctKeys(pending, keyOf)
    ensures FirstKey(pending, keyOf, cursor[0]) < |pending|
    ensures var rest := Without(pending, FirstKey(pending, keyOf, cursor[0]));
      CursorFor(cursor[1..], stored, rest, keyOf) && DistinctKeys(rest, keyOf)
      && !HasKey(rest, keyOf, cursor[0])
      && forall id :: id != cursor[0] ==> (HasKey(rest, keyOf, id) <==> HasKey(pending, keyOf, id))
  {
    TakeFound(stored, cursor, pending, keyOf);
    var k := FirstKey(pending, keyOf, cursor[0]);
    var rest := Without(pending, k);
    WithoutKeys(pending, keyOf, k);
    var c := cursor[1..];
    WithoutIndex(pending, k);
    forall j | 0 <= j < |rest| && keyOf(rest[j]) in stored
      ensures keyOf(rest[j]) in c
    {
      var m := if j < k then j else j + 1;
      assert keyOf(pending[m]) in cursor;
      assert keyOf(pending[m]) != cursor[0];
    }
  }

  /** With no row and no cursor entry for an id, nothing is written for it. */
  lemma {:induction false} DiffAbsent<R(!new), S(!new), D>(stored: map<int, S>, cursor: seq<int>, pending: seq<R>, keyOf: R -> int,
                                              onStored: (S, R) -> seq<Write<D>>, onNew: R -> seq<Write<D>>, id: int)
    requires KeepsToRow(keyOf, onStored, onNew) && CursorFor(cursor, stored, pending, keyOf)
    requires DistinctKeys(pending, keyOf) && !HasKey(pending, keyOf, id) && id !in cursor
    ensures WritesFor(DiffFrom(stored, cursor, pending, keyOf, onStored, onNew), id) == []
    decreases |cursor|
  {
    if cursor == [] {
      NewWritesFor(pending, keyOf, onNew, id);
    } else {
      TakeStep(stored, cursor, pending, keyOf);
      var k := FirstKey(pending, keyOf, cursor[0]);
      var head := onStored(stored[cursor[0]], pending[k]);
      var rest := Without(pending, k);
      DiffAbsent(stored, cursor[1..], rest, keyOf, onStored, onNew, id);
      WritesForAppend(head, DiffFrom(stored, cursor[1..], rest, keyOf, onStored, onNew), id);
      WritesForUniform(head, cursor[0], id);
    }
  }

  /** One step of the cursor walk, when the first cursor id's row is found. */
  lemma {:induction false} DiffStep<R, S, D>(stored: map<int, S>, cursor: seq<int>, pending: seq<R>, keyOf: R -> int,
                          onStored: (S, R) -> seq<Write<D>>, onNew: R -> seq<Write<D>>)
    requires cursor != [] && cursor[0] in stored && FirstKey(pending, keyOf, cursor[0]) < |pending|
    ensures var k := FirstKey(pending, keyOf, cursor[0]);
      DiffFrom(stored, cursor, pending, keyOf, onStored, onNew)
        == onStored(stored[cursor[0]], pending[k])
           + DiffFrom(stored, cursor[1..], Without(pending, k), keyOf, onStored, onNew)
  {
  }

  /** The row of the first cursor id: its own decision, and nothing later. */
  lemma {:induction false} DiffForRowHere<R(!new), S(!new), D>(stored: map<int, S>, cursor: seq<int>, pending: seq<R>, keyOf: R -> int,
                                           onStored: (S, R) -> seq<Write<D>>, onNew: R -> seq<Write<D>>, i: nat)
    requires KeepsToRow(keyOf, onStored, onNew) && CursorFor(cursor, stored, pending, keyOf)
    requires DistinctKeys(pending, keyOf) && i < |pending| && cursor != [] && cursor[0] == keyOf(pending[i])
    ensures WritesFor(DiffFrom(stored, cursor, pending, keyOf, onStored, onNew), cursor[0])
      == onStored(stored[cursor[0]], pending[i])
  {
    var id := cursor[0];
    TakeStep(stored, cursor, pending, keyOf);
    var k := FirstKey(pending, keyOf, id);
    assert k == i;
    var head := onStored(stored[id], pending[k]);
    var rest := Without(pending, k);
    DiffStep(stored, cursor, pending, keyOf, onStored, onNew);
    WritesForAppend(head, DiffFrom(stored, cursor[1..], rest, keyOf, onStored, onNew), id);
    WritesForUniform(head, id, id);
    assert id !in cursor[1..] by {
      forall j | 1 <= j < |cursor|
        ensures cursor[j] != cursor[0]
      {
      }
    }
    DiffAbsent(stored, cursor[1..], rest, keyOf, onStored, onNew, id);
    assert head + [] == head;
  }

  /** For a batch with distinct ids, the writes concerning a row's id are exactly that
      row's own decision: `onStored` against its stored document when there is one,
      `onNew` otherwise. Nothing else in the batch writes to it. */
  lemma {:induction false} DiffForRow<R(!new), S(!new), D>(stored: map<int, S>, cursor: seq<int>, pending: seq<R>, keyOf: R -> int,
                                              onStored: (S, R) -> seq<Write<D>>, onNew: R -> seq<Write<D>>, i: nat)
    requires KeepsToRow(keyOf, onStored, onNew) && CursorFor(cursor, stored, pending, keyOf)
    requires DistinctKeys(pending, keyOf) && i < |pending|
    ensures var r := pending[i];
      WritesFor(DiffFrom(stored, cursor, pending, keyOf, onStored, onNew), keyOf(r))
        == if keyOf(r) in stored then onStored(stored[keyOf(r)], r) else onNew(r)
    decreases |cursor|
  {
    var id := keyOf(pending[i]);
    if cursor == [] {
      NewWritesFor(pending, keyOf, onNew, id);
      assert FirstKey(pending, keyOf, id) == i;
    } else if cursor[0] == id {
      DiffForRowHere(stored, cursor, pending, keyOf, onStored, onNew, i);
    } else {
      TakeStep(stored, cursor, pending, keyOf);
      var k := FirstKey(pending, keyOf, cursor[0]);
      var head := onStored(stored[cursor[0]], pending[k]);
      var rest := Without(pending, k);
      DiffStep(stored, cursor, pending, keyOf, onStored, onNew);
      WritesForAppend(head, DiffFrom(stored, cursor[1..], rest, keyOf, onStored, onNew), id);
      WritesForUniform(head, cursor[0], id);
      var i' := if i < k then i else i - 1;
      WithoutAt(pending, k, i);
      DiffForRow(stored, cursor[1..], rest, keyOf, onStored, onNew, i');
    }
  }

  // ---------------------------------------------------------------------------
  // Grouping the stream into batches.

  /** A batch is flushed when it already holds more than this many rows. */
  const FlushAbove: nat := 10000

  /** The read loop: a row is pushed onto the current batch (when `keep` accepts it)
      after the batch has been flushed if it held more than 10000 rows; what remains is
      flushed at the end. */
  method Batches<R>(rows: seq<R>, keep: R -> bool) returns (batches: seq<seq<R>>)
    ensures Concat(batches) == Kept(rows, keep)
    ensures forall k :: 0 <= k < |batches| ==> batches[k] != []
    ensures forall k :: 0 <= k < |batches| ==> |batches[k]| <= FlushAbove + 1
    ensures forall k :: 0 <= k < |batches| - 1 ==> |batches[k]| == FlushAbove + 1
  {
    batches := [];
    var current: seq<R> := [];
    for i := 0 to |rows|
      invariant Concat(batches) + current == Kept(rows[..i], keep)
      invariant |current| <= FlushAbove + 1
      invariant forall k :: 0 <= k < |batches| ==> |batches[k]| == FlushAbove + 1
    {
      KeptSnoc(rows, keep, i);
      batches, current := Feed(batches, current, rows[i], keep(rows[i]));
    }
    assert rows[..|rows|] == rows;
    if |current| > 0 {
      ConcatAppend(batches, current);
      batches := batches + [current];
    }
  }

  /** One row of the read loop: a full batch is flushed first, then the row is
      added to the current batch when it is kept. */
  method Feed<R>(batches: seq<seq<R>>, current: seq<R>, row: R, kept: bool)
    returns (batches': seq<seq<R>>, current': seq<R>)
    requires |current| <= FlushAbove + 1
    requires forall k :: 0 <= k < |batches| ==> |batches[k]| == FlushAbove + 1
    ensures Concat(batches') + current' == Concat(batches) + current + (if kept then [row] else [])
    ensures |current'| <= FlushAbove + 1
    ensures forall k :: 0 <= k < |batches'| ==> |batches'[k]| == FlushAbove + 1
  {
    batches', current' := batches, current;
    if |current| > FlushAbove {
      ConcatAppend(batches, current);
      batches', current' := batches + [current], [];
    }
    if kept {
      assert (Concat(batches') + current') + [row] == Concat(batches') + (current' + [row]);
      current' := current' + [row];
    }
  }

  /** The rows the read loop keeps, in order. */
  function Kept<R>(rows: seq<R>, keep: R -> bool): (r: seq<R>)
    ensures |r| <= |rows|
  {
    if rows == [] then [] else Kept(rows[..|rows| - 1], keep) + (if keep(rows[|rows| - 1]) then [rows[|rows| - 1]] else [])
  }

  lemma {:induction false} KeptSnoc<R>(rows: seq<R>, keep: R -> bool, i: nat)
    requires i < |rows|
    ensures Kept(rows[..i + 1], keep) == Kept(rows[..i], keep) + (if keep(rows[i]) then [rows[i]] else [])
  {
    assert rows[..i + 1][..i] == rows[..i];
  }

  // ---------------------------------------------------------------------------
  // The `update` closure loop.

  /** The body of an `update` closure: for each stored document the cursor yields, the
      row with its id is spliced out of the batch and decided on; the rows left are
      decided on as new, in batch order. */
  method Reconcile<R, S, D>(stored: map<int, S>, cursor: seq<int>, rows: seq<R>, keyOf: R -> int,
                            onStored: (S, R) -> seq<Write<D>>, onNew: R -> seq<Write<D>>)
    returns (bulk: seq<Write<D>>)
    requires CursorFor(cursor, stored, rows, keyOf)
    ensures bulk == DiffFrom(stored, cursor, rows, keyOf, onStored, onNew)
  {
    bulk := [];
    var pending := rows;
    for j := 0 to |cursor|
      invariant CursorFound(cursor[j..], stored, pending, keyOf)
      invariant bulk + DiffFrom(stored, cursor[j..], pending, keyOf, onStored, onNew)
             == DiffFrom(stored, cursor, rows, keyOf, onStored, onNew)
    {
      var id := cursor[j];
      TakeFound(stored, cursor[j..], pending, keyOf);
      assert cursor[j..][1..] == cursor[j + 1..];
      var k := FirstKey(pending, keyOf, id);
      var row := pending[k];
      pending := Without(pending, k);
      bulk := bulk + onStored(stored[id], row);
    }
    var tail := pending;
    while tail != []
      invariant bulk + NewWrites(tail, onNew) == DiffFrom(stored, cursor, rows, keyOf, onStored, onNew)
    {
      bulk := bulk + onNew(tail[0]);
      tail := tail[1..];
    }
  }

  // ---------------------------------------------------------------------------
  // `processTagExport`.

  function TagKey(t: Tag): int {
    t.id
  }

  /** A stored tag whose name and category are unchanged is skipped; otherwise its name
      and category are set from the row. */
  function TagOnStored(stored: Tag, row: Tag): seq<Write<Tag>> {
    if stored.category == row.category && stored.name == row.name then []
    else [UpdateOne(row.id, row)]
  }

  function TagOnNew(row: Tag): seq<Write<Tag>> {
    [InsertOne(Some(row.id), row)]
  }

  /** For a batch of tags with distinct ids: no write for a stored tag with the same
      name and category, one update for a stored tag that changed, one insert for a tag
      not stored. */
  lemma {:induction false} TagRowWrites(stored: map<int, Tag>, cursor: seq<int>, rows: seq<Tag>, i: nat)
    requires CursorFor(cursor, stored, rows, TagKey) && DistinctKeys(rows, TagKey) && i < |rows|
    ensures var r := rows[i];
      WritesFor(DiffFrom(stored, cursor, rows, TagKey, TagOnStored, TagOnNew), r.id)
        == if r.id !in stored then [InsertOne(Some(r.id), r)]
           else if stored[r.id].name == r.name && stored[r.id].category == r.category then []
           else [UpdateOne(r.id, r)]
  {
    DiffForRow(stored, cursor, rows, TagKey, TagOnStored, TagOnNew, i);
  }

  // ---------------------------------------------------------------------------
  // `processPostExport`.

  /** A post write's document: the `$set` of every field but the id, a whole post, or
      the empty document an unresolved promise is stored as. */
  datatype PostDoc = Fields(post: Post) | Whole(post: Post) | Unresolved

  function PostKey(p: Post): int {
    p.id
  }

  /** A stored post with the same `updatedAt` is skipped; otherwise it is overwritten
      with the row's fields. */
  function PostOnStored(stored: Post, row: Post): seq<Write<PostDoc>> {
    if row.updatedAt == stored.updatedAt then [] else [UpdateOne(row.id, Fields(row))]
  }

  function PostOnNew(row: Post): seq<Write<PostDoc>> {
    [InsertOne(Some(row.id), Whole(row))]
  }

  /** The writes of one batch of resolved posts. */
  function PostBatchWrites(stored: map<int, Post>, cursor: seq<int>, rows: seq<Post>): seq<Write<PostDoc>> {
    DiffFrom(stored, cursor, rows, PostKey, PostOnStored, PostOnNew)
  }

  /** For a batch of posts with distinct ids: no write for a stored post with the same
      `updatedAt`, one update for one that changed, one insert for one not stored. */
  lemma {:induction false} PostRowWrites(stored: map<int, Post>, cursor: seq<int>, rows: seq<Post>, i: nat)
    requires CursorFor(cursor, stored, rows, PostKey) && DistinctKeys(rows, PostKey) && i < |rows|
    ensures var r := rows[i];
      WritesFor(PostBatchWrites(stored, cursor, rows), r.id)
        == if r.id !in stored then [InsertOne(Some(r.id), Whole(r))]
           else if stored[r.id].updatedAt == r.updatedAt then []
           else [UpdateOne(r.id, Fields(r))]
  {
    DiffForRow(stored, cursor, rows, PostKey, PostOnStored, PostOnNew, i);
  }

  /** The export rows with a truthy id (`if (!data.id) continue`): the test is on
      the raw column text, which is falsy only when empty, so a row whose id is
      `"0"` is kept (and parsed to 0). */
  predicate HasPostId(rawId: string) {
    rawId != ""
  }

  /** Only a row with an empty id column is skipped: `"0"` passes the test. */
  lemma ZeroIdRowKept()
    ensures HasPostId("0") && !HasPostId("")
  {
  }

  /** What `update` does with a row that is still a promise: its id is undefined, so
      no stored document matches, and the promise is inserted as an empty document. */
  function PromiseInsert(p: Post): seq<Write<PostDoc>> {
    [InsertOne(None, Unresolved)]
  }

  /** The last batch as written: the rows are still promises, so the cursor for their
      undefined ids is empty and every row goes to the insert loop. */
  function FinalPostBatchAsWritten(rows: seq<Post>): seq<Write<PostDoc>> {
    DiffFrom(map[], [], rows, PostKey, PostOnStored, PromiseInsert)
  }

  /** As written, the last batch is one empty-document insert per row, whatever is
      stored. */
  lemma {:induction false} FinalPostBatchInserts(rows: seq<Post>)
    ensures FinalPostBatchAsWritten(rows) == seq(|rows|, k => InsertOne(None, Unresolved))
  {
    if rows != [] {
      FinalPostBatchInserts(rows[1..]);
      assert FinalPostBatchAsWritten(rows) == [InsertOne(None, Unresolved)] + FinalPostBatchAsWritten(rows[1..]);
    }
  }

  /** A post already stored with the same `updatedAt` gets no write in a resolved
      batch, but an empty-document insert in the final batch as written. */
  lemma {:induction false} FinalPostBatchDiffers(p: Post)
    ensures FinalPostBatchAsWritten([p]) == [InsertOne(None, Unresolved)]
    ensures PostBatchWrites(map[p.id := p], [p.id], [p]) == []
  {
    FinalPostBatchInserts([p]);
    var stored := map[p.id := p];
    assert FirstKey([p], PostKey, p.id) == 0;
    DiffStep(stored, [p.id], [p], PostKey, PostOnStored, PostOnNew);
    assert Without([p], 0) == [];
    assert [p.id][1..] == [];
  }

  // ---------------------------------------------------------------------------
  // `processTagAliasExport`.

  /** An export row, and the document written. */
  datatype AliasRow = AliasRow(id: int, antecedentName: string, consequentName: string, status: string)
  datatype AliasDoc = AliasDoc(antecedentName: string, consequentId: int)

  function AliasKey(r: AliasRow): int {
    r.id
  }

  /** `usedTags` as the closure starts: the stored tags the batch's consequents name. */
  function UsedTags(tags: map<string, Tag>, rows: seq<AliasRow>): map<string, Tag> {
    map n | n in tags && (exists k :: 0 <= k < |rows| && rows[k].consequentName == n) :: tags[n]
  }

  /** `usedTags`, and the tags `getNewTag` fetched and stored along the way. */
  datatype AliasState = AliasState(used: map<string, Tag>, added: seq<Tag>)

  /** The consequent lookup: the first used tag with that name, else `getNewTag`, whose
      tag is remembered. `None` stands for an undefined name, which no tag has and
      which the upstream receives as the text "undefined". */
  function Resolve(st: AliasState, upstream: string -> Option<Tag>, name: Option<string>): (Option<Tag>, AliasState) {
    if name.Some? && name.value in st.used then (Some(st.used[name.value]), st)
    else
      var t := upstream(if name.Some? then name.value else "undefined");
      match t
      case None => (None, st)
      case Some(tag) =>
        (t, AliasState(if tag.name in st.used then st.used else st.used[tag.name := tag], st.added + [tag]))
  }

  /** A stored alias: an inactive row deletes it; an active one is rewritten unless its
      antecedent and consequent id are unchanged, and is left alone when the
      consequent cannot be obtained. `asWritten` resolves the consequent the way the
      code does, through the stored document's (absent) `consequent_name`. */
  function AliasStoredStep(st: AliasState, upstream: string -> Option<Tag>, s: StoredAlias, r: AliasRow,
                           asWritten: bool): (seq<Write<AliasDoc>>, AliasState) {
    if r.status != "active" then ([DeleteOne(r.id)], st)
    else
      var (t, st') := Resolve(st, upstream, if asWritten then None else Some(r.consequentName));
      if t.None? then ([], st')
      else if s.antecedentName == r.antecedentName && s.consequentId == t.value.id then ([], st')
      else ([UpdateOne(r.id, AliasDoc(r.antecedentName, t.value.id))], st')
  }

  /** A new alias: inserted when active and its consequent can be obtained. */
  function AliasNewStep(st: AliasState, upstream: string -> Option<Tag>, r: AliasRow): (seq<Write<AliasDoc>>, AliasState) {
    if r.status != "active" then ([], st)
    else
      var (t, st') := Resolve(st, upstream, Some(r.consequentName));
      if t.None? then ([], st') else ([InsertOne(Some(r.id), AliasDoc(r.antecedentName, t.value.id))], st')
  }

  function NewAliasWrites(rows: seq<AliasRow>, st: AliasState, upstream: string -> Option<Tag>): (seq<Write<AliasDoc>>, AliasState) {
    if rows == [] then ([], st)
    else
      var (w, st') := AliasNewStep(st, upstream, rows[0]);
      var (ws, st'') := NewAliasWrites(rows[1..], st', upstream);
      (w + ws, st'')
  }

  /** The alias closure's walk, threading `usedTags`. */
  function AliasDiffFrom(stored: map<int, StoredAlias>, cursor: seq<int>, pending: seq<AliasRow>, st: AliasState,
                         upstream: string -> Option<Tag>, asWritten: bool): (seq<Write<AliasDoc>>, AliasState)
    decreases |cursor|
  {
    if cursor == [] then NewAliasWrites(pending, st, upstream)
    else
      var k := FirstKey(pending, AliasKey, cursor[0]);
      if k == |pending| || cursor[0] !in stored then AliasDiffFrom(stored, cursor[1..], pending, st, upstream, asWritten)
      else
        var (w, st') := AliasStoredStep(st, upstream, stored[cursor[0]], pending[k], asWritten);
        var (ws, st'') := AliasDiffFrom(stored, cursor[1..], Without(pending, k), st', upstream, asWritten);
        (w + ws, st'')
  }

  /** The writes of one alias batch, as the code resolves consequents. */
  function AliasBatchAsWritten(stored: map<int, StoredAlias>, cursor: seq<int>, rows: seq<AliasRow>,
                               tags: map<string, Tag>, upstream: string -> Option<Tag>): seq<Write<AliasDoc>> {
    AliasDiffFrom(stored, cursor, rows, AliasState(UsedTags(tags, rows), []), upstream, true).0
  }

  /** The writes of one alias batch, each consequent resolved from its incoming row. */
  function AliasBatchWrites(stored: map<int, StoredAlias>, cursor: seq<int>, rows: seq<AliasRow>,
                            tags: map<string, Tag>, upstream: string -> Option<Tag>): seq<Write<AliasDoc>> {
    AliasDiffFrom(stored, cursor, rows, AliasState(UsedTags(tags, rows), []), upstream, false).0
  }

  /** One stored alias the cursor visits: its row is taken out of the pending rows
      and the stored alias is diffed against it. */
  method AliasVisit(stored: map<int, StoredAlias>, cursor: seq<int>, j: nat, pending: seq<AliasRow>,
                    st: AliasState, upstream: string -> Option<Tag>)
    returns (w: seq<Write<AliasDoc>>, pending': seq<AliasRow>, st': AliasState)
    requires j < |cursor| && CursorFound(cursor[j..], stored, pending, AliasKey)
    ensures CursorFound(cursor[j + 1..], stored, pending', AliasKey)
    ensures var rest := AliasDiffFrom(stored, cursor[j + 1..], pending', st', upstream, false);
      AliasDiffFrom(stored, cursor[j..], pending, st, upstream, false) == (w + rest.0, rest.1)
  {
    var id := cursor[j];
    TakeFound(stored, cursor[j..], pending, AliasKey);
    assert cursor[j..][1..] == cursor[j + 1..];
    var k := FirstKey(pending, AliasKey, id);
    pending' := Without(pending, k);
    var step := AliasStoredStep(st, upstream, stored[id], pending[k], false);
    w, st' := step.0, step.1;
  }

  /** The alias `update` closure, with each consequent looked up by the incoming row's
      name. Returns the bulk writes and the tags stored on the way. */
  method AliasUpdate(stored: map<int, StoredAlias>, cursor: seq<int>, rows: seq<AliasRow>,
                     tags: map<string, Tag>, upstream: string -> Option<Tag>)
    returns (bulk: seq<Write<AliasDoc>>, added: seq<Tag>)
    requires CursorFor(cursor, stored, rows, AliasKey)
    ensures bulk == AliasBatchWrites(stored, cursor, rows, tags, upstream)
    ensures added == AliasDiffFrom(stored, cursor, rows, AliasState(UsedTags(tags, rows), []), upstream, false).1.added
  {
    var st := AliasState(UsedTags(tags, rows), []);
    ghost var goal := AliasDiffFrom(stored, cursor, rows, st, upstream, false);
    bulk := [];
    var pending := rows;
    assert cursor[0..] == cursor;
    assert [] + goal.0 == goal.0;
    for j := 0 to |cursor|
      invariant CursorFound(cursor[j..], stored, pending, AliasKey)
      invariant bulk + AliasDiffFrom(stored, cursor[j..], pending, st, upstream, false).0 == goal.0
      invariant AliasDiffFrom(stored, cursor[j..], pending, st, upstream, false).1 == goal.1
    {
      var w;
      w, pending, st := AliasVisit(stored, cursor, j, pending, st, upstream);
      ghost var rest := AliasDiffFrom(stored, cursor[j + 1..], pending, st, upstream, false);
      assert (bulk + w) + rest.0 == bulk + (w + rest.0);
      bulk := bulk + w;
    }
    var tail := pending;
    assert cursor[|cursor|..] == [];
    while tail != []
      invariant bulk + NewAliasWrites(tail, st, upstream).0 == goal.0
      invariant NewAliasWrites(tail, st, upstream).1 == goal.1
    {
      var step := AliasNewStep(st, upstream, tail[0]);
      bulk, st := bulk + step.0, step.1;
      tail := tail[1..];
    }
    assert bulk + [] == bulk;
    added := st.added;
  }

  /** A stored alias `a -> 5` and an active row `a -> c`, with `c` a used tag of id 9:
      as written, the consequent is looked up under an undefined name, the lookup
      fails and the alias stays at 5; resolved from the row it is updated to 9. */
  lemma {:induction false} StaleAliasAsWritten(upstream: string -> Option<Tag>)
    requires upstream("undefined") == None
    ensures var stored := map[1 := StoredAlias("a", 5)];
      var rows := [AliasRow(1, "a", "c", "active")];
      var tags := map["c" := Tag(9, "c", 0)];
      AliasBatchAsWritten(stored, [1], rows, tags, upstream) == []
      && AliasBatchWrites(stored, [1], rows, tags, upstream) == [UpdateOne(1, AliasDoc("a", 9))]
  {
    var stored := map[1 := StoredAlias("a", 5)];
    var rows := [AliasRow(1, "a", "c", "active")];
    var tags := map["c" := Tag(9, "c", 0)];
    assert rows[0].consequentName == "c";
    assert UsedTags(tags, rows) == tags;
    assert FirstKey(rows, AliasKey, 1) == 0;
    assert Without(rows, 0) == [];
    assert [1][1..] == [];
  }

  /** Every tag remembered while the closure runs is either one it started with or the
      upstream answer for its own name. */
  ghost predicate ResolvedBy(st: AliasState, used0: map<string, Tag>, upstream: string -> Option<Tag>) {
    used0.Keys <= st.used.Keys
    && forall n :: n in st.used ==>
         if n in used0 then st.used[n] == used0[n] else upstream(n) == Some(st.used[n])
  }

  predicate NamedFor(upstream: string -> Option<Tag>, rows: seq<AliasRow>) {
    forall k :: 0 <= k < |rows| ==> UpstreamNamed(upstream, rows[k].consequentName)
  }

  /** When the upstream answers with the tag asked for, remembering tags changes no
      later answer: each lookup gives what it would give from the starting state. */
  lemma {:induction false} ResolveStable(st: AliasState, used0: map<string, Tag>, upstream: string -> Option<Tag>, n: string)
    requires ResolvedBy(st, used0, upstream) && UpstreamNamed(upstream, n)
    ensures Resolve(st, upstream, Some(n)).0 == Resolve(AliasState(used0, []), upstream, Some(n)).0
    ensures ResolvedBy(Resolve(st, upstream, Some(n)).1, used0, upstream)
  {
  }

  /** The per-row decisions taken from the starting state. */
  function StableOnStored(used0: map<string, Tag>, upstream: string -> Option<Tag>): (StoredAlias, AliasRow) -> seq<Write<AliasDoc>> {
    (s: StoredAlias, r: AliasRow) => AliasStoredStep(AliasState(used0, []), upstream, s, r, false).0
  }

  function StableOnNew(used0: map<string, Tag>, upstream: string -> Option<Tag>): AliasRow -> seq<Write<AliasDoc>> {
    (r: AliasRow) => AliasNewStep(AliasState(used0, []), upstream, r).0
  }

  lemma {:induction false} NewAliasStable(rows: seq<AliasRow>, st: AliasState, used0: map<string, Tag>, upstream: string -> Option<Tag>)
    requires ResolvedBy(st, used0, upstream) && NamedFor(upstream, rows)
    ensures NewAliasWrites(rows, st, upstream).0 == NewWrites(rows, StableOnNew(used0, upstream))
  {
    if rows != [] {
      var r := rows[0];
      assert UpstreamNamed(upstream, r.consequentName);
      var st' := AliasNewStep(st, upstream, r).1;
      if r.status == "active" {
        ResolveStable(st, used0, upstream, r.consequentName);
      }
      assert NamedFor(upstream, rows[1..]) by {
        forall k | 0 <= k < |rows[1..]|
          ensures UpstreamNamed(upstream, rows[1..][k].consequentName)
        {
          assert rows[1..][k] == rows[k + 1];
        }
      }
      NewAliasStable(rows[1..], st', used0, upstream);
    }
  }

  lemma {:induction false} NamedWithout(upstream: string -> Option<Tag>, rows: seq<AliasRow>, k: nat)
    requires k < |rows| && NamedFor(upstream, rows)
    ensures NamedFor(upstream, Without(rows, k))
  {
    WithoutIndex(rows, k);
  }

  /** With an upstream that answers with the tag asked for, the closure's stateful walk
      writes what the stateless per-row decisions write. */
  lemma {:induction false} AliasStable(stored: map<int, StoredAlias>, cursor: seq<int>, pending: seq<AliasRow>,
                                       st: AliasState, used0: map<string, Tag>, upstream: string -> Option<Tag>)
    requires ResolvedBy(st, used0, upstream) && NamedFor(upstream, pending)
    requires CursorFound(cursor, stored, pending, AliasKey)
    ensures AliasDiffFrom(stored, cursor, pending, st, upstream, false).0
      == DiffFrom(stored, cursor, pending, AliasKey, StableOnStored(used0, upstream), StableOnNew(used0, upstream))
    decreases |cursor|
  {
    if cursor == [] {
      NewAliasStable(pending, st, used0, upstream);
    } else {
      TakeFound(stored, cursor, pending, AliasKey);
      var k := FirstKey(pending, AliasKey, cursor[0]);
      var r := pending[k];
      assert UpstreamNamed(upstream, r.consequentName);
      if r.status == "active" {
        ResolveStable(st, used0, upstream, r.consequentName);
      }
      var st' := AliasStoredStep(st, upstream, stored[cursor[0]], r, false).1;
      NamedWithout(upstream, pending, k);
      AliasStable(stored, cursor[1..], Without(pending, k), st', used0, upstream);
      DiffStep(stored, cursor, pending, AliasKey, StableOnStored(used0, upstream), StableOnNew(used0, upstream));
    }
  }

  /** For a batch of aliases with distinct ids, each consequent looked up from its row
      and an upstream that answers with the tag asked for, the writes for a row's id
      are: a delete for a stored alias no longer active; nothing when the consequent
      cannot be obtained; for an active stored alias, an update exactly when its
      antecedent or consequent id changed; for an active new alias, an insert. */
  lemma {:induction false} AliasRowWrites(stored: map<int, StoredAlias>, cursor: seq<int>, rows: seq<AliasRow>,
                       tags: map<string, Tag>, upstream: string -> Option<Tag>, i: nat)
    requires CursorFor(cursor, stored, rows, AliasKey) && DistinctKeys(rows, AliasKey)
    requires NamedFor(upstream, rows) && i < |rows|
    ensures var r := rows[i];
      var c := if r.consequentName in tags then Some(tags[r.consequentName]) else upstream(r.consequentName);
      WritesFor(AliasBatchWrites(stored, cursor, rows, tags, upstream), r.id)
        == if r.id in stored then
             if r.status != "active" then [DeleteOne(r.id)]
             else if c.None? then []
             else if stored[r.id].antecedentName == r.antecedentName && stored[r.id].consequentId == c.value.id then []
             else [UpdateOne(r.id, AliasDoc(r.antecedentName, c.value.id))]
           else if r.status == "active" && c.Some? then [InsertOne(Some(r.id), AliasDoc(r.antecedentName, c.value.id))]
           else []
  {
    var used0 := UsedTags(tags, rows);
    var r := rows[i];
    assert r.consequentName in used0 <==> r.consequentName in tags;
    AliasStable(stored, cursor, rows, AliasState(used0, []), used0, upstream);
    DiffForRow(stored, cursor, rows, AliasKey, StableOnStored(used0, upstream), StableOnNew(used0, upstream), i);
  }
}
