/** The record side of the search back end: tags, posts, the tag lookup with its
    optional per-name cache, `expandTagsToArray`, `createPost`, and the post store
    operations `addPost`, `updatePost` and `updateRelationships`. The database
    collections are maps; the upstream tag lookup is a function parameter. */
module PostRecords {
  import opened Common

  /** A tag as the `tags` collection stores it. */
  datatype Tag = Tag(id: int, name: string, category: int)

  /** The number of tag categories, and so of tag buckets of a post. */
  const CategoryCount: nat := 9

  /** A JavaScript number field as it reaches `createPost`: `NaN` also stands for
      `undefined`, since `isNaN(undefined)` holds. */
  datatype JsNum = NaN | Null | Val(n: int)

  /** The source list: a newline-separated string from the export, or a list. */
  datatype SourceInput = SourceText(text: string) | SourceList(items: seq<string>)

  /** The tags of an incoming post: a space-separated string from the export, or the
      per-category name lists of the API (`Object.values` order). */
  datatype TagInput = TagText(text: string) | TagLists(lists: seq<seq<string>>)

  /** The fields `createPost` receives. Dates are already parsed to milliseconds. */
  datatype PostInput = PostInput(
    id: int, tags: TagInput, uploaderId: JsNum, approverId: JsNum,
    createdAt: int, updatedAt: int, md5: string, sources: SourceInput,
    width: int, height: int, duration: JsNum, parentId: JsNum, children: seq<int>,
    fileType: string, isDeleted: bool, isPending: bool, isFlagged: bool)

  /** A tag alias as the `tagAliases` collection stores it (its id is the key). */
  datatype StoredAlias = StoredAlias(antecedentName: string, consequentId: int)

  /** A post as the `posts` collection stores it. */
  datatype Post = Post(
    id: int, tags: seq<seq<int>>, flattenedTags: seq<int>, uploaderId: JsNum,
    approverId: JsNum, createdAt: int, updatedAt: int, md5: string,
    sources: seq<string>, width: int, height: int, duration: JsNum, parentId: JsNum,
    children: seq<int>, fileType: string, isDeleted: bool, isPending: bool,
    isFlagged: bool)

  // ---------------------------------------------------------------------------
  // `createPost`'s field clean-up.

  /** `isNaN(x) ? null : x`. */
  function NullIfNaN(x: JsNum): (r: JsNum)
    ensures r != NaN
    ensures x != NaN ==> r == x
  {
    if x == NaN then Null else x
  }

  /** `isNaN(x) ? 0 : x`. */
  function ZeroIfNaN(x: JsNum): (r: JsNum)
    ensures r != NaN
    ensures x != NaN ==> r == x
  {
    if x == NaN then Val(0) else x
  }

  /** A string is split on newlines after trimming; either way empty entries go. */
  function CleanSources(s: SourceInput): (r: seq<string>)
    ensures forall k :: 0 <= k < |r| ==> r[k] != ""
  {
    match s
    case SourceText(t) => NonEmpty(Split(Trim(t), '\n'))
    case SourceList(items) => NonEmpty(items)
  }

  /** The entries of a source text are exactly its non-empty lines, none holding a
      newline. */
  lemma {:induction false} SourceLines(t: string)
    ensures forall x :: x in CleanSources(SourceText(t)) <==> x in Split(Trim(t), '\n') && x != ""
    ensures forall k :: 0 <= k < |CleanSources(SourceText(t))| ==> '\n' !in CleanSources(SourceText(t))[k]
  {
    var parts := Split(Trim(t), '\n');
    SplitPiecesLackSeparator(Trim(t), '\n');
    var r := CleanSources(SourceText(t));
    forall k | 0 <= k < |r|
      ensures '\n' !in r[k]
    {
      assert r[k] in parts;
    }
  }

  /** The record `createPost` resolves with, given the buckets of its tags. */
  function Record(p: PostInput, buckets: seq<seq<int>>): (r: Post)
    ensures r.id == p.id && r.tags == buckets && r.flattenedTags == Concat(buckets)
    ensures r.uploaderId == NullIfNaN(p.uploaderId) && r.approverId == NullIfNaN(p.approverId)
    ensures r.parentId == NullIfNaN(p.parentId) && r.duration == ZeroIfNaN(p.duration)
    ensures r.sources == CleanSources(p.sources) && r.updatedAt == p.updatedAt
  {
    Post(p.id, buckets, Concat(buckets), NullIfNaN(p.uploaderId), NullIfNaN(p.approverId),
         p.createdAt, p.updatedAt, p.md5, CleanSources(p.sources), p.width, p.height,
         ZeroIfNaN(p.duration), NullIfNaN(p.parentId), p.children, p.fileType,
         p.isDeleted, p.isPending, p.isFlagged)
  }

  // ---------------------------------------------------------------------------
  // Tag lookup: `getTagByName` (with its cache), `getNewTag`, `getOrAddTag`.

  /** The tag collection, keyed by name, and the cache: `None` while caching is off,
      otherwise the answers remembered per name (a remembered `null` included). */
  datatype TagState = TagState(tags: map<string, Tag>, cache: Option<map<string, Option<Tag>>>)

  /** The stored tag of that name, if any. */
  function Stored(st: TagState, name: string): Option<Tag> {
    if name in st.tags then Some(st.tags[name]) else None
  }

  /** A cache entry that answers: a remembered tag (a remembered `null` is falsy and
      does not). */
  predicate CacheHit(st: TagState, name: string) {
    st.cache.Some? && name in st.cache.value && st.cache.value[name].Some?
  }

  /** `getTagByName`'s answer. */
  function FindByName(st: TagState, name: string): Option<Tag> {
    if CacheHit(st, name) then st.cache.value[name] else Stored(st, name)
  }

  /** The state after `getTagByName`: on a miss, the database answer is remembered. */
  function AfterFind(st: TagState, name: string): TagState {
    if CacheHit(st, name) || st.cache.None? then st
    else st.(cache := Some(st.cache.value[name := Stored(st, name)]))
  }

  /** `getOrAddTag`: the stored tag, or else the upstream one, which is then stored. */
  function Obtain(st: TagState, upstream: string -> Option<Tag>, name: string): (Option<Tag>, TagState) {
    var found := FindByName(st, name);
    var st1 := AfterFind(st, name);
    if found.Some? then (found, st1)
    else
      var t := upstream(name);
      (t, if t.Some? then st1.(tags := st1.tags[t.value.name := t.value]) else st1)
  }

  /** Every tag the cache remembers is the stored tag of that name. */
  ghost predicate CacheAgrees(st: TagState) {
    st.cache.Some? ==>
      forall n :: n in st.cache.value && st.cache.value[n].Some? ==>
        n in st.tags && st.tags[n] == st.cache.value[n].value
  }

  /** The upstream answers with the tag asked for. */
  predicate UpstreamNamed(upstream: string -> Option<Tag>, name: string) {
    upstream(name).Some? ==> upstream(name).value.name == name
  }

  /** With a cache that agrees with the collection, the cache changes no answer: a
      stored tag is returned, else the upstream one; and the cache keeps agreeing. */
  lemma {:induction false} ObtainTransparent(st: TagState, upstream: string -> Option<Tag>, name: string)
    requires CacheAgrees(st) && UpstreamNamed(upstream, name)
    ensures Obtain(st, upstream, name).0 == if name in st.tags then Some(st.tags[name]) else upstream(name)
    ensures CacheAgrees(Obtain(st, upstream, name).1)
  {
    var st1 := AfterFind(st, name);
    assert CacheAgrees(st1);
  }

  /** Once obtained, a tag is stored: asking again gives the same tag without the
      upstream. */
  lemma {:induction false} ObtainStable(st: TagState, upstream: string -> Option<Tag>, name: string)
    requires CacheAgrees(st) && UpstreamNamed(upstream, name)
    requires Obtain(st, upstream, name).0.Some?
    ensures var st' := Obtain(st, upstream, name).1;
      name in st'.tags && Obtain(st', upstream, name).0 == Obtain(st, upstream, name).0
  {
    ObtainTransparent(st, upstream, name);
    var st' := Obtain(st, upstream, name).1;
    ObtainTransparent(st', upstream, name);
  }

  // ---------------------------------------------------------------------------
  // `expandTagsToArray`.

  /** The names looked up, each trimmed. */
  function TagNames(input: TagInput): (r: seq<string>)
    ensures |r| == match input case TagText(s) => |Split(s, ' ')| case TagLists(ls) => |Concat(ls)|
  {
    var names := match input case TagText(s) => Split(s, ' ') case TagLists(ls) => Concat(ls);
    seq(|names|, k requires 0 <= k < |names| => Trim(names[k]))
  }

  /** Nine empty buckets. */
  function NoBuckets(): (r: seq<seq<int>>)
    ensures |r| == CategoryCount && forall c :: 0 <= c < |r| ==> r[c] == []
  {
    seq(CategoryCount, c => [])
  }

  /** The failure of `toReturn[tag.category].push(...)` for a category outside the nine
      buckets: a `TypeError` that leaves the returned promise unresolved. */
  const BadCategory := "category outside 0..8"

  /** The lookup loop from bucket state `acc` on, threading the tag state. */
  function ExpandFrom(st: TagState, upstream: string -> Option<Tag>, names: seq<string>,
                      acc: seq<seq<int>>): (r: (Result<seq<seq<int>>, string>, TagState))
    requires |acc| == CategoryCount
    ensures r.0.Ok? ==> |r.0.value| == CategoryCount
    decreases |names|
  {
    if names == [] then (Ok(acc), st)
    else
      var (t, st') := Obtain(st, upstream, names[0]);
      match t
      case None => ExpandFrom(st', upstream, names[1..], acc)
      case Some(tag) =>
        if 0 <= tag.category < CategoryCount then
          ExpandFrom(st', upstream, names[1..], acc[tag.category := acc[tag.category] + [tag.id]])
        else (Err(BadCategory), st')
  }

  /** The tags resolved, in input order. */
  function Resolved(st: TagState, upstream: string -> Option<Tag>, names: seq<string>): seq<Tag>
    decreases |names|
  {
    if names == [] then []
    else
      var (t, st') := Obtain(st, upstream, names[0]);
      (if t.Some? then [t.value] else []) + Resolved(st', upstream, names[1..])
  }

  /** The ids of the tags of category `c`, in order. */
  function IdsIn(ts: seq<Tag>, c: int): seq<int> {
    if ts == [] then []
    else (if ts[0].category == c then [ts[0].id] else []) + IdsIn(ts[1..], c)
  }

  predicate ValidCategories(ts: seq<Tag>) {
    forall k :: 0 <= k < |ts| ==> 0 <= ts[k].category < CategoryCount
  }

  /** The lookup loop fails exactly when a resolved tag has a category outside the
      buckets; otherwise bucket c gains the ids of the resolved tags of category c in
      input order, and unresolved names add nothing. */
  lemma {:induction false} ExpandMeaning(st: TagState, upstream: string -> Option<Tag>,
                                         names: seq<string>, acc: seq<seq<int>>)
    requires |acc| == CategoryCount
    ensures ExpandFrom(st, upstream, names, acc).0.Ok? <==> ValidCategories(Resolved(st, upstream, names))
    ensures ExpandFrom(st, upstream, names, acc).0.Ok? ==>
      ExpandFrom(st, upstream, names, acc).0.value
        == seq(CategoryCount, c requires 0 <= c < CategoryCount => acc[c] + IdsIn(Resolved(st, upstream, names), c))
    decreases |names|
  {
    if names != [] {
      var (t, st') := Obtain(st, upstream, names[0]);
      var rest := Resolved(st', upstream, names[1..]);
      match t
      case None =>
        ExpandMeaning(st', upstream, names[1..], acc);
        assert Resolved(st, upstream, names) == rest;
      case Some(tag) =>
        assert Resolved(st, upstream, names) == [tag] + rest;
        assert ([tag] + rest)[1..] == rest;
        if 0 <= tag.category < CategoryCount {
          var acc' := acc[tag.category := acc[tag.category] + [tag.id]];
          ExpandMeaning(st', upstream, names[1..], acc');
          assert ValidCategories([tag] + rest) <==> ValidCategories(rest) by {
            if ValidCategories(rest) {
              forall k | 0 <= k < |[tag] + rest|
                ensures 0 <= ([tag] + rest)[k].category < CategoryCount
              {
                if k > 0 {
                  assert ([tag] + rest)[k] == rest[k - 1];
                }
              }
            }
            if ValidCategories([tag] + rest) {
              forall k | 0 <= k < |rest|
                ensures 0 <= rest[k].category < CategoryCount
              {
                assert ([tag] + rest)[k + 1] == rest[k];
              }
            }
          }
          forall c | 0 <= c < CategoryCount
            ensures acc'[c] + IdsIn(rest, c) == acc[c] + IdsIn([tag] + rest, c)
          {
            assert IdsIn([tag] + rest, c) == (if tag.category == c then [tag.id] else []) + IdsIn(rest, c);
          }
        } else {
          assert !ValidCategories([tag] + rest) by {
            assert ([tag] + rest)[0] == tag;
          }
        }
    } else {
      assert Resolved(st, upstream, names) == [];
      forall c | 0 <= c < CategoryCount
        ensures acc[c] + IdsIn([], c) == acc[c]
      {
        assert acc[c] + [] == acc[c];
      }
    }
  }

  /** Concatenating buckets counts every id once per bucket it was put in. */
  lemma {:induction false} ConcatBucketsAdd(bs: seq<seq<int>>, c: nat, x: int)
    requires c < |bs|
    ensures multiset(Concat(bs[c := bs[c] + [x]])) == multiset(Concat(bs)) + multiset{x}
  {
    if c == 0 {
      assert bs[c := bs[c] + [x]][1..] == bs[1..];
    } else {
      assert bs[c := bs[c] + [x]][1..] == bs[1..][c - 1 := bs[c] + [x]];
      ConcatBucketsAdd(bs[1..], c - 1, x);
    }
  }

  /** The buckets of the resolved tags keyed by category. */
  function Bucketed(ts: seq<Tag>): (r: seq<seq<int>>)
    ensures |r| == CategoryCount
  {
    seq(CategoryCount, c requires 0 <= c < CategoryCount => IdsIn(ts, c))
  }

  lemma {:induction false} IdsInSnoc(ts: seq<Tag>, t: Tag, c: int)
    ensures IdsIn(ts + [t], c) == IdsIn(ts, c) + (if t.category == c then [t.id] else [])
  {
    if ts == [] {
      assert [] + [t] == [t];
    } else {
      var head := if ts[0].category == c then [ts[0].id] else [];
      var last := if t.category == c then [t.id] else [];
      assert (ts + [t])[0] == ts[0] && (ts + [t])[1..] == ts[1..] + [t];
      assert IdsIn(ts + [t], c) == head + IdsIn(ts[1..] + [t], c);
      IdsInSnoc(ts[1..], t, c);
      assert IdsIn(ts + [t], c) == head + (IdsIn(ts[1..], c) + last);
      assert IdsIn(ts, c) == head + IdsIn(ts[1..], c);
    }
  }

  /** `flattenedTags` holds each resolved tag's id exactly once per occurrence: the
      flattening loses and invents nothing. */
  lemma {:induction false} FlattenedIds(ts: seq<Tag>)
    requires ValidCategories(ts)
    ensures multiset(Concat(Bucketed(ts))) == multiset(seq(|ts|, k requires 0 <= k < |ts| => ts[k].id))
    decreases |ts|
  {
    if ts == [] {
      ClearConcat(Bucketed(ts));
    } else {
      var init := ts[..|ts| - 1];
      var t := ts[|ts| - 1];
      assert ts == init + [t];
      assert ValidCategories(init) by {
        forall k | 0 <= k < |init|
          ensures 0 <= init[k].category < CategoryCount
        {
          assert init[k] == ts[k];
        }
      }
      FlattenedIds(init);
      var b := Bucketed(init);
      forall c | 0 <= c < CategoryCount
        ensures Bucketed(ts)[c] == b[t.category := b[t.category] + [t.id]][c]
      {
        IdsInSnoc(init, t, c);
      }
      assert Bucketed(ts) == b[t.category := b[t.category] + [t.id]];
      ConcatBucketsAdd(b, t.category, t.id);
      var ids := seq(|ts|, k requires 0 <= k < |ts| => ts[k].id);
      assert ids == seq(|init|, k requires 0 <= k < |init| => init[k].id) + [t.id];
    }
  }

  lemma {:induction false} ClearConcat(bs: seq<seq<int>>)
    requires forall c :: 0 <= c < |bs| ==> bs[c] == []
    ensures Concat(bs) == []
  {
    if bs != [] {
      ClearConcat(bs[1..]);
    }
  }

  /** From empty buckets: the post's buckets are the resolved tags keyed by category,
      and its `flattenedTags` are exactly the ids of the resolved tags. */
  lemma {:induction false} ExpandedPost(st: TagState, upstream: string -> Option<Tag>, names: seq<string>)
    requires ExpandFrom(st, upstream, names, NoBuckets()).0.Ok?
    ensures var ts := Resolved(st, upstream, names);
      var b := ExpandFrom(st, upstream, names, NoBuckets()).0.value;
      b == Bucketed(ts)
      && multiset(Concat(b)) == multiset(seq(|ts|, k requires 0 <= k < |ts| => ts[k].id))
  {
    var ts := Resolved(st, upstream, names);
    ExpandMeaning(st, upstream, names, NoBuckets());
    var b := ExpandFrom(st, upstream, names, NoBuckets()).0.value;
    forall c | 0 <= c < CategoryCount
      ensures b[c] == Bucketed(ts)[c]
    {
      assert [] + IdsIn(ts, c) == IdsIn(ts, c);
    }
    FlattenedIds(ts);
  }

  // ---------------------------------------------------------------------------
  // The post store and the database facade.

  /** `!x` for a JavaScript id: `null`, `NaN` and `0` are falsy. */
  predicate Falsy(x: JsNum) {
    !x.Val? || x.n == 0
  }

  /** `updateRelationships`' effect: `$addToSet` of the post's id into its parent's
      `children`, when it has one that is stored. */
  function Related(posts: map<int, Post>, post: Post): map<int, Post> {
    if Falsy(post.parentId) || post.parentId.n !in posts then posts
    else
      var parent := posts[post.parentId.n];
      if post.id in parent.children then posts
      else posts[post.parentId.n := parent.(children := parent.children + [post.id])]
  }

  /** `updateRelationships` is idempotent, and afterwards the parent lists the post's id
      exactly when it is stored; no other post changes. */
  lemma {:induction false} RelatedSet(posts: map<int, Post>, post: Post)
    ensures Related(Related(posts, post), post) == Related(posts, post)
    ensures Related(posts, post).Keys == posts.Keys
    ensures !Falsy(post.parentId) && post.parentId.n in posts ==>
      post.id in Related(posts, post)[post.parentId.n].children
      && multiset(Related(posts, post)[post.parentId.n].children)
         == multiset(posts[post.parentId.n].children)
            + (if post.id in posts[post.parentId.n].children then multiset{} else multiset{post.id})
    ensures forall k :: k in posts && (Falsy(post.parentId) || k != post.parentId.n) ==>
      Related(posts, post)[k] == posts[k]
  {
  }

  /** The posts after `addPost`: nothing for a falsy id or an id already stored (the
      insert fails); otherwise the post is inserted and linked to its parent. */
  function PostsAfterAdd(posts: map<int, Post>, post: Post): map<int, Post> {
    if post.id == 0 || post.id in posts then posts else Related(posts[post.id := post], post)
  }

  /** The posts after `updatePost`: nothing for a falsy id; otherwise the stored post
      with that id is replaced (`replaceOne` matches nothing when there is none) and
      linked to its parent. */
  function PostsAfterUpdate(posts: map<int, Post>, post: Post): map<int, Post> {
    if post.id == 0 then posts
    else Related(if post.id in posts then posts[post.id := post] else posts, post)
  }

  /** The database behind `Utilities`: tags by name, the tag cache, posts by id. */
  class Utilities {
    var tags: map<string, Tag>
    var cache: Option<map<string, Option<Tag>>>
    var posts: map<int, Post>
    var aliases: map<int, StoredAlias>

    function TagView(): TagState
      reads this
    {
      TagState(tags, cache)
    }

    /** A fresh facade; caching is off until an export run turns it on. */
    constructor(tags0: map<string, Tag>, posts0: map<int, Post>, aliases0: map<int, StoredAlias>)
      ensures tags == tags0 && posts == posts0 && aliases == aliases0 && cache == None
    {
      tags := tags0;
      posts := posts0;
      aliases := aliases0;
      cache := None;
    }

    /** `this.tagCache = {}` at the start of an export run. */
    method StartCache()
      modifies this
      ensures cache == Some(map[]) && tags == old(tags) && posts == old(posts) && aliases == old(aliases)
    {
      cache := Some(map[]);
    }

    method GetTagByName(name: string) returns (t: Option<Tag>)
      modifies this
      ensures t == FindByName(old(TagView()), name) && TagView() == AfterFind(old(TagView()), name)
      ensures posts == old(posts) && aliases == old(aliases)
    {
      if cache.Some? && name in cache.value && cache.value[name].Some? {
        return cache.value[name];
      }
      t := if name in tags then Some(tags[name]) else None;
      if cache.Some? {
        cache := Some(cache.value[name := t]);
      }
    }

    /** `getNewTag`: asks upstream and stores what it gets (`addTag`). */
    method GetNewTag(name: string, upstream: string -> Option<Tag>) returns (t: Option<Tag>)
      modifies this
      ensures t == upstream(name)
      ensures tags == if t.Some? then old(tags)[t.value.name := t.value] else old(tags)
      ensures cache == old(cache) && posts == old(posts) && aliases == old(aliases)
    {
      t := upstream(name);
      if t.Some? {
        AddTag(t.value);
      }
    }

    method AddTag(tag: Tag)
      modifies this
      ensures tags == old(tags)[tag.name := tag] && cache == old(cache) && posts == old(posts) && aliases == old(aliases)
    {
      tags := tags[tag.name := tag];
    }

    method GetOrAddTag(name: string, upstream: string -> Option<Tag>) returns (t: Option<Tag>)
      modifies this
      ensures (t, TagView()) == Obtain(old(TagView()), upstream, name)
      ensures posts == old(posts) && aliases == old(aliases)
    {
      t := GetTagByName(name);
      if t.Some? {
        return;
      }
      t := GetNewTag(name, upstream);
    }

    /** `expandTagsToArray`: nine buckets, each resolved tag's id pushed onto the
        bucket of its category. */
    method ExpandTagsToArray(input: TagInput, upstream: string -> Option<Tag>)
      returns (r: Result<seq<seq<int>>, string>)
      modifies this
      ensures (r, TagView()) == ExpandFrom(old(TagView()), upstream, TagNames(input), NoBuckets())
      ensures posts == old(posts) && aliases == old(aliases)
    {
      var names := TagNames(input);
      var buckets := NoBuckets();
      var i := 0;
      while i < |names|
        invariant 0 <= i <= |names| && |buckets| == CategoryCount && posts == old(posts) && aliases == old(aliases)
        invariant ExpandFrom(TagView(), upstream, names[i..], buckets)
               == ExpandFrom(old(TagView()), upstream, names, NoBuckets())
      {
        assert names[i..][1..] == names[i + 1..];
        var tag := GetOrAddTag(names[i], upstream);
        if tag.None? {
          i := i + 1;
          continue;
        }
        if !(0 <= tag.value.category < CategoryCount) {
          return Err(BadCategory);
        }
        buckets := buckets[tag.value.category := buckets[tag.value.category] + [tag.value.id]];
        i := i + 1;
      }
      r := Ok(buckets);
    }

    /** `createPost`: the record with its tags expanded, or the expansion's failure. */
    method CreatePost(p: PostInput, upstream: string -> Option<Tag>) returns (r: Result<Post, string>)
      modifies this
      ensures var (e, st) := ExpandFrom(old(TagView()), upstream, TagNames(p.tags), NoBuckets());
        TagView() == st && (if e.Ok? then r == Ok(Record(p, e.value)) else r == Err(e.error))
      ensures posts == old(posts) && aliases == old(aliases)
    {
      var buckets := ExpandTagsToArray(p.tags, upstream);
      if buckets.Err? {
        return Err(buckets.error);
      }
      r := Ok(Record(p, buckets.value));
    }

    method AddPost(post: Post)
      modifies this
      ensures posts == PostsAfterAdd(old(posts), post)
      ensures TagView() == old(TagView()) && aliases == old(aliases)
    {
      if post.id == 0 || post.id in posts {
        return;
      }
      posts := posts[post.id := post];
      UpdateRelationships(post);
    }

    method UpdatePost(post: Post)
      modifies this
      ensures posts == PostsAfterUpdate(old(posts), post)
      ensures TagView() == old(TagView()) && aliases == old(aliases)
    {
      if post.id == 0 {
        return;
      }
      if post.id in posts {
        posts := posts[post.id := post];
      }
      UpdateRelationships(post);
    }

    method UpdateRelationships(post: Post)
      modifies this
      ensures posts == Related(old(posts), post) && TagView() == old(TagView()) && aliases == old(aliases)
    {
      if Falsy(post.parentId) {
        return;
      }
      var pid := post.parentId.n;
      if pid in posts && post.id !in posts[pid].children {
        posts := posts[pid := posts[pid].(children := posts[pid].children + [post.id])];
      }
    }

    /** `addTagAlias`: inserts the alias (an id already stored fails the insert). */
    method AddTagAlias(id: int, alias: StoredAlias)
      modifies this
      ensures aliases == if id in old(aliases) then old(aliases) else old(aliases)[id := alias]
      ensures TagView() == old(TagView()) && posts == old(posts)
    {
      if id !in aliases {
        aliases := aliases[id := alias];
      }
    }

    /** `updateTagAlias`: replaces the alias stored under that id, if any. */
    method UpdateTagAlias(id: int, alias: StoredAlias)
      modifies this
      ensures aliases == if id in old(aliases) then old(aliases)[id := alias] else old(aliases)
      ensures TagView() == old(TagView()) && posts == old(posts)
    {
      if id in aliases {
        aliases := aliases[id := alias];
      }
    }
  }
}
