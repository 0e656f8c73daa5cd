/** The e621 requester: request spacing, and the three incremental passes that keep
    the local database in step with the site (new posts, recently changed posts and
    new tag aliases). Each fetched listing is an input; a request past the last
    listing given is a failed request. */
module Sync {
  import opened Common
  import opened PostRecords

  /** The minimum spacing between two requests, in milliseconds. */
  const MinSpacing: int := 1000
  /** Page sizes requested from the posts and the tag-alias listings. */
  const PostPageLimit: nat := 320
  const AliasPageLimit: nat := 100

  /** How long `makeRequest` sleeps when the last request started at `last`. */
  function WaitTime(now: int, last: int): (w: nat)
    ensures w > 0 <==> now - last < MinSpacing
  {
    if MinSpacing - (now - last) > 0 then MinSpacing - (now - last) else 0
  }

  /** When the request is issued: after the wait, plus however late the timer fired. */
  function NextRequestTime(now: int, last: int, lateness: nat): int {
    now + WaitTime(now, last) + lateness
  }

  /** Two requests in sequence start at least a second apart, and a request that had
      to wait starts exactly a second (plus the timer's lateness) after the last. */
  lemma {:induction false} RequestSpacing(now: int, last: int, lateness: nat)
    ensures NextRequestTime(now, last, lateness) >= last + MinSpacing
    ensures NextRequestTime(now, last, lateness) >= now
    ensures now - last < MinSpacing ==> NextRequestTime(now, last, lateness) == last + MinSpacing + lateness
    ensures now - last >= MinSpacing ==> NextRequestTime(now, last, lateness) == now + lateness
  {
  }

  /** A tag row of the `tags.json` listing, and the reply to the lookup. */
  datatype ApiTag = ApiTag(id: int, name: string, category: int)
  datatype TagReply = TagRows(rows: seq<ApiTag>) | RequestFailed(code: int)

  /** `getTag`: the first row of the reply as a tag; nothing for an empty listing or a
      failed request (a 404 and any other failure alike). */
  function GetTag(reply: TagReply): (r: Option<Tag>)
    ensures r.Some? <==> reply.TagRows? && |reply.rows| > 0
    ensures r.Some? ==> r.value == Tag(reply.rows[0].id, reply.rows[0].name, reply.rows[0].category)
  {
    if reply.TagRows? && |reply.rows| > 0 then Some(Tag(reply.rows[0].id, reply.rows[0].name, reply.rows[0].category))
    else None
  }

  /** The upstream lookup that `getNewTag` makes and that `PostRecords` and `ExportDiff`
      take as a parameter: `getTag` on the site's reply to the name. */
  function Upstream(replies: string -> TagReply): string -> Option<Tag> {
    name => GetTag(replies(name))
  }

  /** The site searches by `name_matches`, so the lookup answers with the tag asked for
      exactly when the reply's first row, if there is one, has that name. */
  lemma {:induction false} UpstreamNamedIff(replies: string -> TagReply, name: string)
    ensures UpstreamNamed(Upstream(replies), name)
        <==> (replies(name).TagRows? && |replies(name).rows| > 0 ==> replies(name).rows[0].name == name)
  {
    var t := Upstream(replies)(name);
    assert t == GetTag(replies(name));
  }

  /** A reply whose first row has another name makes `getOrAddTag` answer with, and
      store, a tag of that other name. The name asked for stays unstored, so asking
      again goes to the site again and stores the same tag a second time: the second
      `insertOne` of an `_id` already taken. */
  lemma {:induction false} MismatchedReplyRefetches(st: TagState, replies: string -> TagReply, name: string)
    requires CacheAgrees(st) && name !in st.tags
    requires replies(name).TagRows? && |replies(name).rows| > 0 && replies(name).rows[0].name != name
    ensures var row := replies(name).rows[0];
      var (t, st') := Obtain(st, Upstream(replies), name);
      t == Some(Tag(row.id, row.name, row.category))
      && name !in st'.tags && row.name in st'.tags && st'.tags[row.name] == t.value
      && Obtain(st', Upstream(replies), name) == (t, st')
  {
    var up := Upstream(replies);
    var row := replies(name).rows[0];
    assert up(name) == Some(Tag(row.id, row.name, row.category));
    assert !CacheHit(st, name);
    var st' := Obtain(st, up, name).1;
    assert !CacheHit(st', name) && Stored(st', name) == None;
    assert st'.cache.Some? ==> name in st'.cache.value && st'.cache.value[name] == None;
    assert AfterFind(st', name) == st' by {
      if st'.cache.Some? {
        assert st'.cache.value[name := None] == st'.cache.value;
      }
    }
    assert st'.tags[row.name := st'.tags[row.name]] == st'.tags;
  }

  /** A post of the `posts.json` listing: the keys it carries, and its fields. */
  datatype ApiPost = ApiPost(keys: set<string>, input: PostInput)

  /** The keys whose absence makes a pass skip the post. */
  const RequiredKeys: set<string> := {"id", "file", "preview", "created_at", "score", "tags"}
  /** The further keys read while building the record; when one is missing the read
      throws and the pass ends. */
  const ReadKeys: set<string> := {"relationships", "flags"}

  /** The database contents a pass reads and writes. */
  datatype Store = Store(tags: TagState, posts: map<int, Post>, aliases: map<int, StoredAlias>)

  function View(db: Utilities): Store
    reads db
  {
    Store(db.TagView(), db.posts, db.aliases)
  }

  /** How a step or a pass ended: it goes on, it stopped at an up-to-date post, an
      exception ended it, or a promise that never settles left it hanging. */
  datatype Flow = Go | Stopped | Aborted | Hung

  /** What the new-posts pass does with a freshly built record: insert it when its id
      is not stored, replace the stored post when the update times differ, and leave
      the database alone otherwise. */
  function Ingest(posts: map<int, Post>, rec: Post): map<int, Post> {
    if rec.id !in posts then PostsAfterAdd(posts, rec)
    else if posts[rec.id].updatedAt != rec.updatedAt then PostsAfterUpdate(posts, rec)
    else posts
  }

  /** After ingesting a record with a truthy id, that id is stored with the record's
      update time. */
  lemma {:induction false} IngestStores(posts: map<int, Post>, rec: Post)
    requires rec.id != 0
    ensures rec.id in Ingest(posts, rec) && Ingest(posts, rec)[rec.id].updatedAt == rec.updatedAt
  {
    RelatedSet(posts[rec.id := rec], rec);
  }

  /** Ingesting changes nothing exactly when the id is falsy or the stored post
      already has the record's update time. */
  lemma {:induction false} IngestUnchanged(posts: map<int, Post>, rec: Post)
    ensures Ingest(posts, rec) == posts
        <==> rec.id == 0 || (rec.id in posts && posts[rec.id].updatedAt == rec.updatedAt)
  {
    if rec.id != 0 {
      IngestStores(posts, rec);
      if rec.id !in posts {
        assert rec.id in Ingest(posts, rec);
      }
    }
  }

  /** The record built from a listing entry, once its tags are expanded: skipped,
      aborted, hung, or built (with the tag state the expansion left). */
  datatype Built = Skip | Throw | NeverSettles(st: TagState) | Fresh(rec: Post, st: TagState)

  function Build(s: Store, upstream: string -> Option<Tag>, e: ApiPost): (b: Built)
    ensures b.Fresh? ==> b.rec.id == e.input.id && b.rec.updatedAt == e.input.updatedAt
  {
    if !(RequiredKeys <= e.keys) then Skip
    else if !(ReadKeys <= e.keys) then Throw
    else
      var (r, st) := ExpandFrom(s.tags, upstream, TagNames(e.input.tags), NoBuckets());
      if r.Err? then NeverSettles(st) else Fresh(Record(e.input, r.value), st)
  }

  /** One entry of the new-posts pass. */
  function NewPostStep(s: Store, upstream: string -> Option<Tag>, e: ApiPost): (Flow, Store) {
    match Build(s, upstream, e)
    case Skip => (Go, s)
    case Throw => (Aborted, s)
    case NeverSettles(st) => (Hung, s.(tags := st))
    case Fresh(rec, st) => (Go, s.(tags := st, posts := Ingest(s.posts, rec)))
  }

  /** One entry of the changed-posts pass: like the new-posts pass, except that an
      entry already stored with the same update time ends the pass, since the
      listing is ordered by change time. */
  function UpdatePostStep(s: Store, upstream: string -> Option<Tag>, e: ApiPost): (Flow, Store) {
    match Build(s, upstream, e)
    case Skip => (Go, s)
    case Throw => (Aborted, s)
    case NeverSettles(st) => (Hung, s.(tags := st))
    case Fresh(rec, st) =>
      if rec.id in s.posts && s.posts[rec.id].updatedAt == rec.updatedAt then (Stopped, s.(tags := st))
      else (Go, s.(tags := st, posts := Ingest(s.posts, rec)))
  }

  /** The two passes treat an entry alike, except that the changed-posts pass stops at
      an up-to-date post, which the new-posts pass leaves alone and passes over. */
  lemma {:induction false} StepsAgree(s: Store, upstream: string -> Option<Tag>, e: ApiPost)
    ensures var b := Build(s, upstream, e);
      UpdatePostStep(s, upstream, e)
        == if b.Fresh? && b.rec.id in s.posts && s.posts[b.rec.id].updatedAt == b.rec.updatedAt
           then (Stopped, NewPostStep(s, upstream, e).1)
           else NewPostStep(s, upstream, e)
    ensures var b := Build(s, upstream, e);
      b.Fresh? && b.rec.id in s.posts && s.posts[b.rec.id].updatedAt == b.rec.updatedAt ==>
        NewPostStep(s, upstream, e).1.posts == s.posts
  {
  }

  /** One page of a pass, entry by entry, until a step does not go on. */
  function PageFrom(s: Store, upstream: string -> Option<Tag>, page: seq<ApiPost>, changed: bool): (Flow, Store)
    decreases |page|
  {
    if page == [] then (Go, s)
    else
      var step := if changed then UpdatePostStep(s, upstream, page[0]) else NewPostStep(s, upstream, page[0]);
      if step.0 != Go then step else PageFrom(step.1, upstream, page[1..], changed)
  }

  /** A pass over the listings: each request takes the next listing, and one past the
      last fails. The new-posts pass asks for another page only after a full one; the
      changed-posts pass asks for the next page whenever a page ends without
      stopping. The result counts the requests, failed ones included. */
  function PassFrom(s: Store, upstream: string -> Option<Tag>, pages: seq<seq<ApiPost>>, changed: bool,
                    requests: nat): (Flow, Store, nat)
    decreases |pages|
  {
    if pages == [] then (Aborted, s, requests + 1)
    else
      var page := PageFrom(s, upstream, pages[0], changed);
      if page.0 == Go && (changed || |pages[0]| >= PostPageLimit) then
        PassFrom(page.1, upstream, pages[1..], changed, requests + 1)
      else (page.0, page.1, requests + 1)
  }

  /** The new-posts pass requests a further page only after a full page, and when it
      ends normally its last page was short. */
  lemma {:induction false} NewPassRequests(s: Store, upstream: string -> Option<Tag>, pages: seq<seq<ApiPost>>,
                                           requests: nat)
    ensures var (f, _, n) := PassFrom(s, upstream, pages, false, requests);
      requests < n <= requests + |pages| + 1
      && (forall k :: 0 <= k < n - requests - 1 ==> |pages[k]| >= PostPageLimit)
      && (f == Go ==> n - requests <= |pages| && |pages[n - requests - 1]| < PostPageLimit)
    decreases |pages|
  {
    if pages != [] {
      var page := PageFrom(s, upstream, pages[0], false);
      if page.0 == Go && |pages[0]| >= PostPageLimit {
        NewPassRequests(page.1, upstream, pages[1..], requests + 1);
        var (f, _, n) := PassFrom(page.1, upstream, pages[1..], false, requests + 1);
        assert forall k :: 1 <= k < n - requests - 1 ==> pages[k] == pages[1..][k - 1];
      }
    }
  }

  /** The changed-posts pass never ends normally: it ends at an up-to-date post, on a
      failed request or an exception, or hangs. */
  lemma {:induction false} ChangedPassEnds(s: Store, upstream: string -> Option<Tag>, pages: seq<seq<ApiPost>>,
                                           requests: nat)
    ensures PassFrom(s, upstream, pages, true, requests).0 != Go
    ensures PassFrom(s, upstream, pages, true, requests).2 <= requests + |pages| + 1
    decreases |pages|
  {
    if pages != [] {
      var page := PageFrom(s, upstream, pages[0], true);
      if page.0 == Go {
        ChangedPassEnds(page.1, upstream, pages[1..], requests + 1);
      }
    }
  }

  /** A page step never touches the tag aliases. */
  lemma {:induction false} PageKeepsAliases(s: Store, upstream: string -> Option<Tag>, page: seq<ApiPost>, changed: bool)
    ensures PageFrom(s, upstream, page, changed).1.aliases == s.aliases
    decreases |page|
  {
    if page != [] {
      var step := if changed then UpdatePostStep(s, upstream, page[0]) else NewPostStep(s, upstream, page[0]);
      if step.0 == Go {
        PageKeepsAliases(step.1, upstream, page[1..], changed);
      }
    }
  }

  lemma {:induction false} PassKeepsAliases(s: Store, upstream: string -> Option<Tag>, pages: seq<seq<ApiPost>>,
                                            changed: bool, requests: nat)
    ensures PassFrom(s, upstream, pages, changed, requests).1.aliases == s.aliases
    decreases |pages|
  {
    if pages != [] {
      PageKeepsAliases(s, upstream, pages[0], changed);
      var page := PageFrom(s, upstream, pages[0], changed);
      if page.0 == Go && (changed || |pages[0]| >= PostPageLimit) {
        PassKeepsAliases(page.1, upstream, pages[1..], changed, requests + 1);
      }
    }
  }

  /** An alias of the `tag_aliases.json` listing. */
  datatype ApiAlias = ApiAlias(id: int, antecedentName: string, consequentName: string, status: string)

  /** One alias of the new-aliases pass: an active alias whose consequent tag can be
      found or fetched is added, or rewritten when its stored antecedent or consequent
      id differs; anything else is skipped. */
  function AliasStep(s: Store, upstream: string -> Option<Tag>, a: ApiAlias): Store {
    if a.status != "active" then s
    else
      var (t, st) := Obtain(s.tags, upstream, a.consequentName);
      if t.None? then s.(tags := st)
      else
        var doc := StoredAlias(a.antecedentName, t.value.id);
        if a.id !in s.aliases then s.(tags := st, aliases := s.aliases[a.id := doc])
        else if s.aliases[a.id] != doc then s.(tags := st, aliases := s.aliases[a.id := doc])
        else s.(tags := st)
  }

  /** Whatever branch it takes, an alias step leaves the alias stored under its id
      with the consequent as it was obtained, or changes nothing. */
  lemma {:induction false} AliasStepMeaning(s: Store, upstream: string -> Option<Tag>, a: ApiAlias)
    ensures var (t, st) := Obtain(s.tags, upstream, a.consequentName);
      AliasStep(s, upstream, a)
        == if a.status != "active" then s
           else if t.None? then s.(tags := st)
           else s.(tags := st, aliases := s.aliases[a.id := StoredAlias(a.antecedentName, t.value.id)])
  {
    var (t, st) := Obtain(s.tags, upstream, a.consequentName);
    if a.status == "active" && t.Some? && a.id in s.aliases {
      var doc := StoredAlias(a.antecedentName, t.value.id);
      if s.aliases[a.id] == doc {
        assert s.aliases[a.id := doc] == s.aliases;
      }
    }
  }

  function AliasPageFrom(s: Store, upstream: string -> Option<Tag>, page: seq<ApiAlias>): Store
    decreases |page|
  {
    if page == [] then s else AliasPageFrom(AliasStep(s, upstream, page[0]), upstream, page[1..])
  }

  /** The new-aliases pass only writes aliases that the page lists as active, and
      never touches the posts. */
  lemma {:induction false} AliasPageWrites(s: Store, upstream: string -> Option<Tag>, page: seq<ApiAlias>)
    ensures AliasPageFrom(s, upstream, page).posts == s.posts
    ensures forall id :: id in AliasPageFrom(s, upstream, page).aliases
                         && (id !in s.aliases || AliasPageFrom(s, upstream, page).aliases[id] != s.aliases[id])
                         ==> exists k :: 0 <= k < |page| && page[k].id == id && page[k].status == "active"
    ensures s.aliases.Keys <= AliasPageFrom(s, upstream, page).aliases.Keys
    decreases |page|
  {
    if page != [] {
      var s1 := AliasStep(s, upstream, page[0]);
      AliasStepMeaning(s, upstream, page[0]);
      AliasPageWrites(s1, upstream, page[1..]);
      var r := AliasPageFrom(s, upstream, page);
      forall id | id in r.aliases && (id !in s.aliases || r.aliases[id] != s.aliases[id])
        ensures exists k :: 0 <= k < |page| && page[k].id == id && page[k].status == "active"
      {
        if id in s1.aliases && (id !in s.aliases || s1.aliases[id] != s.aliases[id]) {
          assert page[0].id == id && page[0].status == "active";
        } else {
          var k :| 0 <= k < |page[1..]| && page[1..][k].id == id && page[1..][k].status == "active";
          assert page[k + 1] == page[1..][k];
        }
      }
    }
  }

  /** The new-aliases pass followed, when the alias page was full, by a new-posts pass
      (the posts pass, not a further alias page, is what the source calls there). */
  function AliasPassFrom(s: Store, upstream: string -> Option<Tag>, aliasPage: Option<seq<ApiAlias>>,
                         pages: seq<seq<ApiPost>>): Store {
    if aliasPage.None? then s
    else
      var s1 := AliasPageFrom(s, upstream, aliasPage.value);
      if |aliasPage.value| >= AliasPageLimit then PassFrom(s1, upstream, pages, false, 0).1 else s1
  }

  /** The requester: the time of the last request, and the database it fills. */
  class Requester {
    var lastRequestTime: int
    const utilities: Utilities

    constructor(utils: Utilities)
      ensures lastRequestTime == 0 && utilities == utils
    {
      lastRequestTime := 0;
      utilities := utils;
    }

    /** `makeRequest`'s pacing: sleep until a second has passed since the last
        request, then record the start of this one. Returns the time slept. */
    method MakeRequest(now: int, lateness: nat) returns (slept: nat)
      modifies this
      ensures slept == WaitTime(now, old(lastRequestTime))
      ensures lastRequestTime == NextRequestTime(now, old(lastRequestTime), lateness)
      ensures lastRequestTime >= old(lastRequestTime) + MinSpacing
    {
      var waitTime := MinSpacing - (now - lastRequestTime);
      slept := 0;
      if waitTime > 0 {
        slept := waitTime;
      }
      RequestSpacing(now, lastRequestTime, lateness);
      lastRequestTime := now + slept + lateness;
    }

    /** One listing entry: build the record, then insert it, replace the stored post,
        leave it, or (in the changed-posts pass) stop. */
    method PostEntry(e: ApiPost, replies: string -> TagReply, changed: bool) returns (flow: Flow)
      modifies utilities
      ensures (flow, View(utilities)) == if changed then UpdatePostStep(old(View(utilities)), Upstream(replies), e)
                                         else NewPostStep(old(View(utilities)), Upstream(replies), e)
    {
      var upstream := Upstream(replies);
      if !(RequiredKeys <= e.keys) {
        return Go;
      }
      if !(ReadKeys <= e.keys) {
        return Aborted;
      }
      ghost var s0 := View(utilities);
      var newPost := utilities.CreatePost(e.input, upstream);
      if newPost.Err? {
        assert Build(s0, upstream, e) == NeverSettles(utilities.TagView());
        return Hung;
      }
      var p := newPost.value;
      assert Build(s0, upstream, e) == Fresh(p, utilities.TagView());
      if p.id !in utilities.posts {
        utilities.AddPost(p);
      } else if utilities.posts[p.id].updatedAt != p.updatedAt {
        utilities.UpdatePost(p);
      } else if changed {
        return Stopped;
      }
      flow := Go;
    }

    /** One page of a pass. */
    method PostPage(page: seq<ApiPost>, replies: string -> TagReply, changed: bool) returns (flow: Flow)
      modifies utilities
      ensures (flow, View(utilities)) == PageFrom(old(View(utilities)), Upstream(replies), page, changed)
    {
      var upstream := Upstream(replies);
      var i := 0;
      while i < |page|
        invariant 0 <= i <= |page|
        invariant PageFrom(View(utilities), upstream, page[i..], changed) == PageFrom(old(View(utilities)), upstream, page, changed)
      {
        assert page[i..][1..] == page[i + 1..];
        flow := PostEntry(page[i], replies, changed);
        if flow != Go {
          return;
        }
        i := i + 1;
      }
      flow := Go;
    }

    /** `addNewPosts` (`changed` false) and `applyUpdates` (`changed` true): page after
        page until the pass ends. Returns how it ended and how many requests it made. */
    method PostPass(pages: seq<seq<ApiPost>>, replies: string -> TagReply, changed: bool)
      returns (flow: Flow, requests: nat)
      modifies utilities
      ensures (flow, View(utilities), requests) == PassFrom(old(View(utilities)), Upstream(replies), pages, changed, 0)
    {
      var upstream := Upstream(replies);
      var p := 0;
      while p < |pages|
        invariant 0 <= p <= |pages|
        invariant PassFrom(View(utilities), upstream, pages[p..], changed, p) == PassFrom(old(View(utilities)), upstream, pages, changed, 0)
      {
        assert pages[p..][1..] == pages[p + 1..];
        flow := PostPage(pages[p], replies, changed);
        if !(flow == Go && (changed || |pages[p]| >= PostPageLimit)) {
          return flow, p + 1;
        }
        p := p + 1;
      }
      flow, requests := Aborted, p + 1;
    }

    /** `getNewTagAliases`: one alias page (none when the request failed), then the
        new-posts pass when the page was full. */
    method GetNewTagAliases(aliasPage: Option<seq<ApiAlias>>, pages: seq<seq<ApiPost>>, replies: string -> TagReply)
      modifies utilities
      ensures View(utilities) == AliasPassFrom(old(View(utilities)), Upstream(replies), aliasPage, pages)
    {
      var upstream := Upstream(replies);
      if aliasPage.None? {
        return;
      }
      var data := aliasPage.value;
      var i := 0;
      while i < |data|
        invariant 0 <= i <= |data|
        invariant AliasPageFrom(View(utilities), upstream, data[i..]) == AliasPageFrom(old(View(utilities)), upstream, data)
      {
        assert data[i..][1..] == data[i + 1..];
        var a := data[i];
        if a.status == "active" {
          var existing := if a.id in utilities.aliases then Some(utilities.aliases[a.id]) else None;
          var usedTag := utilities.GetOrAddTag(a.consequentName, upstream);
          if usedTag.Some? {
            var doc := StoredAlias(a.antecedentName, usedTag.value.id);
            if existing.None? {
              utilities.AddTagAlias(a.id, doc);
            } else if existing.value != doc {
              utilities.UpdateTagAlias(a.id, doc);
            }
          }
        }
        i := i + 1;
      }
      if |data| >= AliasPageLimit {
        var _, _ := PostPass(pages, replies, false);
      }
    }
  }
}
