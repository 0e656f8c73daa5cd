# e621 Advanced Search — a verified model of its core

e621 Advanced Search is a search back end for e621 posts, with a browser user script
as its front end. The back end keeps a database of posts, tags and tag aliases. It
fills that database from the site's database exports and from incremental API polls.
It parses a search query into a tree of groups of tag ids, and it runs a queue of
"source checks" that compare a post with the files behind its source links. This
project models, in Dafny, the parts of that system that make decisions:

- **The query front end** (`QueryTokenizer`, `QueryGroups`). `QueryTokenizer` is the
  cursor-based lexer, a class with `index` and `done` fields. `QueryGroups` has
  `getGroups`, which builds the group tree with a stack of open-group indices, and
  `convertToTagIds`, which rewrites a group's slots in place: names become ids,
  `*` wildcards expand into `~`-separated ids, and unresolved names are dropped.
- **Record normalisation** (`PostRecords`). This covers `createPost` and
  `expandTagsToArray`: nine tag buckets, `flattenedTags`, and the source and NaN
  clean-up. It also covers the tag lookup with its cache, and `updateRelationships`.
- **Export reconciliation** (`ExportDiff`). These are the batch `update` closures
  of the tag, post and tag-alias exports. For each row they choose between insert,
  update, delete and skip.
- **Incremental sync** (`Sync`). This is the requester's 1000 ms request spacing,
  the new-posts and changed-posts passes, the new-aliases pass, and `getTag`.
- **The WebM walker** (`Webm`). It decodes EBML element IDs and element data sizes,
  the variable-size integers of RFC 8794 (sections 4 and 5). It walks a byte buffer
  to find a video's PixelWidth and PixelHeight.
- **File-type detection** (`FileType`). Signature rules are evaluated over a byte
  buffer:
  - equal, notEqual, contains and notContains leaves;
  - search and search_ref offsets;
  - and/or short-circuiting;
  - the fold of detections.

  This module also covers signature validation and the `fromBuffer` loop.
- **The source-check queue** (`SourceQueue`, `Inkbunny`, `CheckData`). This covers:
  - eligibility filtering;
  - replace-or-append in the queue;
  - pruning by age and merging per-checker reports;
  - the `checkFor` decision;
  - Inkbunny's candidate scoring and selection.
- **User-script helpers** (`UserScript`). These are `parseQuery`, the `set:`/`pool:`
  id-list expansion, the search-cursor reset, and the preview's status and flag
  letters.

The database, the upstream API and every library call are parameters of the model:
- collections are maps;
- upstream pages are sequences;
- lookups such as the tag service (the site's reply to each tag name), regular
  expressions, `decodeURIComponent` and text recoding are functions passed in.

Code that updates objects in place is modelled as classes with `modifies` clauses.
Loops are methods, each proved against a specification function. The properties are
stated as lemmas about those functions.

## Model

| member | source | states |
|---|---|---|
| `Common.Trim` | src/structures/Tokenizer.js:4 | `trim()`: the result is a slice `s[i..j]` of the input with only white space outside it, and it neither starts nor ends with white space |
| `Common.WordsTrim` | src/structures/Tokenizer.js:4 | trimming keeps every character that is not white space, in order |
| `Common.Split` | e621AdvancedSearch.user.js:435 | `split(c)` always gives at least one piece; the empty string gives one empty piece |
| `Common.SplitPiecesLackSeparator` | e621AdvancedSearch.user.js:439 | no piece produced by `split(c)` contains `c` |
| `Common.JoinSplit` | e621AdvancedSearch.user.js:439 | `split(c)` followed by `join(c)` gives back the original string |
| `Common.SplitWithoutSeparator` | e621AdvancedSearch.user.js:439 | a string without the separator splits into just itself |
| `Common.SplitAtFirst` | e621AdvancedSearch.user.js:439 | `a + c + b`, with no `c` in `a`, splits into `a` followed by the pieces of `b` |
| `Common.NonEmpty` | src/structures/Utilities.js:176 | `filter(s => s)` keeps exactly the non-empty strings: nothing longer than the input, no empty string left, and every non-empty entry kept |
| `Common.NonEmptyAppend` | src/structures/Utilities.js:176 | the filter keeps the order: filtering a concatenation is the concatenation of the filtered parts |
| `Common.NonEmptySingle` | src/structures/Utilities.js:176 | one entry is kept exactly when it is not the empty string |
| `Common.ReplaceFirst` | src/structures/Utilities.js:548 | `replace("*", r)` leaves a string without `*` unchanged |
| `Common.ReplaceFirstAt` | src/structures/Utilities.js:548 | only the first occurrence is replaced: the text before it is kept, and the text after it, later occurrences included, is kept as it is |
| `Common.InConcat` | src/structures/Utilities.js:170 | an element is in `flat()` of lists exactly when it is in one of them |
| `Common.ConcatAppend` | src/structures/Utilities.js:170 | flattening one more list appends that list |
| `QueryTokenizer.Collapse` | src/structures/Tokenizer.js:4 | `/\s+/g` to `" "`: every white-space character left is a plain space, no two spaces are adjacent, and the ends stay white space exactly when they were |
| `QueryTokenizer.CollapseKeepsWords` | src/structures/Tokenizer.js:4 | collapsing keeps every character that is not white space, in order |
| `QueryTokenizer.NormalizeKeepsWords` | src/structures/Tokenizer.js:4 | the constructor's working text has exactly the raw query's characters other than white space, in order |
| `QueryTokenizer.NormalizeShape` | src/structures/Tokenizer.js:4 | the working text has no leading, trailing or doubled space and no other white space |
| `QueryTokenizer.Scan` | src/structures/Tokenizer.js:29-42 | the consume loop moves strictly forward and stays within the text |
| `QueryTokenizer.ScanShape` | src/structures/Tokenizer.js:27-47 | the token read ends at the end of the text or just before a space, or is a lone `-`; it contains no space, and the new index is just past it |
| `QueryTokenizer.NextTokenShape` | src/structures/Tokenizer.js:27-47 | what `consume` returns has no space, and the cursor moves forward to at most the length |
| `QueryTokenizer.DashAlone` | src/structures/Tokenizer.js:35-38 | a `-` met before any character is returned on its own, and the index moves just past it |
| `QueryTokenizer.WordToken` | src/structures/Tokenizer.js:29-47 | otherwise the token runs to the next space (the index moves past the space) or to the end, and keeps any `-` inside it |
| `QueryTokenizer.TokensFrom` | src/structures/Tokenizer.js:9-13 | the iterator yields at least one token |
| `QueryTokenizer.TokenShape` | src/structures/Tokenizer.js:27-47 | no token contains a space, and a token that starts with `-` is `-` itself |
| `QueryTokenizer.RemoveSpaces` | src/structures/Tokenizer.js:27-47 | the text with its spaces removed holds no space |
| `QueryTokenizer.TokensCoverText` | src/structures/Tokenizer.js:27-47 | the tokens, concatenated, are the normalised text from the cursor with its spaces removed |
| `QueryTokenizer.RemoveSpacesIsWords` | src/structures/Tokenizer.js:4 | on text whose only white space is the plain space, removing spaces keeps exactly the characters that are not white space |
| `QueryTokenizer.TokensAreWords` | src/structures/Tokenizer.js:2-47 | the tokens of a query, concatenated, are exactly its characters other than white space, in order |
| `QueryTokenizer.TokensAreSplit` | src/structures/Tokenizer.js:27-47 | without `-` and without a trailing space, the tokens are exactly the pieces of `split(" ")` |
| `QueryTokenizer.TokensJoin` | src/structures/Tokenizer.js:27-47 | in that case joining the tokens with single spaces rebuilds the text |
| `QueryTokenizer.PeekShape` | src/structures/Tokenizer.js:15-25 | `peek` returns something exactly when a space follows the cursor, and then returns the text up to that space |
| `QueryTokenizer.PeekAgreesWithConsume` | src/structures/Tokenizer.js:15-38 | when the next token is not a lone `-`, `peek` sees the token that `consume` will return, and `consume` moves just past it |
| `QueryTokenizer.ScanToken` | src/structures/Tokenizer.js:28-47 | the character loop of `consume` returns the token and index of the specification |
| `QueryTokenizer.Tokenizer.constructor` | src/structures/Tokenizer.js:2-7 | the working text is the normalised raw text, `index` is 0 and `done` is false |
| `QueryTokenizer.Tokenizer.Peek` | src/structures/Tokenizer.js:15-25 | `peek` returns the text up to the next space, or nothing, and changes neither `index` nor `done` |
| `QueryTokenizer.Tokenizer.Consume` | src/structures/Tokenizer.js:27-48 | `consume` returns the next token; `index` moves to just past it and never decreases; `done` holds exactly when `index` reaches the length |
| `QueryTokenizer.Tokenizer.All` | src/structures/Tokenizer.js:9-13 | the iterator yields the tokens from the cursor until `done`, then stops |
| `QueryTokenizer.TokenizeAll` | src/structures/Tokenizer.js:2-13 | a fresh tokenizer yields the tokens of the raw text, which concatenated are the text's characters other than white space; blank input yields exactly one empty token |
| `QueryGroups.RefsBelow` | src/structures/Utilities.js:525-528 | the placeholders of a well-formed group name only existing subgroups |
| `QueryGroups.RenderUpToAgree` | src/structures/Utilities.js:519-533 | groups with the same slots and agreeing subgroups render to the same tokens |
| `QueryGroups.ExtendHere` | src/structures/Utilities.js:526-532 | appending a slot, and a new empty subgroup when opening, keeps the earlier rendering |
| `QueryGroups.ReplaceLast` | src/structures/Utilities.js:520-523 | replacing the innermost open subgroup by a well-formed one keeps the tree well-formed |
| `QueryGroups.PushName` | src/structures/Utilities.js:531-532 | a plain token is appended to the innermost open group, and extends the open rendering by that token |
| `QueryGroups.OpenHere` | src/structures/Utilities.js:525-528 | `(` appends an empty subgroup and its placeholder `__k`, k being its index |
| `QueryGroups.OpenChild` | src/structures/Utilities.js:525-528 | opening a group pushes its index on the stack and extends the open rendering by `(` |
| `QueryGroups.CloseChild` | src/structures/Utilities.js:529-530 | `)` pops the stack and extends the open rendering by `)` |
| `QueryGroups.ClosedSpine` | src/structures/Utilities.js:536-540 | with no group open, the open rendering is the rendering of the whole tree |
| `QueryGroups.TokenStep` | src/structures/Utilities.js:525-533 | the open depth and the cleaned token list change after one token as the loop does; a `)` with no group open is ignored |
| `QueryGroups.BuildOpen` | src/structures/Utilities.js:525-528 | the loop invariant is kept by a `(` |
| `QueryGroups.BuildClose` | src/structures/Utilities.js:529-530 | the loop invariant is kept by a `)` |
| `QueryGroups.BuildName` | src/structures/Utilities.js:531-532 | the loop invariant is kept by a plain token |
| `QueryGroups.GetGroups` | src/structures/Utilities.js:514-541 | the result is the unclosed-group error exactly when some `(` is still open at the end; otherwise it is a tree whose placeholders name its subgroups in order, in which no `(` or `)` survives as a name at any depth, and which renders back to the tokens without the stray `)` |
| `QueryGroups.Expansion` | src/structures/Utilities.js:552-555 | k matches are written as 2k - 1 slots |
| `QueryGroups.ExpansionAt` | src/structures/Utilities.js:552-555 | slot 2j of the expansion is the j-th id, and slot 2j + 1 is `~` |
| `QueryGroups.WriteRun` | src/structures/Utilities.js:552-555 | storing a run slot by slot from slot s overwrites the slots that follow and lengthens the list only when the run goes past its end |
| `QueryGroups.WriteRunSlices` | src/structures/Utilities.js:552-555 | the same as slices: the prefix before s is kept and the run sits at s |
| `QueryGroups.WriteRunShape` | src/structures/Utilities.js:552-555 | the slots before the run are kept, the run is written, and the slots after it are kept |
| `QueryGroups.RewriteFrom` | src/structures/Utilities.js:544-566 | the slot loop never shortens the list and never changes slots before the cursor |
| `QueryGroups.RemoveEmptyMembers` | src/structures/Utilities.js:568 | `filter(t => t != "")` keeps exactly the slots that are not loosely equal to `""`, that is neither `""` nor the id 0 |
| `QueryGroups.WriteOne` | src/structures/Utilities.js:553-554 | storing the next slot of a run just past the slots already written extends the written part by that slot |
| `QueryGroups.WritePair` | src/structures/Utilities.js:552-555 | one round of the inner loop writes the next id and, unless it is the last, a `~`, extending the written run by those slots |
| `QueryGroups.WriteMatches` | src/structures/Utilities.js:552-555 | the inner loop writes the expansion from the token's slot, and leaves the cursor 2k - 1 slots on |
| `QueryGroups.ConvertToTagIds` | src/structures/Utilities.js:543-573 | the call rejects with the `SyntaxError` exactly when some group of the tree meets a wildcard whose pattern does not compile; otherwise the group after the call is the specified rewrite, then the filter, then the same for each subgroup |
| `QueryGroups.RewriteSlots` | src/structures/Utilities.js:544-566 | the slot loop stops exactly when the specified walk reaches a wildcard whose pattern does not compile, and otherwise leaves the specified rewrite |
| `QueryGroups.RewriteSlot` | src/structures/Utilities.js:545-563 | one pass of the loop body stops only at a wildcard whose pattern does not compile; any other pass moves the cursor on with both the specified rewrite and the specified rejection unchanged, and with fewer slots left to visit |
| `QueryGroups.NoWildcardNoAbort` | src/structures/Utilities.js:544-548 | only a wildcard can reject: a loop over slots without one never does |
| `QueryGroups.BadWildcardAborts` | src/structures/Utilities.js:547-548 | a wildcard slot whose pattern does not compile rejects the call |
| `QueryGroups.ConvertSlot` | src/structures/Utilities.js:546-563 | `~`, `^`, `-` and `__` placeholders stay as they are; a resolved name becomes its id; an unresolved name becomes `""` |
| `QueryGroups.RewritePointwise` | src/structures/Utilities.js:544-566 | with no wildcard, the rewrite keeps the length and converts each slot on its own |
| `QueryGroups.WildcardStep` | src/structures/Utilities.js:547-555 | a wildcard with k > 0 matches writes its expansion at its slot and the loop resumes 2k slots on |
| `QueryGroups.WildcardWritten` | src/structures/Utilities.js:547-555 | a wildcard with k > 0 matches leaves its expansion in slots i to i + 2k - 2 |
| `QueryGroups.WildcardUnmatched` | src/structures/Utilities.js:552 | a wildcard with no match is left as it is |
| `QueryGroups.WildcardOverwrites` | src/structures/Utilities.js:552-555 | `a* b c` with two matches becomes `1 ~ 2`: the expansion overwrites `b` and `c` instead of shifting them |
| `QueryGroups.WildcardSkipsNext` | src/structures/Utilities.js:544-553 | `a* b` with one match leaves `b` unconverted, because the cursor moves past the slot after the id |
| `QueryGroups.RemoveEmptyAppend` | src/structures/Utilities.js:568 | the filter keeps order: it distributes over concatenation |
| `QueryGroups.RemoveEmptyKeeps` | src/structures/Utilities.js:568 | a list with only non-empty slots is left alone |
| `QueryGroups.ConvertedPlain` | src/structures/Utilities.js:543-573 | with no wildcard in a group, its tokens are the slots converted one by one and then filtered, and its subgroups keep their number |
| `PostRecords.NullIfNaN` | src/structures/Utilities.js:171-183 | `isNaN(x) ? null : x` is never NaN and keeps a value that is a number |
| `PostRecords.ZeroIfNaN` | src/structures/Utilities.js:180 | `isNaN(x) ? 0 : x` is never NaN and keeps a value that is a number |
| `PostRecords.CleanSources` | src/structures/Utilities.js:176 | there is no empty source entry |
| `PostRecords.SourceLines` | src/structures/Utilities.js:176 | the entries of a source text are exactly its non-empty lines after trimming, and none holds a newline |
| `PostRecords.Record` | src/structures/Utilities.js:165-196 | the record has the input's id and dates; its buckets are the tags; `flattenedTags` is the buckets concatenated; its ids are cleaned of NaN, its duration is made 0 for NaN, and its sources are cleaned |
| `PostRecords.ObtainTransparent` | src/structures/Utilities.js:449-470 | with a cache that agrees with the collection, `getOrAddTag` answers with the stored tag if there is one, else the upstream one, and the cache still agrees afterwards |
| `PostRecords.ObtainStable` | src/structures/Utilities.js:449-480 | once obtained, a tag is stored: asking again gives the same tag and changes nothing |
| `PostRecords.TagNames` | src/structures/Utilities.js:204-224 | one name is looked up per piece of the tag string, or per entry of the tag lists |
| `PostRecords.NoBuckets` | src/structures/Utilities.js:202 | nine empty buckets |
| `PostRecords.ExpandFrom` | src/structures/Utilities.js:205-239 | a lookup that succeeds keeps nine buckets |
| `PostRecords.ExpandMeaning` | src/structures/Utilities.js:205-239 | the loop fails exactly when some resolved tag has a category outside the nine; otherwise each bucket c gains the ids of the resolved tags of category c, in input order, and unresolved names are skipped |
| `PostRecords.ConcatBucketsAdd` | src/structures/Utilities.js:202-219 | pushing an id onto one bucket adds it once to the flattened tags |
| `PostRecords.Bucketed` | src/structures/Utilities.js:202-219 | the resolved tags keyed by category make nine buckets |
| `PostRecords.IdsInSnoc` | src/structures/Utilities.js:219 | one more tag adds its id to its own category only |
| `PostRecords.FlattenedIds` | src/structures/Utilities.js:166-170 | `flattenedTags` holds each resolved tag's id exactly once per occurrence, as a multiset |
| `PostRecords.ClearConcat` | src/structures/Utilities.js:170-202 | empty buckets flatten to nothing |
| `PostRecords.ExpandedPost` | src/structures/Utilities.js:199-244 | starting from empty buckets, the post's buckets are the resolved tags keyed by category |
| `PostRecords.RelatedSet` | src/structures/Utilities.js:440-443 | `updateRelationships` is idempotent, keeps the set of posts, adds the post's id to the parent's children (added as to a set), and changes no other post; for a falsy `parentId` it does nothing |
| `PostRecords.Utilities.constructor` | src/structures/Utilities.js:21-41 | the store starts from the given collections with caching off |
| `PostRecords.Utilities.StartCache` | src/structures/Utilities.js:75 | an export run starts with an empty tag cache and no other change |
| `PostRecords.Utilities.GetTagByName` | src/structures/Utilities.js:463-470 | a remembered truthy tag is answered from the cache; otherwise the collection's answer is returned and, when caching is on, remembered |
| `PostRecords.Utilities.GetNewTag` | src/structures/Utilities.js:472-480 | the upstream tag is returned and, when there is one, stored |
| `PostRecords.Utilities.AddTag` | src/structures/Utilities.js:482-484 | the tag is stored under its name |
| `PostRecords.Utilities.GetOrAddTag` | src/structures/Utilities.js:449-457 | the answer and the new state are those of the lookup specification |
| `PostRecords.Utilities.ExpandTagsToArray` | src/structures/Utilities.js:199-244 | the buckets and the tag state are those of the lookup loop over the names |
| `PostRecords.Utilities.CreatePost` | src/structures/Utilities.js:161-197 | the record built from the expanded buckets, or the failure of the expansion |
| `PostRecords.Utilities.AddPost` | src/structures/Utilities.js:422-429 | a post with a falsy id is refused; otherwise it is inserted (an existing id fails the insert) and the relationship update follows |
| `PostRecords.Utilities.UpdatePost` | src/structures/Utilities.js:431-438 | a post with a falsy id is refused; otherwise it replaces the stored post and the relationship update follows |
| `PostRecords.Utilities.UpdateRelationships` | src/structures/Utilities.js:440-443 | the posts become the related set |
| `PostRecords.Utilities.AddTagAlias` | src/structures/Utilities.js:502-504 | the alias is inserted unless its id is taken |
| `PostRecords.Utilities.UpdateTagAlias` | src/structures/Utilities.js:506-508 | the alias stored under that id, if any, is replaced |
| `ExportDiff.WritesFor` | src/structures/Utilities.js:109-138 | the writes about one document are a selection of the bulk |
| `ExportDiff.WritesForAppend` | src/structures/Utilities.js:109-138 | selecting the writes about one document distributes over concatenation |
| `ExportDiff.WritesForUniform` | src/structures/Utilities.js:109-138 | writes that are all about one document are kept whole for that id and dropped for any other |
| `ExportDiff.FirstKey` | src/structures/Utilities.js:114 | `findIndex`: the first row with that id, or none |
| `ExportDiff.Without` | src/structures/Utilities.js:114 | `splice(k, 1)` removes one row |
| `ExportDiff.WithoutAt` | src/structures/Utilities.js:114 | removing one row keeps every other, shifted down past the removed slot |
| `ExportDiff.NewWritesFor` | src/structures/Utilities.js:130-136 | for rows with distinct ids, the insert loop writes, for a row's id, that row's own decision only |
| `ExportDiff.WithoutIndex` | src/structures/Utilities.js:114 | the rows after `splice` are the old ones with slot k skipped |
| `ExportDiff.WithoutKeys` | src/structures/Utilities.js:114 | removing a row keeps exactly the other rows' ids, still distinct |
| `ExportDiff.WithoutHas` | src/structures/Utilities.js:114 | an id other than the removed row's is still present |
| `ExportDiff.TakeFound` | src/structures/Utilities.js:111-114 | the row of each document the cursor yields is found, and the rest of the cursor still names rows of the rest of the batch |
| `ExportDiff.TakeStep` | src/structures/Utilities.js:111-114 | taking a row out keeps the facts the cursor walk needs |
| `ExportDiff.DiffAbsent` | src/structures/Utilities.js:111-136 | with no row and no cursor entry for an id, nothing is written for it |
| `ExportDiff.DiffStep` | src/structures/Utilities.js:113-128 | one step of the cursor walk: the found row's decision, then the walk over the rest |
| `ExportDiff.DiffForRowHere` | src/structures/Utilities.js:113-128 | the row of the first cursor id receives its own decision and nothing later |
| `ExportDiff.DiffForRow` | src/structures/Utilities.js:111-136 | for a batch with distinct ids, the writes about a row's id are exactly that row's decision: the stored-document decision when it is stored, the new-row decision otherwise |
| `ExportDiff.Batches` | src/structures/Utilities.js:142-158 | the read loop's batches, concatenated, are the accepted rows in order; no batch is empty; every batch but the last holds exactly 10001 rows, and none holds more |
| `ExportDiff.Feed` | src/structures/Utilities.js:145-155 | one row of the read loop: a full batch is flushed before the row; the kept rows, concatenated, gain exactly this row when it is accepted; full batches keep exactly 10001 rows |
| `ExportDiff.Kept` | src/structures/Utilities.js:297 | the rows kept are a selection of the rows |
| `ExportDiff.KeptSnoc` | src/structures/Utilities.js:297 | one more row is kept exactly when it is accepted |
| `ExportDiff.Reconcile` | src/structures/Utilities.js:104-140 | the bulk of an `update` closure is the specified cursor walk, followed by the inserts for the rows left over |
| `ExportDiff.TagRowWrites` | src/structures/Utilities.js:111-136 | for a batch of tags with distinct ids: no write for a stored tag with the same name and category; one `$set` update of name and category for a stored tag that changed; one insert for an unstored tag |
| `ExportDiff.PostRowWrites` | src/structures/Utilities.js:256-282 | for a batch of resolved posts with distinct ids: no write for a stored post with the same `updatedAt`; otherwise one `$set` update of the fields other than the id; one insert for an unstored post |
| `ExportDiff.FinalPostBatchInserts` | src/structures/Utilities.js:307 | as written, the last batch is one empty-document insert per row, whatever is stored |
| `ExportDiff.FinalPostBatchDiffers` | src/structures/Utilities.js:292-307 | an up-to-date stored post gets no write in a resolved batch, but an empty-document insert in the last batch as written |
| `ExportDiff.ZeroIdRowKept` | src/structures/Utilities.js:297 | the id test is on the raw column text: a row whose id is `"0"` is kept and a row with an empty id is skipped |
| `ExportDiff.AliasUpdate` | src/structures/Utilities.js:313-393 | the alias closure's bulk and the tags it stores are those of the cursor walk, with consequents resolved from the incoming row (the corrected lookup of the second finding) |
| `ExportDiff.AliasVisit` | src/structures/Utilities.js:323-361 | one pass of the cursor loop takes the visited alias's row out of the pending rows, keeps every later cursor id findable, and its writes followed by those of the rest of the walk are the walk's writes from this point |
| `ExportDiff.StaleAliasAsWritten` | src/structures/Utilities.js:328-332 | the stored alias `a -> 5` with an active row `a -> c`, `c` being a used tag of id 9: as written the consequent is looked up under an undefined name and nothing is written; resolved from the row it is updated to 9 |
| `ExportDiff.ResolveStable` | src/structures/Utilities.js:328-340 | when the upstream answers with the tag asked for, remembering fetched tags changes no later answer |
| `ExportDiff.NewAliasStable` | src/structures/Utilities.js:365-389 | the insert loop's stateful decisions are the decisions taken from the starting state |
| `ExportDiff.NamedWithout` | src/structures/Utilities.js:324 | removing a row keeps the upstream answering for the rest |
| `ExportDiff.AliasStable` | src/structures/Utilities.js:323-389 | the whole stateful walk is the generic walk with decisions taken from the starting state |
| `ExportDiff.AliasRowWrites` | src/structures/Utilities.js:320-389 | for a batch of aliases with distinct ids, the writes about a row's id are: a delete for a stored alias no longer active; nothing when the consequent cannot be obtained; for an active stored alias, an update exactly when its antecedent or consequent id changed; for an active new alias, an insert |
| `Sync.WaitTime` | src/structures/E621Requester.js:23-24 | `makeRequest` sleeps exactly when less than 1000 ms have passed since the last request |
| `Sync.RequestSpacing` | src/structures/E621Requester.js:23-25 | the next request starts at least 1000 ms after the last one and not before now: 1000 ms after the last one when it is too soon, else now, plus the timer's lateness |
| `Sync.UpstreamNamedIff` | src/structures/E621Requester.js:135-151 | the `getTag` lookup answers with the tag of the name asked for exactly when the reply's first row, if any, has that name |
| `Sync.MismatchedReplyRefetches` | src/structures/E621Requester.js:138-140 | a reply whose first row has another name makes `getOrAddTag` answer and store a tag of that other name; the name asked for stays unstored, so asking again fetches and stores the same tag again |
| `Sync.IngestStores` | src/structures/E621Requester.js:60-63 | after ingesting a record with a truthy id, that id is stored with the record's `updatedAt` |
| `Sync.IngestUnchanged` | src/structures/E621Requester.js:60-63 | ingesting changes nothing exactly when the id is falsy or the stored post has the same `updatedAt` |
| `Sync.Build` | src/structures/E621Requester.js:48-58 | a built record has the listing entry's id and `updatedAt` |
| `Sync.StepsAgree` | src/structures/E621Requester.js:60-98 | the two passes treat an entry alike, except that the changed-posts pass stops at an up-to-date stored post |
| `Sync.NewPassRequests` | src/structures/E621Requester.js:41-70 | the new-posts pass requests another page only after one of at least 320 posts |
| `Sync.ChangedPassEnds` | src/structures/E621Requester.js:72-105 | the changed-posts pass never ends normally: it ends at an up-to-date post or on a failed request, after at most one request per page plus one |
| `Sync.PageKeepsAliases` | src/structures/E621Requester.js:47-64 | a page of posts never touches the tag aliases |
| `Sync.PassKeepsAliases` | src/structures/E621Requester.js:41-105 | neither posts pass touches the tag aliases |
| `Sync.AliasStepMeaning` | src/structures/E621Requester.js:113-126 | an inactive alias changes nothing; an active one whose consequent cannot be obtained changes only the tags; otherwise the alias is added when absent and rewritten only when its antecedent or consequent id differs |
| `Sync.AliasPageWrites` | src/structures/E621Requester.js:113-127 | the aliases pass leaves the posts alone, keeps every stored alias id, and writes only aliases the page lists as active |
| `Sync.Requester.constructor` | src/structures/E621Requester.js:16-19 | `lastRequestTime` starts at 0 |
| `Sync.Requester.MakeRequest` | src/structures/E621Requester.js:21-25 | the sleep is the wait time; `lastRequestTime` becomes the time the request is issued, at least 1000 ms after the previous one |
| `Sync.Requester.PostEntry` | src/structures/E621Requester.js:47-99 | one listing entry has the effect of the specified step of its pass |
| `Sync.Requester.PostPage` | src/structures/E621Requester.js:47-99 | one page has the effect of the page specification |
| `Sync.Requester.PostPass` | src/structures/E621Requester.js:41-105 | `addNewPosts` and `applyUpdates`: the outcome, the store and the number of requests are those of the pass specification |
| `Sync.Requester.GetNewTagAliases` | src/structures/E621Requester.js:107-133 | the aliases page, then a new-posts pass when that page was full |
| `Webm.ToInt32` | src/sourceChecker/SourceChecker.js:237-272 | the 32-bit conversion of `<<` stays within the signed 32-bit range, and keeps a value already in it |
| `Webm.BigEndianLinear` | src/sourceChecker/SourceChecker.js:267-273 | a leading accumulator contributes its value shifted past all the bytes |
| `Webm.BigEndianBounds` | src/sourceChecker/SourceChecker.js:267-273 | a big-endian number of n bytes is below 256^n |
| `Webm.ShiftInExact` | src/sourceChecker/SourceChecker.js:237-272 | `(v << 8) + b` is the exact step converted to 32 bits (within the range where the addition does not leave it) |
| `Webm.ShiftInAllExact` | src/sourceChecker/SourceChecker.js:235-273 | the 32-bit accumulation is the exact big-endian value converted to 32 bits |
| `Webm.LowerHex` | src/sourceChecker/SourceChecker.js:102 | `toString(16)` gives at least one digit |
| `Webm.ToUpper` | src/sourceChecker/SourceChecker.js:104 | `toUpperCase` maps each character on its own and keeps the length |
| `Webm.ByteToHex` | src/sourceChecker/SourceChecker.js:101-105 | `byteToHex` is the byte's two upper-case hexadecimal digits, zero-padded |
| `Webm.ByteToHexInjective` | src/sourceChecker/SourceChecker.js:101-105 | different bytes have different spellings |
| `Webm.SpellingSnoc` | src/sourceChecker/SourceChecker.js:265-271 | each further byte appends `[HH]` to the ID spelling |
| `Webm.Marker` | src/sourceChecker/SourceChecker.js:185-222 | the marker bit of width w is 0x80 shifted down by w - 1 |
| `Webm.BitAnd` | src/sourceChecker/SourceChecker.js:264 | `a & m` is at most `a` |
| `Webm.AndLowMask` | src/sourceChecker/SourceChecker.js:193-221 | a mask of k one bits keeps the low k bits |
| `Webm.AndFull` | src/sourceChecker/SourceChecker.js:157-182 | the ID mask 0xff keeps the byte |
| `Webm.AndBelowMarker` | src/sourceChecker/SourceChecker.js:185-230 | the data-size mask removes exactly the marker bit from a first byte of that width |
| `Webm.Decoded` | src/sourceChecker/SourceChecker.js:263-281 | a decode that does not throw reports the width asked for, with all its bytes inside the buffer |
| `Webm.IdWidth` | src/sourceChecker/SourceChecker.js:163-178 | the ID width is 1 to 4 from the first set bit among 0x80, 0x40, 0x20 and 0x10; it is none exactly when the first byte is below 0x10 |
| `Webm.SizeWidth` | src/sourceChecker/SourceChecker.js:191-226 | the data-size width is 1 to 8 from the leading zero bits; it is none exactly when the first byte is 0 |
| `Webm.ElementIdAt` | src/sourceChecker/SourceChecker.js:157-182 | a scanned element ID is 1 to 4 bytes inside the buffer |
| `Webm.DataSizeAt` | src/sourceChecker/SourceChecker.js:185-230 | a scanned data size is 1 to 8 bytes inside the buffer |
| `Webm.DecodedExact` | src/sourceChecker/SourceChecker.js:263-281 | a decode's value is the big-endian value of the masked first byte and the following bytes, converted to 32 bits |
| `Webm.IdBound` | src/sourceChecker/SourceChecker.js:163-180 | an ID of at most four bytes stays below 2^29, so its 32-bit accumulation is exact |
| `Webm.ElementIdValue` | src/sourceChecker/SourceChecker.js:157-182 | an element ID keeps its marker bit: its value is the big-endian number formed by all its bytes, and its name is `[HH]` for each of those bytes, marker bit included |
| `Webm.DataSizeValue` | src/sourceChecker/SourceChecker.js:185-230 | a data size is the 32-bit conversion of its bytes read big-endian with the marker bit removed (VINT_DATA, RFC 8794 section 4.4) |
| `Webm.MaskedValue` | src/sourceChecker/SourceChecker.js:264-272 | a decode whose mask removes m from the first byte gives the big-endian value less m shifted past the other bytes |
| `Webm.BytesBERoundTrip` | src/sourceChecker/SourceChecker.js:267-273 | reading back a big-endian encoding gives the number |
| `Webm.SizeOctets` | src/sourceChecker/SourceChecker.js:191-228 | the encoding of a data size of width w has w bytes |
| `Webm.SizeRoundTrip` | src/sourceChecker/SourceChecker.js:185-230 | decoding a data size encoded at width w (a value below 2^31) gives back the value and the width, whatever follows |
| `Webm.EncodedValue` | src/sourceChecker/SourceChecker.js:191-228 | the encoding read big-endian is the value with the marker bit on top |
| `Webm.HeaderAt` | src/sourceChecker/SourceChecker.js:43-55 | a header read at a position ends at least two bytes further on and within the buffer |
| `Webm.VisitDescends` | src/sourceChecker/SourceChecker.js:58-83 | the data of EBML, Segment, Tracks, TrackEntry, Video and Cluster is walked as a region of its own, ending at the data's end |
| `Webm.WalkStep` | src/sourceChecker/SourceChecker.js:41-95 | one round of the walk: the element at the position, then the rest of the region past its data, stopping at or past the end |
| `Webm.LeafKeepsFlags` | src/sourceChecker/SourceChecker.js:70-77 | PixelWidth and PixelHeight set their value and flag; no other leaf changes anything |
| `Webm.WalkKeepsFlags` | src/sourceChecker/SourceChecker.js:37-98 | a walk never clears a flag, and leaves a dimension it did not find as it was |
| `Webm.VisitKeepsFlags` | src/sourceChecker/SourceChecker.js:58-83 | the same for one element |
| `Webm.NoLeadingElement` | src/sourceChecker/SourceChecker.js:41-46 | a buffer that does not start with an element ID has no dimensions |
| `Webm.OneByteId` | src/sourceChecker/SourceChecker.js:163-180 | a one-byte element ID is its own byte |
| `Webm.OneByteSize` | src/sourceChecker/SourceChecker.js:191-228 | a one-byte data size is its byte less 0x80 |
| `Webm.OneByteHeader` | src/sourceChecker/SourceChecker.js:43-55 | an element whose ID and size take one byte each has its data two bytes on |
| `Webm.VideoSampleVideo` | src/sourceChecker/SourceChecker.js:145 | the sample starts with a Video header of 7 data bytes |
| `Webm.VideoSampleWidth` | src/sourceChecker/SourceChecker.js:146 | the sample's PixelWidth header has 2 data bytes |
| `Webm.VideoSampleWidthValue` | src/sourceChecker/SourceChecker.js:70-73 | the sample's PixelWidth records 320 |
| `Webm.VideoSampleHeight` | src/sourceChecker/SourceChecker.js:147 | the sample's PixelHeight header has 1 data byte |
| `Webm.VideoSampleHeightValue` | src/sourceChecker/SourceChecker.js:74-77 | the sample's PixelHeight records 240 |
| `Webm.VideoSampleLastElement` | src/sourceChecker/SourceChecker.js:85-94 | the walk stops exactly at the end of the Video data |
| `Webm.VideoSampleContents` | src/sourceChecker/SourceChecker.js:41-95 | the Video data yields width 320 and height 240 |
| `Webm.VideoName` | src/sourceChecker/SourceChecker.js:67-69 | `[E0]` is Video, which is descended into |
| `Webm.VideoSampleDescends` | src/sourceChecker/SourceChecker.js:67-69 | descending into Video finds both dimensions |
| `Webm.VideoSampleWalk` | src/sourceChecker/SourceChecker.js:37-98 | the whole sample is walked to both dimensions |
| `Webm.VideoExample` | src/sourceChecker/SourceChecker.js:372-381 | `getDimensions` on the sample gives (320, 240) |
| `Webm.WebmParser.constructor` | src/sourceChecker/SourceChecker.js:23-26 | the static state starts at 0, 0, false, false |
| `Webm.WebmParser.DecodeBytes` | src/sourceChecker/SourceChecker.js:263-281 | the decode loop computes the decode specification (spelling, width, 32-bit value, or a throw) |
| `Webm.WebmParser.ScanWebmTag` | src/sourceChecker/SourceChecker.js:157-182 | `scanWebmTag` computes the element-ID specification |
| `Webm.WebmParser.ScanDataSize` | src/sourceChecker/SourceChecker.js:185-230 | `scanDataSize` computes the data-size specification |
| `Webm.WebmParser.ScanDataValueU` | src/sourceChecker/SourceChecker.js:232-241 | `scanDataValueU` reads `size` bytes with 32-bit shifts, or throws when a read leaves the buffer |
| `Webm.WebmParser.ScanHeader` | src/sourceChecker/SourceChecker.js:43-55 | the two scans at the head of a round compute the header specification |
| `Webm.WebmParser.InternalParseWebm` | src/sourceChecker/SourceChecker.js:37-98 | the walk's effect on the static state is the walk specification; a throw is reported |
| `Webm.WebmParser.VisitElement` | src/sourceChecker/SourceChecker.js:58-87 | the data part of a round has the effect of the element specification |
| `Webm.WebmParser.ParseWebm` | src/sourceChecker/SourceChecker.js:28-35 | `parseWebm` clears the state and walks the whole buffer |
| `Webm.WebmParser.GetDimensions` | src/sourceChecker/SourceChecker.js:366-382 | another mime type goes to the image-size library, (-1, -1) when it fails; a webm gives its dimensions only when both were found, else (-1, -1) |
| `FileType.GetRuleDetection` | src/sourceChecker/DetectFileType.js:359-377 | the loop computes the fold of the arguments |
| `FileType.Reset` | src/sourceChecker/DetectFileType.js:362-364 | the position after the last `false` lies within the arguments |
| `FileType.LatestOfFlags` | src/sourceChecker/DetectFileType.js:366-375 | arguments that are all booleans carry no field |
| `FileType.RuleDetectionMeaning` | src/sourceChecker/DetectFileType.js:359-377 | the fold is `false` when nothing follows the last `false`; `true` when only booleans follow it; otherwise an object whose ext, mime and iana each come from the last object after it that has that key |
| `FileType.AbsorbIsRuleDetection` | src/sourceChecker/DetectFileType.js:359-377 | folding two arguments starting from a detection is one step from that detection |
| `FileType.IndexFrom` | src/sourceChecker/DetectFileType.js:131 | the search gives the first position where the bytes occur, or -1 when they occur nowhere |
| `FileType.SlicePoint` | src/sourceChecker/DetectFileType.js:208-213 | a `slice` bound is clamped into the buffer, a negative one counting from the end |
| `FileType.SearchData.constructor` | src/sourceChecker/DetectFileType.js:149 | the search data starts empty |
| `FileType.DetectRules` | src/sourceChecker/DetectFileType.js:103-226 | `_detect` over a rule list: the throw, the detection and the search data afterwards are those of the specification |
| `FileType.EvaluateRule` | src/sourceChecker/DetectFileType.js:106-224 | one rule of the `every` callback: a search that misses makes the rule false; otherwise its index is recorded, in a new search data object only when there was none, and the rest of the rule follows the specification |
| `FileType.ApplyRule` | src/sourceChecker/DetectFileType.js:153-220 | the part of the `every` callback after the search (nested lists with their recoded retry, default, leaves): its throw, detection, continuation and search data follow the specification |
| `FileType.UnresolvedRefFails` | src/sourceChecker/DetectFileType.js:186-194 | a `search_ref` with no search data makes the leaf false |
| `FileType.WindowMatches` | src/sourceChecker/DetectFileType.js:196-203 | the compared range equals the bytes exactly when the bytes lie at the start and the range ends with them |
| `FileType.EqualMeaning` | src/sourceChecker/DetectFileType.js:181-203 | an `equal` leaf with no `search_ref` is false for a negative start, throws for a negative end, and otherwise holds exactly when buffer[start, min(end, len)) equals the bytes |
| `FileType.NotEqualMeaning` | src/sourceChecker/DetectFileType.js:186-206 | a `notEqual` leaf compares from the unshifted `start || 0` up to the clamped, shifted end and holds exactly when that window differs from the bytes; it is false for a negative shifted start, and throws for a negative unshifted start, a negative end, or the NaN end of a missing `end` or an unrecorded search |
| `FileType.NotEqualNegatesEqual` | src/sourceChecker/DetectFileType.js:199-206 | without `search_ref`, both leaves are false for a negative start, throw together, and otherwise `notEqual` is the negation of `equal` |
| `FileType.ShiftedEqualAndNotEqualBothHold` | src/sourceChecker/DetectFileType.js:186-206 | after a recorded search the two leaves are not negations: on [1, 2] with bytes [2], start 0, end 1 and the search recorded at 1, both hold |
| `FileType.EqualOffsetByRef` | src/sourceChecker/DetectFileType.js:186-203 | a recorded `search_ref` index offsets both start and end; a missing end then throws |
| `FileType.IncludesMeaning` | src/sourceChecker/DetectFileType.js:208-213 | `includes` holds exactly when the bytes occur somewhere |
| `FileType.ContainsMeaning` | src/sourceChecker/DetectFileType.js:208-213 | for a leaf with no `search_ref` and a start that is not negative, `contains` holds exactly when the bytes occur in buffer.slice(start or 0, end or len), and `notContains` is its negation |
| `FileType.ContainsNegativeStart` | src/sourceChecker/DetectFileType.js:199-213 | a negative start makes both `contains` and `notContains` false, although `slice` alone would count it from the end |
| `FileType.ContainsIgnoresRef` | src/sourceChecker/DetectFileType.js:186-213 | a recorded `search_ref` does not move the slice: with a start that is not negative, the leaf is the same as without the reference |
| `FileType.SearchMissFails` | src/sourceChecker/DetectFileType.js:115-134 | a search whose bytes are absent makes the rule false, keeps the search data, and lets only an or-list go on |
| `FileType.SearchRecordsIndex` | src/sourceChecker/DetectFileType.js:115-151 | a search that succeeds records under its id the first index where its bytes occur |
| `FileType.LeafStep` | src/sourceChecker/DetectFileType.js:176-223 | a simple leaf that does not throw absorbs its result (its fields when it holds, `false` otherwise), keeps the search data, and `every` goes on as `_isReturnFalse` says |
| `FileType.AndFromTruthy` | src/sourceChecker/DetectFileType.js:153-239 | from a truthy detection, an and-list of simple leaves detects exactly when every leaf holds |
| `FileType.AndListAllHold` | src/sourceChecker/DetectFileType.js:163-239 | an and-list detects exactly when every leaf holds (an empty list detects) and keeps the search data |
| `FileType.OrFromFalse` | src/sourceChecker/DetectFileType.js:153-239 | from a false detection, an or-list detects exactly when some leaf holds |
| `FileType.OrListSomeHolds` | src/sourceChecker/DetectFileType.js:153-239 | a non-empty or-list detects exactly when some leaf holds |
| `FileType.AndListStops` | src/sourceChecker/DetectFileType.js:223-239 | an and-list stops at the first failing leaf: what follows is never evaluated |
| `FileType.OrListStops` | src/sourceChecker/DetectFileType.js:223-239 | an or-list stops at the first leaf that holds |
| `FileType.ValidRuleType` | src/sourceChecker/DetectFileType.js:242-245 | the accepted types are exactly or, and, contains, notContains, equal, notEqual and default |
| `FileType.CheckRules` | src/sourceChecker/DetectFileType.js:306-345 | `_validateRules` reports no problem (the `!invalid` test never fires), and finds ext and mime exactly when some valid rule provides them |
| `FileType.ValidateSignature` | src/sourceChecker/DetectFileType.js:264-303 | the complaint is the first of: missing type, missing rules, missing ext, missing mime, each exactly under its condition |
| `FileType.ValidationErrors` | src/sourceChecker/DetectFileType.js:248-261 | the errors are none exactly when every signature is valid, and each error is a signature's own complaint |
| `FileType.UnsupportedRuleAccepted` | src/sourceChecker/DetectFileType.js:338 | a rule of an unknown type still passes rule validation |
| `FileType.SignatureResultMeaning` | src/sourceChecker/DetectFileType.js:69-72 | a detecting signature gives its own fields, overwritten by those its rules detected |
| `FileType.FirstSignatureWins` | src/sourceChecker/DetectFileType.js:56-75 | `fromBuffer`'s loop gives the result of the first signature that detects |
| `FileType.UnmatchedMeaning` | src/sourceChecker/DetectFileType.js:56-75 | nothing matches exactly when no signature detects and none throws |
| `FileType.TrySignature` | src/sourceChecker/DetectFileType.js:57-64 | one signature's callback throws exactly when the signature has no `rules` or a rule throws on a pass that is run; otherwise it yields the rules' detection on the buffer, or on the recoded text when the first pass detects nothing, `recode_text` is set and the text can be recoded |
| `FileType.TrySignatures` | src/sourceChecker/DetectFileType.js:56-75 | the `every` loop returns the first signature's result, an abort on the first throw, and no match when nothing detects |
| `FileType.TryCustomFunctions` | src/sourceChecker/DetectFileType.js:77-86 | the `every` loop over the custom functions returns the first truthy answer in order, or none |
| `FileType.FirstCustom` | src/sourceChecker/DetectFileType.js:77-86 | the custom functions give nothing exactly when each gives nothing, otherwise the first answer |
| `FileType.Detector.constructor` | src/sourceChecker/DetectFileType.js:5-38 | the detector starts with its signatures, no custom function and no validation |
| `FileType.Detector.AddSignature` | src/sourceChecker/DetectFileType.js:92-95 | the signature is appended and the validation is dropped |
| `FileType.Detector.AddCustomFunction` | src/sourceChecker/DetectFileType.js:98-100 | the function is appended |
| `FileType.Detector.FromBuffer` | src/sourceChecker/DetectFileType.js:41-90 | the signatures are validated once; the response is the specified one: rejected on invalid signatures, the first signature's detection, else the first custom answer |
| `Inkbunny.IdFromSource` | src/sourceChecker/sites/InkbunnySourceChecker.js:38-45 | nothing exactly when no pattern matches; otherwise the capture of the first matching pattern |
| `Inkbunny.ScoreRanks` | src/sourceChecker/sites/InkbunnySourceChecker.js:97 | the score orders matches by md5 first, then dimensions, then file type |
| `Inkbunny.ScoreInjective` | src/sourceChecker/sites/InkbunnySourceChecker.js:97 | the score determines the three match flags |
| `Inkbunny.Candidates` | src/sourceChecker/sites/InkbunnySourceChecker.js:74-100 | one candidate per file, in order, with the md5, dimension and mapped-extension flags against the post |
| `Inkbunny.BestIndex` | src/sourceChecker/sites/InkbunnySourceChecker.js:102-105 | the candidate chosen has the highest score, and no earlier one has as high a score (the sort is stable) |
| `Inkbunny.InternalProcessPost` | src/sourceChecker/sites/InkbunnySourceChecker.js:47-119 | the error record for a missing id, no submission, an unmapped mimetype or no file; otherwise the best candidate |
| `Inkbunny.ProcessPost` | src/sourceChecker/sites/InkbunnySourceChecker.js:121-135 | the data's keys are exactly the supported sources with no entry in the current data, each with its assessment |
| `SourceQueue.FindIndex` | src/sourceChecker/SourceCheckerManager.js:68-94 | `findIndex` gives the first entry with that id, or -1 exactly when there is none |
| `SourceQueue.RemoveAtMeaning` | src/sourceChecker/SourceCheckerManager.js:68 | `splice(i, 1)` removes one entry and keeps the others in order |
| `SourceQueue.RemoveAtDistinct` | src/sourceChecker/SourceCheckerManager.js:68 | removing an entry keeps the ids distinct |
| `SourceQueue.RemoveAtMembers` | src/sourceChecker/SourceCheckerManager.js:68 | removing an entry keeps exactly the entries with other ids |
| `SourceQueue.RemoveFirstMeaning` | src/sourceChecker/SourceCheckerManager.js:67-68 | the queue loses the entry with that id, if any, and nothing else |
| `SourceQueue.ReplaceOrAppendMeaning` | src/sourceChecker/SourceCheckerManager.js:93-98 | the new entry replaces the one with its id in place, or is appended; the ids stay distinct and the other entries stay |
| `SourceQueue.StepsMeaning` | src/sourceChecker/SourceCheckerManager.js:65-116 | the loop keeps the set of recorded ids and the distinct ids of the queue, and collects the unrecorded eligible posts in input order |
| `SourceQueue.IneligibleRemoved` | src/sourceChecker/SourceCheckerManager.js:66-70 | a post that is not pending, is deleted, has no sources or has no supported source is removed from the queue and never enqueued |
| `SourceQueue.Reports` | src/sourceChecker/SourceCheckerManager.js:155-156 | one report per checker, in registration order |
| `SourceQueue.ReportAt` | src/sourceChecker/SourceCheckerManager.js:153-159 | checker j reports on the record as checkers 0 to j - 1 left it: when the record has data, `combinedData` is that data object, so the earlier merges are visible through `current` |
| `SourceQueue.ReportsSeeEarlier` | src/sourceChecker/SourceCheckerManager.js:153-159 | every source an earlier checker reported is in the data a later checker is handed, when the record has data; a record without data is handed to every checker without data |
| `SourceQueue.CombinedMeaning` | src/sourceChecker/SourceCheckerManager.js:149-162 | a key of the merged data comes from the stored data or a report; it takes the value of the last report that has it, else the stored value |
| `SourceQueue.RecentMembers` | src/sourceChecker/SourceCheckerManager.js:33-39 | the entries the prune keeps are exactly those created after the prune date |
| `SourceQueue.PruneStep` | src/sourceChecker/SourceCheckerManager.js:34-38 | one step of the backward loop keeps the invariant |
| `SourceQueue.QueuedIsQueued` | src/sourceChecker/SourceCheckerManager.js:173-180 | a post `checkFor` answers queued for is in the queue after `queuePosts` with the post keyed by its `_id`, so a second `checkFor` finds it and does not queue it again |
| `SourceQueue.RequeuedAsWritten` | src/sourceChecker/SourceCheckerManager.js:170-177 | as written, the entry queued for a post is keyed by the posts document's absent `id`, so it never matches the number `checkFor` looks for and a second call queues the post again |
| `SourceQueue.Manager.constructor` | src/sourceChecker/SourceCheckerManager.js:4-13 | the empty queue, with the given checkers and stored records |
| `SourceQueue.Manager.IsSupportedSource` | src/sourceChecker/SourceCheckerManager.js:54-60 | true exactly when some checker supports the source |
| `SourceQueue.Manager.HasAnySupportedSources` | src/sourceChecker/SourceCheckerManager.js:44-52 | true exactly when some source is supported by some checker |
| `SourceQueue.Manager.AllSourcesChecked` | src/sourceChecker/SourceCheckerManager.js:75 | true exactly when every supported source has stored data |
| `SourceQueue.Manager.Prune` | src/sourceChecker/SourceCheckerManager.js:29-42 | the queue keeps exactly the entries newer than 30 days, in order, and so do the stored records |
| `SourceQueue.Manager.QueuePost` | src/sourceChecker/SourceCheckerManager.js:65-116 | one post of the loop has the effect of the step specification on the queue, the records and the posts waiting to be inserted |
| `SourceQueue.Manager.QueuePosts` | src/sourceChecker/SourceCheckerManager.js:62-128 | the queue and the stored records become those of the specification: ineligible posts removed, fully checked posts skipped, recorded posts replaced or appended, unrecorded ones appended in order |
| `SourceQueue.Manager.Overlay` | src/sourceChecker/SourceCheckerManager.js:157-159 | copying a report's entries over the merged data gives the data overwritten by the report |
| `SourceQueue.Manager.ProcessPost` | src/sourceChecker/SourceCheckerManager.js:148-163 | the merged data is the stored data overwritten by each checker's report in order, each checker handed the record with the data merged before it |
| `SourceQueue.Manager.ProcessNext` | src/sourceChecker/SourceCheckerManager.js:130-146 | an empty queue changes nothing; otherwise the head is shifted off, and its record is marked checked with the data merged as `processPost` merges it, each checker seeing the earlier reports |
| `SourceQueue.Manager.CheckFor` | src/sourceChecker/SourceCheckerManager.js:165-188 | the stored data when there is some; otherwise, from the posts document read by `_id`, not indexed, not pending, unsupported, or queued, in that order; a queued post not yet in the queue is queued under its `_id`, and nothing else changes |
| `UserScript.ParseQuery` | e621AdvancedSearch.user.js:433-443 | the object is filled pair by pair from the query string without one leading `?`, split on `&` |
| `UserScript.PairMeaning` | e621AdvancedSearch.user.js:438-439 | `k=v` has key `k` and value `v`, even when `v` holds more `=` |
| `UserScript.PairWithoutValue` | e621AdvancedSearch.user.js:439 | a pair without `=` maps its key to `""` |
| `UserScript.QueryLastWins` | e621AdvancedSearch.user.js:437-440 | a key is present exactly when some pair has it, and holds the value of the last pair with that key |
| `UserScript.ExampleRejoinsValue` | e621AdvancedSearch.user.js:435-440 | `?a=b=c` maps `a` to `b=c` |
| `UserScript.JoinIsTerms` | e621AdvancedSearch.user.js:256-263 | `"id:" + ids.join(" ~ id:")` is the ids as `id:` terms separated by ` ~ ` |
| `UserScript.IdListMeaning` | e621AdvancedSearch.user.js:253-265 | a set or pool is replaced by `( id:i1 ~ id:i2 … )`, one term per id in order, and an empty one by `""` |
| `UserScript.SearchData.constructor` | e621AdvancedSearch.user.js:18-22 | no search loading, empty text, no cursor |
| `UserScript.SearchData.BeginSearch` | e621AdvancedSearch.user.js:249-271 | the search is loading; the cursor is dropped exactly when the expanded text differs from the stored one; the text is stored |
| `UserScript.StatusOf` | e621AdvancedSearch.user.js:111-122 | deleted exactly when `isDeleted`; flagged when not deleted and flagged; pending when neither and pending; otherwise active |
| `UserScript.StatusFlags` | e621AdvancedSearch.user.js:124-138 | P, C, U and F appear exactly for a truthy parent, children, pending and flagged, each at most once and in that order |

## Left out

- Persistence and the network are left out. MongoDB collections are maps.
  `bulkWrite`, `insertMany`, `deleteMany`, `fetch`, export download, gzip, CSV
  parsing, puppeteer and JSDOM are not modelled. Upstream pages and lookups are
  sequences and functions passed in.
- Timers and concurrency are left out: the `setTimeout` rescheduling of
  `pruneRoutine`, `queueRoutine` and the update loop, the `queueRunning` flag, and
  the `wait` polling. `SourceQueue.Manager.ProcessNext` is one turn of
  `queueRoutine`. The 1000 ms spacing of `makeRequest` is proved for sequential
  calls only: overlapping calls read the same `lastRequestTime`.
- `Sync.Requester.MakeRequest`'s clock is a parameter (`now`, and how late the timer fires).
- `SourceCheckerManager`'s `setup` (loading checkers from files) and `start` (loading
  the queue from the database) are left out. The checkers are passed to the constructor.
- `SourceQueue.Manager.QueuePosts` does not model `insertMany` failing on a duplicate
  key.
- `SourceQueue.Manager.CheckFor` takes the id as a number. The `checksource` route
  hands over the string `req.params.id`, and lines 170 and 176 use it unparsed; how
  the database matches a string against a numeric `_id` is not modelled. The
  as-written hand-over of the second `checkFor` finding is modelled on the `_id`
  fields of the queue only (`SourceQueue.RequeuedAsWritten`); what the database
  does with the record inserted under an undefined `_id` is not modelled.
- `PostRecords.Utilities.AddTag` stores the tag under its name and replaces a stored
  tag of that name. The source's `insertOne` (src/structures/Utilities.js:482-484)
  keys the document by `_id` and throws when that `_id` is taken, which would reject
  `getNewTag` and `getOrAddTag` and leave `expandTagsToArray`'s promise unresolved.
  This is reachable because `getTag` searches by `name_matches`: a reply whose first
  row has another name stores that tag under the other name, so the next ask for
  the same name fetches and inserts it again (`Sync.MismatchedReplyRefetches`).
  Tags are keyed by name throughout the model, so two stored tags sharing a name
  are not represented either.
- `ExportDiff.AliasUpdate` is the corrected half of the second finding: it resolves
  an alias's consequent from the incoming row's `consequent_name`, not from the
  stored document's absent field as lines 328-332 do. The as-written lookup is
  `ExportDiff.StaleAliasAsWritten`.
- `PostRecords.Utilities.GetTagByName` and `UserScript.ParseQuery` model a JavaScript
  `{}` as a map with no keys. Keys inherited from `Object.prototype` are not modelled.
  In the source, `tagCache["constructor"]` is the truthy `Object` function, so
  `getTagByName("constructor")` answers it instead of querying the tags collection.
  `expandTagsToArray` then throws at `toReturn[tag.category].push` inside its promise
  executor, and the promise never settles. Likewise, `query["__proto__"] = v` with a
  string `v` creates no key, whereas the model maps `"__proto__"` to `v`.
- `PostRecords.Record` leaves out eight fields that `createPost` copies unchanged
  and that decide nothing in the modelled code: `rating`, `favoriteCount`, `score`,
  `fileSize`, `commentCount`, `isRatingLocked`, `isStatusLocked` and `isNoteLocked`.
- `Inkbunny.BestIndex` models the descending stable sort only through its first
  element, which is the one returned.
- Inkbunny's `==` comparisons are exact equality. JavaScript number/string coercion
  is not modelled.
- Regular expressions are abstract, and only the capture a pattern returns is modelled:
  - each checker's `supportsSource` patterns;
  - the Inkbunny id patterns;
  - the tag-name `$regex` match of a wildcard;
  - whether `new RegExp` accepts a wildcard's pattern, which is a parameter
    (`compiles`) of `QueryGroups.ConvertToTagIds`.
- The `set:`/`pool:` replacement over the search text (`replaceAsync` with a global
  regex, and the id lookups) is left out. `UserScript.IdListMeaning` covers the
  replacement string only.
- `decodeURIComponent` is an abstract function, so its `URIError` on malformed input
  is not modelled.
- Only the result of `_getTextBuffer` (jschardet and iconv) is modelled: it is a
  recoding function passed in. Because that function is deterministic, the
  `textRecoded` cache changes no answer and is not modelled.
- The hexadecimal parsing of rule bytes is left out. Rules carry their bytes already
  decoded.
- `Buffer.indexOf` takes only the needle in `_detect`, so a search looks through the
  whole buffer. The search's `start`/`end` parameters therefore have no effect and
  are not modelled.
- `try`/`catch` paths that only log are left out. A throw is an explicit outcome
  where it changes a result: `Thrown`, `Threw`, `Aborted`, and the error record.
- The floating-point paths are left out: `parseFloat` duration and `scanDataFloat`.
- `Sync.Build` takes a listing entry's duration as already a number. The
  `post.duration || 0` of src/structures/E621Requester.js:56 and :85, which turns a null
  or missing duration into 0, is not represented.
  `new Date` parsing is left out too; dates are milliseconds.
- `UserScript.StatusFlags` models `statusFlags.push` of one-letter strings followed
  by `join("")` as a string built letter by letter.
- The DOM construction of the user script and the Express routes are left out.
- The query compiler does not exist in these files, so it is not modelled:
  `buildQueryFromGroup` is an empty loop and `performSearch` returns `[]`.
- The other site checkers are fetch adapters and are not modelled. Their per-source
  loop and scoring repeat Inkbunny's.
- The EBML element named `CRC-32` is spelled `CRC32` in the model's element names.
  The unknown-size data size of RFC 8794 section 6.2 is not handled by the code, and
  the model does not add it.
- Some quirks are modelled as written and not fixed:
  - `getNewTagAliases` continues with `addNewPosts`;
  - `_validateRules`' `if (!invalid)` never fires (`FileType.UnsupportedRuleAccepted`);
  - only the first `*` of a wildcard becomes `.*`;
  - `notEqual` compares from the unshifted `rule.start || 0`, so after a recorded
    search it is not the negation of `equal` (`FileType.ShiftedEqualAndNotEqualBothHold`).

## Findings

| source | as written | input that shows it | evidently intended | confidence | as-written member | corrected member |
|---|---|---|---|---|---|---|
| src/structures/Utilities.js:307 | the last post batch is passed to `update` as unresolved `createPost` promises (line 292 awaits `Promise.all`, line 307 does not), so every row's id is undefined and each row is inserted as an empty document | a final batch holding one post that is already stored with the same `updatedAt` | the last batch is resolved like the others, so an up-to-date post gets no write | not executed | `ExportDiff.FinalPostBatchDiffers` | `ExportDiff.PostRowWrites` |
| src/structures/Utilities.js:328-332 | the consequent of a stored alias is looked up by `tagAlias.consequent_name`, a field the stored document does not have | stored alias 1 `a -> 5`, incoming active row `a -> c`, tag `c` stored with id 9 | look up the incoming row's `consequent_name`, so the alias is updated to 9 | not executed | `ExportDiff.StaleAliasAsWritten` | `ExportDiff.AliasRowWrites` |
| src/sourceChecker/SourceCheckerManager.js:170-177 | `checkFor` hands the posts document from `getPost` to `queuePosts`, which keys the queue entry and the new record by `post.id`; the document is keyed by `_id` and has no `id` (src/structures/Utilities.js:168) | post 5 stored pending with a supported source and no `sourceChecker` record, then `checkFor(5)` twice: the first queues an entry whose `_id` is undefined, the second does not find it and queues another | hand the post over with `id` set to its `_id`, so the entry is keyed by 5 and found on the second call | not executed | `SourceQueue.RequeuedAsWritten` | `SourceQueue.QueuedIsQueued` |
