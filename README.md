# Blaze, modelled in Dafny

Blaze is a social-media application: users write posts with hashtags, like, repost, bookmark and
comment on them (with nested replies), search and explore posts, follow trending tags and receive
notifications. The server is a set of tRPC routers over a PostgreSQL schema; the client keeps a
query cache that its hooks patch optimistically before a mutation is acknowledged and roll back
when it fails. The repository holds two generations of the app: the current one under `apps/web`
and an older one under `src`.

This project models the core of both: the routers that read and write the tables, the client
hooks that patch the cache, the search tokenizer, the comment forms, the validation schemas and the
routing middleware. It proves properties of that model.

## Layout

- `wrappers.dfy`, `text.dfy`, `ordering.dfy`, `rows.dfy`: these hold `Option`/`Result` and the error codes, plus
  ASCII lower-casing, `trim` and substring search. They also hold the stable descending sort behind every
  `orderBy ... desc` with `limit`, and the row-level `filter`/`map`/`find`.
- `numbers.dfy`: `Number.parseInt` with no radix, and the decimal text of an integer that it reads back.
- `schema.dfy`: one datatype per table row and the `Tables` value. `Valid` gives the tables' invariants:
  serial, unique ids below each identity counter, and foreign keys that point at existing rows.
- `store.dfy`: `class Database { var tables }`. Every write of a router is a method `modifies db`. Its
  `ensures` ties the new tables to a pure specification function of the old ones, and states that `Valid` is kept.
- `views.dfy`: the post projection the routers return (counts, and caller-relative flags).
- `toggle_rule.dfy`: the shared delete-all-or-insert-one rule of `toggleLike`, `toggleRepost` and `bookmark.toggle`.
- `pagination.dfy`: the `limit + 1` fetch, `pop` and `nextCursor` pattern, as written and with an inclusive bound.
- One module per router: `post_router`, `comment_router`, `bookmark_router`, `search_router`,
  `hashtag_router`, `notification_router`, `user_router`, and the older `legacy_post_router`.
- `query_cache.dfy`: `class Cache`, with the cached data and the keys that were cancelled and invalidated.
  `setData` with an undefined value leaves the entry as it was, the way the query library treats it.
- One module per hook file: `api_hooks` (`useLikePost`, `useRepostPost`, `useBookmarkPost`),
  `legacy_use_post`, `app_use_post` and `use_post`.
- The client logic: `search_query`, `comment_box`, `legacy_comment_box`, `validation`, `middleware`.

Timestamps (`now`), the session and the outcome of a network call are parameters. A protected procedure
takes the signed-in caller's id, because the session gate lives in `trpc.ts`, which is not part of this
model. A database error is modelled where the schema makes one certain, and leaves the tables as they were.
This covers a foreign key that points nowhere (to a post, a comment or a hashtag, in both schemas), a `varchar`
overflow and a unique clash; it yields `InternalError`.

## Model

| member | source | states |
|---|---|---|
| `Text.Lower` | apps/web/src/server/api/routers/hashtags.ts:28 | lower-casing leaves no upper-case letter and changes exactly the upper-case ones |
| `Text.LowerStr` | apps/web/src/server/api/routers/hashtags.ts:28 | ASCII lower-casing keeps the length and lower-cases each character |
| `Text.Utf16Length` | apps/web/src/features/comments/components/comment-box.tsx:45 | JavaScript's `length` is at least the character count and at most twice it; it equals the character count exactly when no character is astral, and twice it when every character is |
| `Text.LowerStrIdempotent` | apps/web/src/server/api/routers/user.ts:52 | lower-casing twice is lower-casing once |
| `Text.Contains` | apps/web/src/server/api/routers/search.ts:85-87 | the pattern `%q%` matches exactly when the query occurs somewhere in the text |
| `Text.Trim` | apps/web/src/features/comments/components/comment-box.tsx:144 | `trim` leaves no white space at either end, and is empty exactly when the text is all white space, where white space is JavaScript's set: the line terminators, tab, vertical tab, form feed, the byte-order mark and every Unicode space separator |
| `Text.SpaceSeparatorsTrimmed` | apps/web/src/features/comments/components/comment-box.tsx:144 | text made only of the ogham, typographic, narrow, mathematical and ideographic spaces trims to nothing |
| `ToggleRule.ToggleFlips` | apps/web/src/server/api/routers/post.ts:117-138 | after a toggle the (post, caller) pair exists exactly when it did not exist before |
| `ToggleRule.DeletePairKeepsOthers` | apps/web/src/server/api/routers/post.ts:125-132 | deleting the pair's rows a second time removes nothing more |
| `ToggleRule.ToggleKeepsOthers` | apps/web/src/server/api/routers/post.ts:117-138 | every row that belongs to another (post, user) pair survives the toggle, in table order |
| `ToggleRule.ToggleKeepsOtherPairs` | apps/web/src/server/api/routers/post.ts:117-138 | whether any other (post, user) pair exists is unchanged |
| `ToggleRule.CountSplits` | apps/web/src/server/api/routers/post.ts:51-52 | a post's count is the caller's rows for it plus the other users' rows for it |
| `ToggleRule.ToggleCount` | apps/web/src/server/api/routers/post.ts:117-138 | the post's count drops by the caller's row count when the caller had reacted, and rises by one otherwise |
| `ToggleRule.ToggleKeepsOtherPosts` | apps/web/src/server/api/routers/post.ts:117-138 | the count of every other post is unchanged |
| `ToggleRule.OtherPostUnaffected` | apps/web/src/server/api/routers/post.ts:125-132 | deleting the pair's rows leaves every other post's rows as they were |
| `ToggleRule.ToggleTwiceRestores` | apps/web/src/server/api/routers/post.ts:117-138 | starting from no reaction, two toggles restore the rows exactly |
| `ToggleRule.ToggleFlagAndCount` | apps/web/src/server/api/routers/post.ts:51-59 | the caller's `hasLiked`/`hasReposted` flag is negated, and its count moves as in `ToggleCount` |
| `ToggleRule.ToggleKeepsSerial` | apps/web/src/server/api/routers/post.ts:134-137 | row ids stay unique and below the identity counter, which advances only on insert |
| `ToggleRule.ToggleKeepsRefs` | apps/web/src/server/api/routers/post.ts:134-137 | when existing rows are deleted, or the post exists, every row still refers to an existing post |
| `ToggleRule.WithRows` | apps/web/src/server/api/routers/post.ts:117-138 | writing one reaction table changes that table and its counter and nothing else |
| `ToggleRule.ReactionTableValid` | packages/database/src/schema/likes.ts:5-13 | every reaction table of a valid database has unique serial ids and refers to existing posts |
| `ToggleRule.WithRowsValid` | packages/database/src/schema/likes.ts:5-13 | writing back a serial, well-referring reaction table keeps the database valid |
| `ToggleRule.ToggleSpecValid` | apps/web/src/server/api/routers/post.ts:133-137 | the toggle fails exactly when it would insert a row for a missing post (the foreign key rejects it); otherwise the database stays valid |
| `PostRouter.ToggleLike` | apps/web/src/server/api/routers/post.ts:114-139 | the new tables are the toggle rule applied to `post_likes`, or unchanged on failure; validity is kept |
| `PostRouter.ToggleRepost` | apps/web/src/server/api/routers/post.ts:275-300 | the new tables are the toggle rule applied to `reposts`, or unchanged on failure; validity is kept |
| `PostRouter.ToggleLikeView` | apps/web/src/server/api/routers/post.ts:49-60 | on an existing post, the projected `hasLiked` is negated, `likes` moves by the caller's rows or by one, and no other field of the view changes |
| `PostRouter.ToggleRepostView` | apps/web/src/server/api/routers/post.ts:49-60 | the same for `hasReposted` and `reposts` |
| `PostRouter.ToggleLikeTwice` | apps/web/src/server/api/routers/post.ts:114-139 | liking and unliking a post not yet liked leaves `post_likes` as it was |
| `PostRouter.Repost` | apps/web/src/server/api/routers/post.ts:252-273 | the new tables are those of the repost rule, or unchanged on failure; validity is kept |
| `PostRouter.RepostOutcome` | apps/web/src/server/api/routers/post.ts:255-272 | CONFLICT exactly when the caller already reposted; success exactly when not reposted and the post exists, appending one row so that the pair has exactly one row |
| `PostRouter.AddComment` | apps/web/src/server/api/routers/post.ts:141-185 | returns the inserted comment and commits, or returns the error and leaves the tables unchanged; validity is kept |
| `PostRouter.AddCommentValid` | apps/web/src/server/api/routers/post.ts:149-182 | a successful insert keeps the database valid |
| `PostRouter.AddCommentEffect` | apps/web/src/server/api/routers/post.ts:149-182 | NOT_FOUND for a missing post; success exactly for 1..256 characters on an existing post; the post's `commentCount` rises by one, one top-level comment by the caller with a fresh id is appended, and the reaction tables are untouched |
| `PostRouter.GetLatest` | apps/web/src/server/api/routers/post.ts:31-61 | at most 10 views, newest first, each the projection of a stored post |
| `PostRouter.GetLatestKeepsNewest` | apps/web/src/server/api/routers/post.ts:32-47 | a post left out of the feed is no newer than any post in it |
| `PostRouter.GetLatestFromTable` | apps/web/src/server/api/routers/post.ts:32-47 | the feed repeats no row: its views are the projections of a sub-multiset of the posts table, one view per row |
| `PostRouter.GetLatestComplete` | apps/web/src/server/api/routers/post.ts:32-47 | while the table holds at most 10 posts, every post is in the feed |
| `PostRouter.GetLatestDistinct` | apps/web/src/server/api/routers/post.ts:32-61 | with unique post ids, no two views of the feed share an id, so each post appears at most once |
| `PostRouter.GetByPostId` | apps/web/src/server/api/routers/post.ts:63-112 | an input `parseInt` reads as `NaN` is a database error; otherwise NOT_FOUND exactly when no post has the parsed id, and else the projection of that post |
| `PostRouter.GetByPostIdReadsPrefix` | apps/web/src/server/api/routers/post.ts:64-67 | the decimal id of a stored post, alone or followed by text that does not start with a digit, returns that post |
| `Numbers.ParseIntPrefix` | apps/web/src/server/api/routers/post.ts:67 | `Number.parseInt` reads back the decimal text of every integer, and stops at the first character after it that is not a digit |
| `Numbers.ParseIntNaN` | apps/web/src/server/api/routers/post.ts:67 | text whose first non-blank character is neither a sign nor a digit is `NaN` |
| `Numbers.ParseIntLetters` | apps/web/src/server/api/routers/post.ts:67 | `parseInt("abc")` is `NaN` |
| `Numbers.ParseIntDigitsThenLetters` | apps/web/src/server/api/routers/post.ts:67 | `parseInt("12abc")` is 12 |
| `Numbers.NatToStringValue` | apps/web/src/server/api/routers/post.ts:67 | the decimal digits written for a number are worth that number |
| `PostRouter.GetComments` | apps/web/src/server/api/routers/post.ts:187-250 | NOT_FOUND exactly for a missing post; otherwise every top-level comment of the post appears, each with at most two of its own replies |
| `PostRouter.ThreadsCover` | apps/web/src/server/api/routers/post.ts:213-247 | the threads built from the top-level comments are sound and cover every top-level comment |
| `Views.CommentsOfPost` | apps/web/src/server/api/routers/post.ts:44 | every comment listed belongs to the post |
| `Views.ProjectBasic` | apps/web/src/server/api/routers/post.ts:49-60 | the counts are row counts; each flag holds exactly when the signed-in caller has a row; a flag is always counted |
| `Views.ProjectFull` | apps/web/src/server/api/routers/bookmark.ts:77-86 | as `ProjectBasic`, plus `isBookmarked` exactly when the caller has a bookmark, and the post's tag names |
| `Views.CountedWhenFlagged` | apps/web/src/server/api/routers/post.ts:51-59 | a set flag implies a count of at least one |
| `CommentRouter.CreateChildComment` | apps/web/src/server/api/routers/comments.ts:7-75 | returns the inserted reply and commits, or returns the error and leaves the tables unchanged; validity is kept |
| `CommentRouter.CreateChildValid` | apps/web/src/server/api/routers/comments.ts:15-73 | a successful reply keeps the database valid |
| `CommentRouter.CreateChildParts` | apps/web/src/server/api/routers/comments.ts:35-62 | the transaction only bumps counters in place and appends one comment with the next id on an existing post |
| `CommentRouter.CreateChildMissingParent` | apps/web/src/server/api/routers/comments.ts:26-31 | a missing parent gives NOT_FOUND |
| `CommentRouter.CreateChildEffect` | apps/web/src/server/api/routers/comments.ts:15-73 | success exactly for 1..256 characters under a parent whose post exists; the reply has depth parent + 1, the parent's post and a fresh id; the parent's `commentCounts` and the post's `commentCount` rise by one; nothing else changes |
| `CommentRouter.GetChildComments` | apps/web/src/server/api/routers/comments.ts:76-95 | exactly the comments whose parent is the given comment |
| `BookmarkRouter.Toggle` | apps/web/src/server/api/routers/bookmark.ts:6-23 | the toggle rule applied to `bookmarks`; the reply is `bookmarked: false` after a delete and `true` after an insert; validity is kept |
| `BookmarkRouter.BookmarkStatus` | apps/web/src/server/api/routers/bookmark.ts:25-30 | `bookmarked` exactly when the caller has a bookmark row for the post |
| `BookmarkRouter.StatusAfterToggle` | apps/web/src/server/api/routers/bookmark.ts:6-30 | the toggle's reply is the new status and the negation of the old one; a rejected insert keeps the status |
| `BookmarkRouter.ToggleKeepsOtherStatus` | apps/web/src/server/api/routers/bookmark.ts:6-23 | the status of every (user, post) pair is kept when a toggle fails, and the other pairs' status is kept always |
| `BookmarkRouter.LimitOf` | apps/web/src/server/api/routers/bookmark.ts:35 | the limit defaults to 10; a given limit must lie in 1..100, otherwise BAD_REQUEST |
| `BookmarkRouter.BookmarkView` | apps/web/src/server/api/routers/bookmark.ts:77-86 | a bookmark's post in its full view: present exactly when the post exists, with the caller's three flags |
| `BookmarkRouter.ProjectBookmarks` | apps/web/src/server/api/routers/bookmark.ts:77-86 | every fetched bookmark is projected in order; a missing post fails the read |
| `BookmarkRouter.GetBookmarkedPosts` | apps/web/src/server/api/routers/bookmark.ts:39-89 | the `let`/`pop` body returns the page of the specification |
| `BookmarkRouter.BookmarkedPostsPage` | apps/web/src/server/api/routers/bookmark.ts:40-88 | at most `limit` items, newest bookmark first, all below a truthy cursor, each the view of its bookmark, and the cursor of the fetched page |
| `BookmarkRouter.PageRowsBelowCursor` | apps/web/src/server/api/routers/bookmark.ts:42-45 | the fetched rows are stored bookmarks with strictly decreasing ids below the cursor |
| `BookmarkRouter.OthersBookmarksListed` | apps/web/src/server/api/routers/bookmark.ts:42-45 | as written, another user's bookmark is listed to the caller with `isBookmarked: false` |
| `BookmarkRouter.PoppedBookmarkSkipped` | apps/web/src/server/api/routers/bookmark.ts:70-74 | as written, the popped row becomes `nextCursor`, and the next page's `id < cursor` skips it |
| `BookmarkRouter.MyBookmarksAreMine` | apps/web/src/server/api/routers/bookmark.ts:42-45 | corrected: every listed view is bookmarked by the caller |
| `BookmarkRouter.MyBookmarksPagesContinue` | apps/web/src/server/api/routers/bookmark.ts:70-74 | corrected: every row is on this page or the next, no row repeats, and the next page starts at the popped row |
| `Pagination.Fetch` | apps/web/src/server/api/routers/bookmark.ts:42-45 | `findMany` with a `where` and a descending order: at most `n` matching stored rows, sorted |
| `Pagination.FetchTop` | apps/web/src/server/api/routers/bookmark.ts:42-45 | every matching row left out sits below a full page |
| `Pagination.FetchStrict` | apps/web/src/server/api/routers/bookmark.ts:45 | with unique keys the fetched keys strictly decrease |
| `Pagination.PageOf` | apps/web/src/server/api/routers/bookmark.ts:70-74 | a next cursor exactly when more than `limit` rows came back, and then the id of row `limit`; the items are a prefix of the fetched rows |
| `Pagination.PopExtra` | apps/web/src/server/api/routers/bookmark.ts:70-74 | the `pop` computes `PageOf` |
| `Pagination.ListPage` | apps/web/src/server/api/routers/bookmark.ts:42-74 | at most `limit` stored, matching rows in descending order |
| `Pagination.ExactFitHasNoNext` | apps/web/src/server/api/routers/bookmark.ts:70-74 | when at most `limit` rows match, there is no next cursor |
| `Pagination.OverflowHasNext` | apps/web/src/server/api/routers/bookmark.ts:70-74 | when more rows match, the page is full and a next cursor is set |
| `Pagination.PoppedRowSkipped` | apps/web/src/server/api/routers/bookmark.ts:44 | as written, the row that yields the cursor is on neither this page nor the next |
| `Pagination.NextPageContinues` | apps/web/src/server/api/routers/bookmark.ts:44 | corrected inclusive bound: every row is on this page or a later one, and none repeats |
| `Pagination.NextPageStartsAtPopped` | apps/web/src/server/api/routers/bookmark.ts:70-74 | corrected: the next page starts at the popped row |
| `Pagination.PoppedRow` | apps/web/src/server/api/routers/bookmark.ts:70-74 | corrected: the popped row matches the query and the cursor is its key |
| `SearchRouter.All` | apps/web/src/server/api/routers/search.ts:23-52 | at most five users and five hashtags |
| `SearchRouter.AllUsersMatch` | apps/web/src/server/api/routers/search.ts:24-34 | every listed user has the lower-cased query inside its lower-cased name or username |
| `SearchRouter.AllUsersComplete` | apps/web/src/server/api/routers/search.ts:25-34 | when fewer than five users match, every matching user is listed |
| `SearchRouter.AllHashtags` | apps/web/src/server/api/routers/search.ts:36-46 | hashtags come by decreasing distinct-post count, and a matching tag left out counts no more than each of five listed ones |
| `SearchRouter.Usernames` | apps/web/src/server/api/routers/search.ts:75 | no filters give no usernames |
| `SearchRouter.HashtagFilters` | apps/web/src/server/api/routers/search.ts:77 | no filters give no hashtag names |
| `SearchRouter.FromFilterName` | apps/web/src/server/api/routers/search.ts:75 | `from:name` yields `name`, and only the second `:`-separated field is taken |
| `SearchRouter.TagFilterName` | apps/web/src/server/api/routers/search.ts:75-77 | `#tag` yields `tag` without its `#` and yields no username |
| `SearchRouter.UserIdsOf` | apps/web/src/server/api/routers/search.ts:79-82 | exactly the ids of the users whose username is among the names |
| `SearchRouter.Conditions` | apps/web/src/server/api/routers/search.ts:84-107 | at most four conditions |
| `SearchRouter.PushConditions` | apps/web/src/server/api/routers/search.ts:84-107 | the `push` sequence builds the condition list of the specification |
| `SearchRouter.HoldsAllAppend` | apps/web/src/server/api/routers/search.ts:111-115 | `and(...conditions)` over two lists holds when both hold |
| `SearchRouter.SingleCond` | apps/web/src/server/api/routers/search.ts:111-115 | `and` of one condition is that condition |
| `SearchRouter.ContentCondsMeaning` | apps/web/src/server/api/routers/search.ts:85-87 | the content condition holds when the lower-cased content contains the lower-cased query, and is absent for an empty query |
| `SearchRouter.DateCondsMeaning` | apps/web/src/server/api/routers/search.ts:89-93 | with a `from` date, `createdAt` lies between it and the `to` date (now by default) |
| `SearchRouter.AuthorCondsMeaning` | apps/web/src/server/api/routers/search.ts:95-97 | with resolved users, the author is one of them |
| `SearchRouter.TagCondsMeaning` | apps/web/src/server/api/routers/search.ts:99-107 | with hashtag filters, the post is linked to a tag whose name is listed |
| `SearchRouter.ConditionsMeaning` | apps/web/src/server/api/routers/search.ts:84-115 | a post passes exactly when it passes the content, date, author and hashtag tests |
| `SearchRouter.UnresolvedAuthorsDoNotNarrow` | apps/web/src/server/api/routers/search.ts:95-97 | `from:` names that match no user add no condition, so they narrow nothing |
| `SearchRouter.Explore` | apps/web/src/server/api/routers/search.ts:70-158 | the `let`/`pop` body returns the page of the specification |
| `SearchRouter.ExploreEarlyReturn` | apps/web/src/server/api/routers/search.ts:73 | an empty query with no date range and no filters returns an empty page; an empty filter list is not early-returned and pages through every post |
| `SearchRouter.ExplorePageRows` | apps/web/src/server/api/routers/search.ts:109-156 | at most `limit` items, each the full view of a stored post passing the conditions and the cursor bound |
| `SearchRouter.ExploreBelowCursor` | apps/web/src/server/api/routers/search.ts:109-156 | with a truthy cursor every item's id is below the cursor |
| `SearchRouter.ExplorePageOrder` | apps/web/src/server/api/routers/search.ts:119 | items are in ascending `createdAt` for `oldest` and descending otherwise |
| `SearchRouter.ExplorePageNext` | apps/web/src/server/api/routers/search.ts:140-144 | a next cursor exactly when more than `limit` posts pass, and then the id of the popped post |
| `SearchRouter.ExplorePoppedSkipped` | apps/web/src/server/api/routers/search.ts:140-144 | as written, for every sort, the popped post passes the search and becomes the cursor, and no item of the page that cursor asks for is that post (and lines 113-117) |
| `SearchRouter.ExploreOldestRepeats` | apps/web/src/server/api/routers/search.ts:113-119 | as written, with `oldest` the second page starts with the same post as the first |
| `SearchRouter.ConditionsIgnoreCursor` | apps/web/src/server/api/routers/search.ts:84-107 | the conditions do not depend on the cursor |
| `SearchRouter.ExploreSpecPage` | apps/web/src/server/api/routers/search.ts:109-158 | the result is the fetched page projected item by item |
| `SearchRouter.FirstRowRepeats` | apps/web/src/server/api/routers/search.ts:113-119 | in ascending order the oldest row has the least id, so `id < cursor` admits it again |
| `SearchRouter.MinRowUnique` | apps/web/src/server/api/routers/search.ts:109-119 | the first row of a wider query stays first in a narrower one that keeps it |
| `SearchRouter.OldestKeysUnique` | apps/web/src/server/api/routers/search.ts:119 | ordering by `createdAt` is strict when creation times are distinct |
| `SearchRouter.OlderHasSmallerId` | apps/web/src/server/api/routers/search.ts:119 | when ids follow creation order, an older post has a smaller id |
| `SearchRouter.IdOrderFacts` | apps/web/src/server/api/routers/search.ts:114-119 | the corrected order key is strict and agrees with the id up to sign |
| `SearchRouter.ExploreByIdContinues` | apps/web/src/server/api/routers/search.ts:110-144 | corrected: ordered by id with a bound matching the order, every post is on this page or the next, none repeats, and the next page starts at the popped post |
| `HashtagRouter.Normalize` | apps/web/src/server/api/routers/hashtags.ts:90 | a tag is lower-cased and loses one leading `#`; the result holds no upper-case letter |
| `HashtagRouter.NormalizeDropsOneHash` | apps/web/src/server/api/routers/hashtags.ts:90 | only the first `#` is dropped: `##x` normalises to `#x` |
| `HashtagRouter.Resolve` | apps/web/src/server/api/routers/hashtags.ts:92-102 | a successful find-or-create yields one hashtag record per tag name |
| `HashtagRouter.AfterAfter` | apps/web/src/server/api/routers/hashtags.ts:92-102 | the tag rows created by consecutive steps of the find-or-create accumulate in order |
| `HashtagRouter.FindOrCreate` | apps/web/src/server/api/routers/hashtags.ts:92-102 | the loop over the tag names computes exactly the find-or-create specification |
| `HashtagRouter.ResolveFacts` | apps/web/src/server/api/routers/hashtags.ts:92-102 | the tag table only grows, keeps unique names and serial ids, every record is a table row named as its tag, and every new row is a requested name not there before |
| `HashtagRouter.InsertKeepsTagNames` | apps/web/src/server/api/routers/hashtags.ts:98 | inserting a tag with a new name keeps tag names unique |
| `HashtagRouter.ResolveKeeps` | apps/web/src/server/api/routers/hashtags.ts:92-102 | the table-shape half of the find-or-create facts, by induction over the names |
| `HashtagRouter.ResolveRecords` | apps/web/src/server/api/routers/hashtags.ts:94-100 | the record for each name is a row of the resulting table with that name |
| `HashtagRouter.ResolveFails` | apps/web/src/server/api/routers/hashtags.ts:98 | the find-or-create fails, with an internal error, exactly when some name is new and longer than the 50-character column |
| `HashtagRouter.ExistingTagReused` | apps/web/src/server/api/routers/hashtags.ts:94-96 | a name already in the table gets the existing row, not a new one |
| `HashtagRouter.Links` | apps/web/src/server/api/routers/hashtags.ts:104-109 | one link row per record, joining the new post's id to the record's id |
| `HashtagRouter.Create` | apps/web/src/server/api/routers/hashtags.ts:72-114 | the transaction commits the specified post, tags and links or, on error, leaves every table as it was; the tables stay valid |
| `HashtagRouter.PrefixKeepsHashtagIds` | apps/web/src/server/api/routers/hashtags.ts:98 | appending tag rows keeps every existing tag id present |
| `HashtagRouter.LinksKeepRefs` | apps/web/src/server/api/routers/hashtags.ts:104-109 | links to existing posts and tags keep every reference valid |
| `HashtagRouter.PostInsertValid` | apps/web/src/server/api/routers/hashtags.ts:81-87 | inserting a post with the next serial id keeps the tables valid |
| `HashtagRouter.TagsValid` | apps/web/src/server/api/routers/hashtags.ts:89-110 | after the find-or-create and the link insert the tables are valid |
| `HashtagRouter.CreateValid` | apps/web/src/server/api/routers/hashtags.ts:72-114 | a successful create keeps the tables valid |
| `HashtagRouter.CreateWithoutTags` | apps/web/src/server/api/routers/hashtags.ts:75-89 | empty content is refused before the transaction, overlong content fails at the insert, and with no tags only the post row is added, with zero counts and the caller as author |
| `HashtagRouter.CreateWithTagsFails` | apps/web/src/server/api/routers/hashtags.ts:81-110 | with tags the create fails, with INTERNAL_SERVER_ERROR, exactly when some normalised name is missing from the table and overlong |
| `HashtagRouter.CreateWithTags` | apps/web/src/server/api/routers/hashtags.ts:81-110 | on success the post is appended, old tags are kept as a prefix, and no table other than posts, hashtags and links changes |
| `HashtagRouter.CreateLinks` | apps/web/src/server/api/routers/hashtags.ts:89-110 | on success the old links are kept and link `i` joins the new post to a tag named by the `i`-th tag normalised |
| `HashtagRouter.TrendingLimit` | apps/web/src/server/api/routers/hashtags.ts:16 | an absent or zero limit means five, a positive limit is used as is, a negative one is an error |
| `HashtagRouter.GetTrending` | apps/web/src/server/api/routers/hashtags.ts:6-17 | at most the limit's number of tags is returned |
| `HashtagRouter.TrendingTop` | apps/web/src/server/api/routers/hashtags.ts:7-16 | tags come by decreasing post count, and a tag left out counts no more than each listed one when the limit is full |
| `HashtagRouter.TrendingCounts` | apps/web/src/server/api/routers/hashtags.ts:10-13 | a tag without links counts zero posts, a linked one at least one |
| `HashtagRouter.GetPostsByTag` | apps/web/src/server/api/routers/hashtags.ts:19-61 | one view per post tagged with the lower-cased tag |
| `HashtagRouter.PostsByTagSound` | apps/web/src/server/api/routers/hashtags.ts:20-29 | every listed view is the full projection of a post tagged with the lower-cased tag |
| `HashtagRouter.PostsByTagComplete` | apps/web/src/server/api/routers/hashtags.ts:20-29 | every post tagged with the lower-cased tag is listed |
| `HashtagRouter.PostsByTagNewestFirst` | apps/web/src/server/api/routers/hashtags.ts:30 | the posts come newest first |
| `NotificationRouter.GetNotifications` | apps/web/src/server/api/routers/notifications.ts:29-40 | the caller's notifications come newest first |
| `NotificationRouter.NotificationsExact` | apps/web/src/server/api/routers/notifications.ts:30-32 | a notification is listed exactly when it is the caller's and newer than `since` (the epoch when absent) |
| `NotificationRouter.GetUnreadCount` | apps/web/src/server/api/routers/notifications.ts:98-105 | the unread count is at most the number of notifications |
| `NotificationRouter.UnreadCountZero` | apps/web/src/server/api/routers/notifications.ts:99-104 | the count is zero exactly when the caller has no unread notification |
| `NotificationRouter.NotificationsValid` | apps/web/src/server/api/routers/notifications.ts:83-93 | replacing the notification table with serial rows whose references exist keeps the tables valid |
| `NotificationRouter.UpdateValid` | apps/web/src/server/api/routers/notifications.ts:50-58 | an update that keeps ids and references keeps the tables valid |
| `NotificationRouter.MarkAsReadEffect` | apps/web/src/server/api/routers/notifications.ts:50-58 | exactly the caller's listed notifications become read; order, length and every other row are kept |
| `NotificationRouter.MarkAsRead` | apps/web/src/server/api/routers/notifications.ts:43-60 | the update marks the caller's listed notifications read, touches no other table and reports success |
| `NotificationRouter.MarkAllAsReadEffect` | apps/web/src/server/api/routers/notifications.ts:107-113 | afterwards the caller has no unread notification; other users' rows are unchanged and only the read flag of any row moves |
| `NotificationRouter.MarkAllAsRead` | apps/web/src/server/api/routers/notifications.ts:107-113 | the update marks the caller's unread notifications read and reports success |
| `NotificationRouter.DeleteEffect` | apps/web/src/server/api/routers/notifications.ts:121-126 | a notification is removed exactly when it has the id and belongs to the caller; with no such row nothing changes |
| `NotificationRouter.DeleteNotification` | apps/web/src/server/api/routers/notifications.ts:115-126 | the delete removes the caller's notification with the id and reports success |
| `NotificationRouter.InsertValid` | apps/web/src/server/api/routers/notifications.ts:83-93 | a successful notification insert keeps the tables valid |
| `NotificationRouter.CreateNotificationEffect` | apps/web/src/server/api/routers/notifications.ts:71-96 | an unknown receiver username is a not-found error; otherwise one unread notification from the caller to that user is appended with the next id |
| `NotificationRouter.CreateNotification` | apps/web/src/server/api/routers/notifications.ts:62-96 | the mutation commits the specified notification or, on error, changes nothing; the tables stay valid |
| `NotificationRouter.Insert` | apps/web/src/server/api/routers/notifications.ts:83-93 | the insert commits the specified row or changes nothing |
| `NotificationRouter.HelperEffect` | apps/web/src/server/api/routers/notifications.ts:129-212 | without a session the helpers fail unauthorized; on success one unread notification from the session user is appended; with existing references they succeed |
| `NotificationRouter.Helper` | apps/web/src/server/api/routers/notifications.ts:129-144 | the shared helper commits its specification or changes nothing |
| `NotificationRouter.CreateLikeNotification` | apps/web/src/server/api/routers/notifications.ts:129-144 | a like notification for the post, as the helper specifies |
| `NotificationRouter.CreateCommentNotification` | apps/web/src/server/api/routers/notifications.ts:146-162 | a comment notification for the post and comment |
| `NotificationRouter.CreateFollowNotification` | apps/web/src/server/api/routers/notifications.ts:164-178 | a follow notification with no post or comment |
| `NotificationRouter.CreateMentionNotification` | apps/web/src/server/api/routers/notifications.ts:180-195 | a mention notification for the post |
| `NotificationRouter.CreateRepostNotification` | apps/web/src/server/api/routers/notifications.ts:197-212 | a repost notification for the post |
| `UserRouter.StoreUsernameValid` | apps/web/src/server/api/routers/user.ts:50-54 | storing a username (unique in the column) keeps the tables valid |
| `UserRouter.SetupUsername` | apps/web/src/server/api/routers/user.ts:17-56 | the mutation commits the specified update and returns the caller's row, or on error changes nothing; the tables stay valid |
| `UserRouter.SetupGuards` | apps/web/src/server/api/routers/user.ts:19-48 | a name outside 3 to 30 letters, digits and underscores is a bad request; a caller who has a username is forbidden; a name already stored as given is a conflict |
| `UserRouter.StoreUsernameEffect` | apps/web/src/server/api/routers/user.ts:50-55 | the update sets the name on exactly the caller's row, changes no other row or table, and returns the updated caller |
| `UserRouter.SetupStoresLowerCase` | apps/web/src/server/api/routers/user.ts:50-55 | a successful setup stores the lower-cased name on the caller's row only |
| `UserRouter.SetOnce` | apps/web/src/server/api/routers/user.ts:32-37 | after one successful setup any second valid name is forbidden |
| `UserRouter.SetupValid` | apps/web/src/server/api/routers/user.ts:17-56 | a successful setup keeps the tables valid |
| `UserRouter.CaseVariantPassesCheck` | apps/web/src/server/api/routers/user.ts:39-52 | a name that differs only in case from another user's stored name passes the conflict check and fails at the unique column with an internal error |
| `UserRouter.BobAfterBob` | apps/web/src/server/api/routers/user.ts:39-52 | with `bob` taken, a second user asking for `Bob` gets an internal error, not a conflict |
| `UserRouter.CheckedSetupNeverClashes` | apps/web/src/server/api/routers/user.ts:39-52 | the corrected setup, which checks the lower-cased name, is a conflict exactly when the lower-cased name is taken and never fails otherwise |
| `Middleware.MatchesAny` | apps/web/src/middleware.ts:11-12 | a path matches a route list exactly when it starts with one of its routes |
| `Middleware.Decisions` | apps/web/src/middleware.ts:9-45 | a failed session fetch redirects to sign-in; without a session only protected paths redirect to sign-in; a user without a username is sent to the setup page unless already there; a user with one is sent from the setup page to the profile |
| `Middleware.PrefixIsProtected` | apps/web/src/middleware.ts:12-25 | every path under `/profile` is protected, so without a session it redirects to sign-in |
| `Middleware.SignInIsPublic` | apps/web/src/middleware.ts:5-12 | the sign-in page is not a protected route |
| `Middleware.RedirectSettles` | apps/web/src/middleware.ts:22-40 | with the session fetched, a redirect never points at the requested path and the redirected path passes through |
| `SearchQuery.RunLength` | apps/web/src/features/explore/components/search-query.tsx:55-60 | a run of class characters from a position is maximal and stays inside the text |
| `SearchQuery.MatchAt` | apps/web/src/features/explore/components/search-query.tsx:55-60 | a match at the start is the prefix followed by at least one class character |
| `SearchQuery.Matches` | apps/web/src/features/explore/components/search-query.tsx:55-56 | every global match is a prefix followed by class characters |
| `SearchQuery.Remove` | apps/web/src/features/explore/components/search-query.tsx:58-60 | removing the matches never lengthens the text |
| `SearchQuery.RemoveAccounts` | apps/web/src/features/explore/components/search-query.tsx:58-60 | the removed text plus the lengths of the matched tokens is the whole text |
| `SearchQuery.RemoveIdentity` | apps/web/src/features/explore/components/search-query.tsx:58-60 | removal leaves the text unchanged exactly when nothing matches |
| `SearchQuery.HandleInputChange` | apps/web/src/features/explore/components/search-query.tsx:52-63 | every filter is a `from:` token of letters, digits and underscores or a `#` token of letters and digits |
| `SearchQuery.FiltersOrder` | apps/web/src/features/explore/components/search-query.tsx:55-57 | the filters are all username tokens in order, then all hashtag tokens in order |
| `SearchQuery.PlainQuery` | apps/web/src/features/explore/components/search-query.tsx:52-63 | a query without tokens gives no filters and the trimmed query |
| `SearchQuery.EnabledIffContent` | apps/web/src/features/explore/components/search-query.tsx:46-63 | the search runs exactly when some token was found or the cleaned text is not all white space |
| `SearchQuery.NextPageContinues` | apps/web/src/features/explore/components/search-query.tsx:36-49 | the infinite explore query has a next page exactly when more matching posts remain than the last page holds; it repeats the same search with the cursor at the first post left over |
| `SearchQuery.NextPageBelowCursor` | apps/web/src/features/explore/components/search-query.tsx:48 | every post of the next page lies below the cursor the last page returned, when that cursor is non-zero |
| `SearchQuery.FromUnderscoreToken` | apps/web/src/features/explore/components/search-query.tsx:55-59 | with the underscore the whole of `from:a_b` is a username token; without it the removal stops after `a` |
| `SearchQuery.UnderscoreTailKept` | apps/web/src/features/explore/components/search-query.tsx:59-60 | no removal pattern matches `_b` |
| `SearchQuery.UnderscoreRemovalAsWritten` | apps/web/src/features/explore/components/search-query.tsx:59 | the removal as written leaves `_b` of `from:a_b` |
| `SearchQuery.UnderscoreLeftInQuery` | apps/web/src/features/explore/components/search-query.tsx:52-63 | `from:a_b` becomes the filter `from:a_b` together with the free-text query `_b` |
| `SearchQuery.UnderscoreFilters` | apps/web/src/features/explore/components/search-query.tsx:55-57 | the filters of `from:a_b` are that one token |
| `SearchQuery.UnderscoreClean` | apps/web/src/features/explore/components/search-query.tsx:58-62 | the cleaned query of `from:a_b` is `_b` |
| `SearchQuery.TrimUnderscore` | apps/web/src/features/explore/components/search-query.tsx:61 | trimming keeps `_b` |
| `SearchQuery.MatchesNoHash` | apps/web/src/features/explore/components/search-query.tsx:56 | text without `#` holds no hashtag token |
| `SearchQuery.HandleInputChangeFixed` | apps/web/src/features/explore/components/search-query.tsx:52-63 | the corrected tokenizer gives the same kind of filters |
| `SearchQuery.FixedRemovesUsernames` | apps/web/src/features/explore/components/search-query.tsx:55-59 | the corrected removal takes out exactly the username tokens that became filters |
| `SearchQuery.FixedUnderscore` | apps/web/src/features/explore/components/search-query.tsx:52-63 | the corrected tokenizer turns `from:a_b` into the filter alone, with an empty query |
| `Validation.TweetFitsColumn` | apps/web/src/validation/index.ts:3-8 | content the tweet form accepts (1 to 256 UTF-16 code units) is stored by a post create without tags; on text without astral characters the form accepts exactly what the create stores |
| `Validation.AstralTweetRefused` | apps/web/src/validation/index.ts:3-8 | 129 emoji are stored by the create (129 characters) but refused by the form (258 code units) |
| `Validation.SetupFormLooser` | apps/web/src/validation/index.ts:10-12 | the setup form accepts every name the server accepts, and also names the server refuses (a space, 31 characters) |
| `CommentBox.EnabledSubmitIsValid` | apps/web/src/features/comments/components/comment-box.tsx:143-145 | an enabled submit button means not loading, signed in, content the form schema accepts and no negative remaining count; a negative count always disables it (and lines 17-22) |
| `CommentBox.BlankIsDisabled` | apps/web/src/features/comments/components/comment-box.tsx:143-145 | a single space, or a single ideographic space U+3000, passes the schema but its trimmed content disables the button (and lines 17-22) |
| `CommentBox.SuccessInvalidates` | apps/web/src/features/comments/components/comment-box.tsx:50-80 | a successful submit always invalidates the post's comments, the child comments exactly of a truthy parent, and no other post's comments |
| `CommentBox.OverlongCommentReachesServer` | apps/web/src/features/comments/components/comment-box.tsx:15-22 | a comment of more than 256 characters and at most 280 UTF-16 code units is accepted by the form and the button, and both the comment and the reply insert fail at the 256-character column with an internal error (and lines 143-145) |
| `CommentBox.FixedSubmitIsStored` | apps/web/src/features/comments/components/comment-box.tsx:15-22 | with the limit set to the column's 256, an enabled submit is accepted by the schema and the comment insert succeeds (and lines 143-145) |
| `CommentBox.Box.constructor` | apps/web/src/features/comments/components/comment-box.tsx:24-46 | a new box has empty content, is not loading and has sent nothing |
| `CommentBox.Box.Mutate` | apps/web/src/features/comments/components/comment-box.tsx:50-80 | the mutation is sent; on success the form is reset and its queries invalidated; on failure the content stays |
| `CommentBox.Box.OnSubmit` | apps/web/src/features/comments/components/comment-box.tsx:82-103 | without a user nothing happens; otherwise a reply is sent for a truthy parent and a comment otherwise, loading ends, and a given `setShowReply` closes the reply |
| `CommentBox.Box.HandleSubmit` | apps/web/src/features/comments/components/comment-box.tsx:82-103 | content the schema refuses, or a submit without a user, changes nothing; accepted content from a user is sent as a reply or a comment, invalidates the lists on success, ends loading and closes a given reply box (and line 37) |
| `LegacyCommentBox.EnabledSubmitIsValid` | apps/web/src/components/comments/CommentBox.tsx:15-17 | an enabled button means not loading, signed in and accepted content; the older form accepts everything the newer one does (and line 108) |
| `LegacyCommentBox.LongTextReachesServer` | apps/web/src/components/comments/CommentBox.tsx:15-17 | any non-blank comment longer than 256 characters is accepted by the form and fails at the insert with an internal error (and line 108) |
| `LegacyCommentBox.SuccessInvalidates` | apps/web/src/components/comments/CommentBox.tsx:39-81 | a reply invalidates the parent's children then the post's comments; a comment invalidates only the post's comments |
| `LegacyCommentBox.Box.constructor` | apps/web/src/components/comments/CommentBox.tsx:19-35 | a new box has empty content, is not loading and has sent nothing |
| `LegacyCommentBox.Box.Mutate` | apps/web/src/components/comments/CommentBox.tsx:39-65 | the mutation is sent; on success the form is reset and its queries invalidated |
| `LegacyCommentBox.Box.OnSubmit` | apps/web/src/components/comments/CommentBox.tsx:67-85 | without a user nothing happens; otherwise the reply or comment is sent and loading ends |
| `LegacyCommentBox.Box.HandleSubmit` | apps/web/src/components/comments/CommentBox.tsx:67-85 | content the schema refuses, or a submit without a user, changes nothing; accepted content from a user is sent, clears the form and invalidates the lists on success, and ends loading (and line 29) |
| `LegacyPostRouter.LegacyDatabase.constructor` | src/server/api/routers/post.ts:7 | the database holds the given tables |
| `LegacyPostRouter.ToggleLike` | src/server/api/routers/post.ts:91-108 | the like table becomes its toggle (the caller's rows for the post deleted if any, else one inserted), or the mutation fails and changes nothing; identity columns and foreign keys stay valid |
| `LegacyPostRouter.ToggleRepost` | src/server/api/routers/post.ts:161-178 | the same toggle on the repost table |
| `LegacyPostRouter.LegacyToggleRowsRule` | src/server/api/routers/post.ts:94-107 | a toggle fails with an internal error exactly when it would insert a row for a missing post (`like.post_id` references `post.id`); otherwise it is the toggle rule, the counter advances only on insert, and serial ids and post references are kept (and lines 169-171 of src/server/db/schema.ts) |
| `LegacyPostRouter.LegacyToggleLikeFlips` | src/server/api/routers/post.ts:94-107 | `toggleLike` fails exactly when it would like a missing post; otherwise the caller's flag flips, every other pair's rows are kept and no other table changes |
| `LegacyPostRouter.LegacyToggleRepostFlips` | src/server/api/routers/post.ts:164-177 | the same for `toggleRepost` and the repost table |
| `LegacyPostRouter.Repost` | src/server/api/routers/post.ts:141-159 | the mutation commits the specified insert or fails with its error and changes nothing; identity columns and foreign keys stay valid |
| `LegacyPostRouter.LegacyRepostOutcome` | src/server/api/routers/post.ts:144-158 | a repost conflicts exactly when the pair exists, and otherwise fails at the `repost.post_id` key exactly when the post is missing; a success appends one row for the pair and no other table changes |
| `LegacyPostRouter.AddComment` | src/server/api/routers/post.ts:110-125 | the mutation commits the specified insert or fails and changes nothing; identity columns and the comment keys stay valid |
| `LegacyPostRouter.AppendCommentKeepsRefs` | src/server/db/schema.ts:128-152 | appending a comment whose post exists and whose parent is among the comments keeps `comment.post_id` and `comment_parent_comment_id_fk` satisfied |
| `LegacyPostRouter.LegacyAddCommentInsertsOne` | src/server/api/routers/post.ts:110-125 | the insert succeeds exactly for non-empty text on an existing post whose given parent exists or is the new comment itself; empty text is BAD_REQUEST and a broken key an internal error; a success appends one comment with the post, the caller, the given parent and the text, touching no counter and no other table |
| `LegacyPostRouter.LegacyProject` | src/server/api/routers/post.ts:26-58 | the view keeps the post's id and time, the flags hold exactly when the caller has a like or repost row, a set flag means a count of at least one, and the comment count is the post's comment rows (and lines 81-88) |
| `LegacyPostRouter.GetAll` | src/server/api/routers/post.ts:64-89 | one view per post, newest first, every view of a post and every post viewed |
| `LegacyPostRouter.GetById` | src/server/api/routers/post.ts:25-62 | a missing id is a not-found error; otherwise the view of the post with that id |
| `LegacyPostRouter.GetLatest` | src/server/api/routers/post.ts:17-23 | none exactly when there are no posts; otherwise a post at least as new as every other |
| `LegacyPostRouter.GetComments` | src/server/api/routers/post.ts:127-139 | every comment of the post, replies included, newest first, each with only its own children |
| `QueryCache.PutDetail` | apps/web/src/hooks/api-hooks.tsx:32-37 | writing an undefined value changes nothing; a defined value becomes the post's entry and every other entry and key is kept |
| `QueryCache.PutLatest` | apps/web/src/hooks/api-hooks.tsx:39-47 | a defined value replaces the feed, an undefined one is ignored; nothing else changes |
| `QueryCache.PutBookmarked` | apps/web/src/hooks/api-hooks.tsx:49-62 | a defined value replaces the bookmark list, an undefined one is ignored; nothing else changes |
| `QueryCache.PutAll` | src/hooks/usePost.tsx:16-26 | a defined value replaces the older feed, an undefined one is ignored; nothing else changes |
| `QueryCache.PutDetailBack` | apps/web/src/hooks/api-hooks.tsx:67-78 | writing back what the entry held restores the cache, unless the entry was undefined and a value was written since |
| `QueryCache.Cache.constructor` | apps/web/src/hooks/api-hooks.tsx:19 | a new cache holds the given data and no marks |
| `QueryCache.Cache.SetDetail` | apps/web/src/hooks/api-hooks.tsx:32 | `setData` on the detail query; the marks are kept |
| `QueryCache.Cache.SetLatest` | apps/web/src/hooks/api-hooks.tsx:39 | `setData` on the feed; the marks are kept |
| `QueryCache.Cache.SetBookmarked` | apps/web/src/hooks/api-hooks.tsx:49 | `setData` on the bookmark list; the marks are kept |
| `QueryCache.Cache.SetAll` | src/hooks/usePost.tsx:16 | `setData` on the older feed; the marks are kept |
| `QueryCache.Cache.Cancel` | apps/web/src/hooks/api-hooks.tsx:23-24 | `cancel` records the key and leaves the data alone |
| `QueryCache.Cache.Invalidate` | apps/web/src/hooks/api-hooks.tsx:79-83 | `invalidate` records the key and leaves the data alone |
| `ApiHooks.ToggledFields` | apps/web/src/hooks/api-hooks.tsx:10-16 | like moves the like count by one against the flag and negates the flag, repost the same on reposts; no other field changes |
| `ApiHooks.ToggledTwice` | apps/web/src/hooks/api-hooks.tsx:10-16 | toggling twice restores the view |
| `ApiHooks.ToggledKeepsCounted` | apps/web/src/hooks/api-hooks.tsx:10-16 | the toggle keeps the counts consistent with the flags, so no negative count appears |
| `ApiHooks.Draft.constructor` | apps/web/src/hooks/api-hooks.tsx:34-36 | the draft holds the given view |
| `ApiHooks.Draft.UpdatePostAction` | apps/web/src/hooks/api-hooks.tsx:10-16 | the two in-place assignments leave the draft toggled |
| `ApiHooks.ToggleFirst` | apps/web/src/hooks/api-hooks.tsx:39-47 | exactly the first view with the id is toggled; the length is kept |
| `ApiHooks.ListPatchIsMap` | apps/web/src/hooks/api-hooks.tsx:49-62 | the bookmark-list patch toggles every view with the id; the `find` guard changes nothing |
| `ApiHooks.UniqueIdsSamePatch` | apps/web/src/hooks/api-hooks.tsx:39-62 | with unique ids the feed patch and the list patch agree |
| `ApiHooks.ToggleFirstTwice` | apps/web/src/hooks/api-hooks.tsx:39-47 | the feed patch undoes itself |
| `ApiHooks.ListPatchTwice` | apps/web/src/hooks/api-hooks.tsx:49-62 | the list patch undoes itself |
| `ApiHooks.PatchesAbsent` | apps/web/src/hooks/api-hooks.tsx:39-62 | a list without the post is left as it was |
| `ApiHooks.MutateOnlyTarget` | apps/web/src/hooks/api-hooks.tsx:22-66 | the optimistic like or repost toggles the post's detail entry if cached, keeps every other entry and the older feed, keeps defined lists defined with their length, and changes only views with the id |
| `ApiHooks.MutateAbsent` | apps/web/src/hooks/api-hooks.tsx:22-66 | without a cached view of the post the cache is unchanged |
| `ApiHooks.MutateTwice` | apps/web/src/hooks/api-hooks.tsx:22-66 | patching twice with the same action restores the whole cache |
| `ApiHooks.ToggleRollbackWrites` | apps/web/src/hooks/api-hooks.tsx:67-78 | every defined snapshot entry is written back and nothing else changes |
| `ApiHooks.ToggleRollbackRestores` | apps/web/src/hooks/api-hooks.tsx:22-78 | a failed like or repost leaves the cache exactly as before `onMutate` |
| `ApiHooks.OnMutateToggle` | apps/web/src/hooks/api-hooks.tsx:22-66 | the snapshot is the old detail entry, feed and list; the data becomes the patch; the like hook cancels the detail and the list, the repost hook also the feed (and lines 91-136) |
| `ApiHooks.OnErrorToggle` | apps/web/src/hooks/api-hooks.tsx:67-78 | the data becomes the rollback of the snapshot (and lines 137-148) |
| `ApiHooks.OnSettled` | apps/web/src/hooks/api-hooks.tsx:79-83 | the detail query, the feed and the list are invalidated; the data is kept (and lines 149-153, 211-215) |
| `ApiHooks.ToggleFlow` | apps/web/src/hooks/api-hooks.tsx:18-153 | after success the cache holds the patch, after failure exactly its old data; the cancels and the three invalidations are recorded |
| `ApiHooks.BookmarkListCases` | apps/web/src/hooks/api-hooks.tsx:189-198 | a listed post is filtered out: no view of it is left, and every other view is kept as often as it occurs and in list order; an unlisted post is appended from the flipped detail view with the bookmark set; without a detail view the list is kept |
| `ApiHooks.ListPatchCases` | apps/web/src/hooks/api-hooks.tsx:189-198 | on a cached list the updater is the filter of the other posts when the post is listed, the list plus the detail view with the bookmark set when it is not, and the list itself without a detail view |
| `ApiHooks.RemovedKeepsOthers` | apps/web/src/hooks/api-hooks.tsx:193 | `filter((p) => p.id !== postId)` leaves no view of the post, keeps every other view as often as it occurs, and keeps list order |
| `Rows.FilterCounts` | apps/web/src/hooks/api-hooks.tsx:193 | `filter` keeps each element that passes as often as it occurs, and no other element |
| `Rows.FilterPrefix` | apps/web/src/hooks/api-hooks.tsx:193 | `filter` keeps order: what it keeps of a prefix of the array is a prefix of its result |
| `ApiHooks.BookmarkFlipsOnly` | apps/web/src/hooks/api-hooks.tsx:170-187 | the bookmark patch flips only `isBookmarked` of views with the id in the feed and the detail view, an undefined flag becoming true; nothing else changes |
| `ApiHooks.OnMutateBookmark` | apps/web/src/hooks/api-hooks.tsx:161-201 | the snapshot is taken, the data becomes the bookmark patch and the detail query is cancelled |
| `ApiHooks.BookmarkListNotRestored` | apps/web/src/hooks/api-hooks.tsx:202-210 | the rollback as written restores everything but the list, which keeps the patch, so a listed post stays removed |
| `ApiHooks.BookmarkRollbackFixedRestores` | apps/web/src/hooks/api-hooks.tsx:161-210 | with the list written back as well, a failed bookmark toggle is rolled back exactly |
| `ApiHooks.OnErrorBookmark` | apps/web/src/hooks/api-hooks.tsx:202-210 | the rollback as written: only the detail entry and the feed are written back |
| `ApiHooks.OnErrorBookmarkFixed` | apps/web/src/hooks/api-hooks.tsx:202-210 | the corrected rollback also writes back the list |
| `ApiHooks.BookmarkFlow` | apps/web/src/hooks/api-hooks.tsx:159-215 | with the corrected rollback a failure leaves the cache as it was, and success leaves the patch |
| `LegacyUsePost.Updater` | src/hooks/usePost.tsx:16-26 | an undefined cache gets the snapshot back; otherwise the length is kept and only views with the id change (and lines 71-81) |
| `LegacyUsePost.MatchedFollowTarget` | src/hooks/usePost.tsx:14-26 | every view with the id gets the negation of the target's flag and its count moved by the target's flag, whatever its own flag; no other field changes (and lines 69-81) |
| `LegacyUsePost.UniqueIdsToggle` | src/hooks/usePost.tsx:14-26 | with unique ids the patch is the shared toggle of the view with the id |
| `LegacyUsePost.LegacyMutateUntouched` | src/hooks/usePost.tsx:12-13 | without a cached feed, or without the post in it, the cache is unchanged; no other key ever changes (and lines 69-70) |
| `LegacyUsePost.LegacyRollbackRestores` | src/hooks/usePost.tsx:12-46 | a failed toggle leaves the cache as it was before `onMutate` (and lines 67-102) |
| `LegacyUsePost.ErrorNotice` | src/hooks/usePost.tsx:47-51 | the login notice is chosen exactly for the message `UNAUTHORIZED`; otherwise the notice carries the message (and lines 103-107) |
| `LegacyUsePost.LegacyOnMutate` | src/hooks/usePost.tsx:8-42 | the feed is cancelled (and every `getById` for a repost), the snapshot taken and the patch written (and lines 63-98) |
| `LegacyUsePost.LegacyOnError` | src/hooks/usePost.tsx:43-55 | the defined snapshot is written back and the notice chosen by the message (and lines 99-111) |
| `LegacyUsePost.LegacyOnSettled` | src/hooks/usePost.tsx:56-59 | only the feed is invalidated (and lines 112-115) |
| `LegacyUsePost.LegacyToggleFlow` | src/hooks/usePost.tsx:7-116 | success leaves the patch and no notice; failure restores the cache and yields the message's notice; the feed is invalidated either way |
| `AppUsePost.AppMutateEffect` | apps/web/src/app/hooks/usePost.tsx:17-30 | only the feed changes; each view with the post's id is toggled by its own cached flag; the length is kept; patching twice restores the cache (and lines 48-61) |
| `AppUsePost.ReturnedFlagsFromProp` | apps/web/src/app/hooks/usePost.tsx:17-74 | the flags the hook returns are the prop's, so where the cached view is the prop the patched cache shows the opposite flag |
| `AppUsePost.AppRollbackRestores` | apps/web/src/app/hooks/usePost.tsx:14-36 | a failed toggle leaves the cache as it was before `onMutate` (and lines 44-67) |
| `AppUsePost.AppOnMutate` | apps/web/src/app/hooks/usePost.tsx:14-33 | the feed is cancelled, the snapshot taken and the patch written (and lines 44-64) |
| `AppUsePost.AppOnError` | apps/web/src/app/hooks/usePost.tsx:34-36 | the snapshot is written back, and an undefined one is ignored (and lines 65-67) |
| `AppUsePost.HandleToggle` | apps/web/src/app/hooks/usePost.tsx:12-84 | without a truthy user id nothing is sent and the cache is untouched; otherwise success leaves the patch, failure the old data, and the feed is invalidated |
| `UsePost.OnMutate` | apps/web/src/hooks/usePost.tsx:21-40 | the like hook invalidates the feed and the repost hook cancels it; then the snapshot is taken and the patch keyed by the prop's id written (and lines 68-87) |
| `UsePost.OnSettled` | apps/web/src/hooks/usePost.tsx:44-48 | the prop's detail view, then the feed, are invalidated (and lines 91-94) |
| `UsePost.HandleToggle` | apps/web/src/hooks/usePost.tsx:16-107 | without a truthy user id nothing is sent; otherwise success leaves the patch, failure the old data, with the marks of `onMutate` and `onSettled` recorded |

## Left out

- Network, database and React runtime: a query is a function of the tables, a mutation a method on `Database` and a hook a method on `Cache`. Awaiting, retries, `isPending` and re-rendering are not modelled.
- `Views.PostView` holds only the fields the model's properties are about: the id, content, author id and time of the post, the three derived counts, the two caller flags and, where computed, `isBookmarked` and the tag names. Every post read spreads `...post` and joins the author (`getLatest`, post.ts lines 32-60; `getByPostId`, lines 66-111; `getBookmarkedPosts`; `getPostsByTag`; `explore`, search.ts lines 109-156; the older `getAll` and `getById`). So the result also carries the stored `commentCount`, `likesCount` and `updatedAt` columns, `author { name, image, username }` and the joined relation arrays (`postLikes`, `reposts`, `postComments`, and in `getByPostId` each comment's `author` and `childComments`). None of these is returned by the model.
- `SearchRouter.UserIdsOf`, `SearchRouter.AuthorConds` and `SearchRouter.TagConds` read the three `IN (${array})` conditions of search.ts (lines 81, 96 and 104) as the list membership they are written for. The ORM's `sql` template most likely renders an interpolated array as a parenthesised list already (its own `inArray` writes `in ${values}`), so with two or more names, ids or tags the SQL would be `IN (($1, $2))`, a row value that PostgreSQL most likely refuses, making `explore` fail with INTERNAL_SERVER_ERROR. The model assumes the list renders as intended and returns the union instead; the library's rendering is not part of this model.
- The joined rows of `getNotifications` (the actor, the post and the comment) and the joined user of the older router's `getComments` are not part of the returned values. The model returns the rows themselves and, for the older `getComments`, each comment's child.
- A failed insert is modelled as leaving the identity counter where it was. PostgreSQL consumes the sequence value even when the insert then fails, so later ids may skip numbers there; only uniqueness and the bound below the counter are proved.
- In `apps/web/src/hooks/usePost.tsx` (line 22), `onMutate` of the like hook awaits `invalidate()`, which refetches the feed before the snapshot is read. The model only marks the key as invalidated and reads the snapshot from the cache as it was.
- `HashtagRouter.Resolve`: `Promise.all` in the tagged `postRouter.create` (hashtags.ts, lines 92-102) is modelled as a sequential find-or-create in the order of the tags. In the source every `tx.select` is most likely issued before any insert, so a new name given twice in one request ("Go" and "#go") is then inserted twice, the second insert fails the unique name and the transaction rolls back. The model shares one new row instead, so on such input `HashtagRouter.ResolveFails` and `HashtagRouter.CreateWithTagsFails` report success where the source most likely fails.
- That tagged `create` belongs to a second `postRouter` exported by hashtags.ts (line 71), which `appRouter` (root.ts, lines 15-23) does not mount, so as the program stands no client reaches it. The mounted `post.create` (post.ts, lines 22-29) inserts the post alone, which is what the model's create without tags does (`HashtagRouter.CreateWithoutTags`).
- `Text.LowerStr` lower-cases ASCII letters only, where JavaScript's `toLowerCase` (hashtags.ts, lines 28 and 90; user.ts, line 52) lower-cases every Unicode letter: the model normalises "#CAFÉ" to "cafÉ", the source to "café". Names that differ only in non-ASCII case are therefore distinct tags and usernames in the model.
- Excluding self-notifications and scanning for mentions are not done by the routers in the core, so neither is modelled. `toggleFollow` is not part of this model.
- The `message` and `metadata` fields of a notification input are validated but never stored, so they are not modelled.
- SQL `LIKE`/`ILIKE` wildcards inside a query string are treated as literal characters, and the `%` and `_` of a user's query are not interpreted.
- Rows that tie on the sort key come out in table order (the sort is stable). PostgreSQL leaves the order of such ties unspecified.
- Users in `search.all` are taken in table order, since the query has no `orderBy`.
- The `limit` inputs are integers. A fractional trending limit is left out. An explore `limit` is a natural number.
- `count(...)` results returned as strings by the driver are modelled as integers.
- Foreign keys that point at `users` are not tracked. The caller is always an existing user, and the model does not delete users.
- `parseInt` of route parameters on the pages is not part of this model.
- `Numbers.ParseInt` does not round numbers too large for a double, and an id outside the integer column's range is not modelled as a database error.
- The relation names of the ORM's self-relations only decide which rows are joined. The model joins by the columns directly.
- The cached bookmark list is modelled as an array of post views, which is what the hooks' `find`, `filter` and `map` in `apps/web/src/hooks/api-hooks.tsx` (lines 49-63 and 189-198) assume. The program never stores such an array. The router returns `{ items, nextCursor }` (`bookmark.ts`, lines 76-88). The bookmark pages call `getBookmarkedPosts.useQuery` with `undefined` (`bookmarks/page.tsx` and `bookmarks/_client.tsx`, line 9), which the router's object input schema refuses. So, as the program stands, that cache entry stays empty and every hook update of it returns at `if (!old)`. The model's statements about the bookmark list describe the hooks on the array they are written for.
- Post `content` is nullable in the schema but always written. The model uses a string.
- The older router's `create` is a plain insert with no stated property, so it is not modelled.
- The toasts are modelled as a `Notice` result in the older `usePost` hook. In `api-hooks.tsx` they are left out, because nothing reads them.
- The hashtag router's `search` procedure (five tags matching a pattern) is not part of this model.
- The `test` procedure of `user.ts` returns a constant and is not modelled.
- The middleware's auth-route branch on `/` returns `next()` like the fall-through, so it is modelled as `Next`. The `matcher` configuration and the logging of errors are left out.
- Console logging, debounce timing (`useDebounce`), date formatting and the calendar state of the explore page are left out.
- The hook flows (`ToggleFlow`, `BookmarkFlow`, `LegacyToggleFlow`, the two `HandleToggle` methods) assume no other cache writes between `onMutate` and `onError`.
- The `queryKey` prop of `apps/web/src/hooks/usePost.tsx` is accepted but never read, so it is not modelled.
- React state setters in the comment boxes are field assignments of `Box`. Form registration and error display are left out.

## Findings

| source | as written | input that shows it | evidently intended | confidence | as-written member | corrected member |
|---|---|---|---|---|---|---|
| apps/web/src/hooks/api-hooks.tsx:202-210 | `onError` of `useBookmarkPost` writes back the detail view and the feed, but not the bookmark list it patched | the cached bookmark list holds post 1; toggling its bookmark fails; the list no longer holds post 1 although the server still has the bookmark. This input is not reachable as the program stands: the bookmark pages' query is refused and its result would not be an array (see Left out), so the defect is latent in the hook | the list snapshot is written back as well, so a failure leaves the cache as it was | not executed | `ApiHooks.BookmarkListNotRestored` | `ApiHooks.BookmarkRollbackFixedRestores` |
| apps/web/src/server/api/routers/user.ts:39-52 | `setup` checks for the name as typed but stores it lower-cased | user u1 has username `bob`; user u2 asks for `Bob`; the uniqueness lookup finds nothing and the update hits the unique column | the lookup uses the lower-cased name, so the request is a `CONFLICT` | not executed | `UserRouter.BobAfterBob` | `UserRouter.CheckedSetupNeverClashes` |
| apps/web/src/server/api/routers/bookmark.ts:42-45 | `getBookmarkedPosts` lists every user's bookmarks | only another user has bookmarked a post; the caller's list shows it with `isBookmarked: false` | only the caller's bookmark rows are listed | not executed | `BookmarkRouter.OthersBookmarksListed` | `BookmarkRouter.MyBookmarksAreMine` |
| apps/web/src/server/api/routers/bookmark.ts:44,70-74 | the row popped from a `limit + 1` fetch becomes `nextCursor`, and the next page asks for `id < cursor`; `explore` does the same under every sort (search.ts, lines 113-117 and 140-144), which `SearchRouter.ExplorePoppedSkipped` states | bookmark ids 1 to 11 with the default limit 10: page one lists 11 to 2 and sets cursor 1; page two lists nothing, so row 1 is never shown | the next page starts at the popped row (`id <= cursor`) | not executed | `BookmarkRouter.PoppedBookmarkSkipped` | `BookmarkRouter.MyBookmarksPagesContinue` |
| apps/web/src/features/explore/components/search-query.tsx:55,59 | usernames are collected with `[a-zA-Z0-9_]+` but removed with `[a-zA-Z0-9]+` | the query `from:a_b` gives the filter `from:a_b` and the free-text query `_b` | the removal pattern matches the collection pattern, so the query is empty | not executed | `SearchQuery.UnderscoreLeftInQuery` | `SearchQuery.FixedRemovesUsernames` |
| apps/web/src/server/api/routers/search.ts:113-119,140-144 | with `sortBy: "oldest"` the page is ordered by ascending time but bounded by `id < cursor` | posts created in id order, limit 1: page one is the oldest post and the cursor is the second post's id; page two starts with the oldest post again | the cursor bound follows the sort order, so pages continue without repeats | not executed | `SearchRouter.ExploreOldestRepeats` | `SearchRouter.ExploreByIdContinues` |
| apps/web/src/features/comments/components/comment-box.tsx:15-22 | the form and the submit button allow 280 UTF-16 code units, but `content` is `varchar(256)`, 256 characters | a comment of 257 non-blank characters without astral characters (257 code units) is accepted by the form, and both the comment and the reply insert fail | the form's limit is the column's 256 | not executed | `CommentBox.OverlongCommentReachesServer` | `CommentBox.FixedSubmitIsStored` |
