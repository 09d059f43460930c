/**
 * The bookmark router: `toggle` (the toggle rule on the bookmarks table, answering whether the post is
 * now bookmarked), `getBookmarkStatus` and `getBookmarkedPosts` (cursor pagination over the bookmarks
 * table, each bookmark shown as its post's full view).
 */
module BookmarkRouter {
  import opened Wrappers
  import opened Rows
  import opened Ordering
  import opened Schema
  import opened Views
  import opened ToggleRule
  import opened Store
  import opened Pagination

  // ---------------------------------------------------------------------------------------------
  // toggle and getBookmarkStatus

  /** The reply of `toggle`: `{ bookmarked }` after the write, or the error the write raised. */
  function ToggleReply(t: Tables, caller: UserId, postId: int, now: int): Result<bool> {
    var s := ToggleSpec(t, Bookmarks, caller, postId, now);
    if s.Ok? then Ok(!HasPair(t.bookmarks, postId, caller)) else Err(s.code)
  }

  method Toggle(db: Database, caller: UserId, postId: int, now: int) returns (r: Result<bool>)
    requires Valid(db.tables)
    modifies db
    ensures r == ToggleReply(old(db.tables), caller, postId, now)
    ensures db.tables == Committed(old(db.tables), ToggleSpec(old(db.tables), Bookmarks, caller, postId, now))
    ensures Valid(db.tables)
  {
    var t := db.tables;
    ToggleSpecValid(t, Bookmarks, caller, postId, now);
    var existing := FindFirst(t.bookmarks, PairOf(postId, caller));
    if existing.Some? {
      db.tables := t.(bookmarks := Filter(t.bookmarks, NotPairOf(postId, caller)));
      return Ok(false);
    }
    // the insert violates the post_id foreign key
    if !PostExists(t.posts, postId) {
      return Err(InternalError);
    }
    db.tables := t.(bookmarks := t.bookmarks + [Reaction(t.nextBookmarkId, postId, caller, now)],
                    nextBookmarkId := t.nextBookmarkId + 1);
    return Ok(true);
  }

  /** `getBookmarkStatus`: whether the caller has a bookmark row on the post. */
  function BookmarkStatus(t: Tables, caller: UserId, postId: int): (b: bool)
    ensures b <==> exists i :: 0 <= i < |t.bookmarks| && t.bookmarks[i].postId == postId && t.bookmarks[i].userId == caller
  {
    HasPair(t.bookmarks, postId, caller)
  }

  /**
   * What `toggle` answers is what `getBookmarkStatus` reports afterwards, and it is the opposite of
   * what it reported before; a failed toggle changes no status.
   */
  lemma StatusAfterToggle(t: Tables, caller: UserId, postId: int, now: int)
    ensures var r := ToggleReply(t, caller, postId, now);
            var t' := Committed(t, ToggleSpec(t, Bookmarks, caller, postId, now));
            && (r.Ok? ==> BookmarkStatus(t', caller, postId) == r.value && r.value == !BookmarkStatus(t, caller, postId))
            && (r.Err? ==> r.code == InternalError && BookmarkStatus(t', caller, postId) == BookmarkStatus(t, caller, postId))
  {
    ToggleFlips(t.bookmarks, postId, caller, t.nextBookmarkId, now);
  }

  /** Toggling only touches the caller's bookmarks on that post: the status of every other pair is kept. */
  lemma ToggleKeepsOtherStatus(t: Tables, caller: UserId, postId: int, now: int, user: UserId, post: int)
    requires user != caller || post != postId
    ensures var t' := Committed(t, ToggleSpec(t, Bookmarks, caller, postId, now));
            BookmarkStatus(t', user, post) == BookmarkStatus(t, user, post)
  {
    ToggleKeepsOtherPairs(t.bookmarks, postId, caller, t.nextBookmarkId, now, post, user);
  }

  // ---------------------------------------------------------------------------------------------
  // getBookmarkedPosts

  /** `limit: z.number().min(1).max(100).default(10)` */
  const DefaultLimit := 10
  const MaxLimit := 100

  function LimitOf(limit: Option<int>): (r: Result<nat>)
    ensures r.Ok? <==> limit.None? || 1 <= limit.value <= MaxLimit
    ensures r.Ok? ==> 1 <= r.value <= MaxLimit && (limit.Some? ==> r.value == limit.value)
    ensures limit.None? ==> r == Ok(DefaultLimit)
    ensures r.Err? ==> r.code == BadRequest
  {
    match limit
    case None => Ok(DefaultLimit)
    case Some(l) => if 1 <= l <= MaxLimit then Ok(l) else Err(BadRequest)
  }

  /** Every bookmark row. */
  function AnyBookmark(): Reaction -> bool { (b: Reaction) => true }

  /** The caller's bookmark rows. */
  function OwnBookmark(caller: UserId): Reaction -> bool { (b: Reaction) => b.userId == caller }

  /** A bookmark's post in its full view for the caller; none when the post row is missing. */
  function BookmarkView(t: Tables, caller: UserId, b: Reaction): (r: Option<PostView>)
    ensures r.Some? <==> PostExists(t.posts, b.postId)
    ensures r.Some? ==> exists p :: p in t.posts && p.id == b.postId && r.value == ProjectFull(t, p, Some(caller))
    ensures r.Some? ==> && r.value.id == b.postId
                        && r.value.isBookmarked == Some(HasPair(t.bookmarks, b.postId, caller))
                        && (r.value.hasLiked <==> HasPair(t.likes, b.postId, caller))
                        && (r.value.hasReposted <==> HasPair(t.reposts, b.postId, caller))
  {
    match FindPost(t.posts, b.postId)
    case None => None
    case Some(p) => Some(ProjectFull(t, p, Some(caller)))
  }

  /**
   * `bookmarks.map(({ post }) => …)`: each bookmark's post in its full view. A bookmark whose post
   * row is missing has `post` null, and reading its fields throws.
   */
  function ProjectBookmarks(t: Tables, caller: UserId, bs: seq<Reaction>): (r: Result<seq<PostView>>)
    ensures r.Ok? <==> forall i :: 0 <= i < |bs| ==> BookmarkView(t, caller, bs[i]).Some?
    ensures r.Err? ==> r.code == InternalError
    ensures r.Ok? ==> |r.value| == |bs| && forall i :: 0 <= i < |bs| ==> BookmarkView(t, caller, bs[i]) == Some(r.value[i])
  {
    var views := MapAll(bs, (b: Reaction) => BookmarkView(t, caller, b));
    if views.Some? then Ok(views.value) else Err(InternalError)
  }

  /**
   * `getBookmarkedPosts` as written: BAD_REQUEST for a limit outside 1..100; otherwise one page of the
   * whole bookmarks table, newest bookmark id first, bounded by `id < cursor` (the `where` does not
   * restrict the rows to the caller's).
   */
  function BookmarkedPostsSpec(t: Tables, caller: UserId, limit: Option<int>, cursor: Option<int>): Result<Page<PostView>> {
    match LimitOf(limit)
    case Err(e) => Err(e)
    case Ok(n) =>
      var page := ListPage(t.bookmarks, Before(AnyBookmark(), ReactionKey(), cursor), ReactionKey(), ReactionKey(), n);
      match ProjectBookmarks(t, caller, page.items)
      case Err(e) => Err(e)
      case Ok(items) => Ok(Page(items, page.nextCursor))
  }

  method GetBookmarkedPosts(db: Database, caller: UserId, limit: Option<int>, cursor: Option<int>)
    returns (r: Result<Page<PostView>>)
    ensures r == BookmarkedPostsSpec(db.tables, caller, limit, cursor)
  {
    var n := LimitOf(limit);
    if n.Err? {
      return Err(n.code);
    }
    var t := db.tables;
    var fetched := Fetch(t.bookmarks, Before(AnyBookmark(), ReactionKey(), cursor), ReactionKey(), n.value + 1);
    var page := PopExtra(fetched, n.value, ReactionKey());
    var items := ProjectBookmarks(t, caller, page.items);
    if items.Err? {
      return Err(items.code);
    }
    return Ok(Page(items.value, page.nextCursor));
  }

  /**
   * A page of `getBookmarkedPosts` on valid tables: never an error for a good limit, at most `limit`
   * items, each the full view of the post of a bookmark row that meets the cursor bound, the rows
   * taken by descending bookmark id; for each item the flags are the caller's.
   */
  lemma BookmarkedPostsPage(t: Tables, caller: UserId, limit: Option<int>, cursor: Option<int>)
    requires UniqueKeys(t.bookmarks, ReactionKey()) && ReactionsRefer(t.bookmarks, t.posts)
    requires LimitOf(limit).Ok?
    ensures var r := BookmarkedPostsSpec(t, caller, limit, cursor);
            var n := LimitOf(limit).value;
            var page := ListPage(t.bookmarks, Before(AnyBookmark(), ReactionKey(), cursor), ReactionKey(), ReactionKey(), n);
            && r.Ok? && |r.value.items| == |page.items| <= n
            && r.value.nextCursor == page.nextCursor
            && (forall i, j :: 0 <= i < j < |page.items| ==> page.items[i].id > page.items[j].id)
            && (forall i :: 0 <= i < |page.items| ==>
                  page.items[i] in t.bookmarks
                  && (Truthy(cursor) ==> page.items[i].id < cursor.value)
                  && BookmarkView(t, caller, page.items[i]) == Some(r.value.items[i]))
  {
    var n := LimitOf(limit).value;
    AnyPageProjects(t, caller, n, cursor);
    var page := ListPage(t.bookmarks, Before(AnyBookmark(), ReactionKey(), cursor), ReactionKey(), ReactionKey(), n);
    var items := ProjectBookmarks(t, caller, page.items);
    assert BookmarkedPostsSpec(t, caller, limit, cursor) == Ok(Page(items.value, page.nextCursor));
  }

  /** With every bookmark on an existing post, the page of the whole table projects without error. */
  lemma AnyPageProjects(t: Tables, caller: UserId, n: nat, cursor: Option<int>)
    requires UniqueKeys(t.bookmarks, ReactionKey()) && ReactionsRefer(t.bookmarks, t.posts)
    ensures var page := ListPage(t.bookmarks, Before(AnyBookmark(), ReactionKey(), cursor), ReactionKey(), ReactionKey(), n);
            && ProjectBookmarks(t, caller, page.items).Ok?
            && (forall i, j :: 0 <= i < j < |page.items| ==> page.items[i].id > page.items[j].id)
            && (forall i :: 0 <= i < |page.items| ==> page.items[i] in t.bookmarks && (Truthy(cursor) ==> page.items[i].id < cursor.value))
  {
    PageRowsBelowCursor(t.bookmarks, t.posts, AnyBookmark(), n, cursor);
  }

  /**
   * A page of bookmark rows by descending id under `id < cursor`: rows of the table, by strictly
   * decreasing id, below a truthy cursor, each on an existing post.
   */
  lemma PageRowsBelowCursor(bookmarks: seq<Reaction>, posts: seq<Post>, keep: Reaction -> bool, n: nat, cursor: Option<int>)
    requires UniqueKeys(bookmarks, ReactionKey()) && ReactionsRefer(bookmarks, posts)
    ensures var page := ListPage(bookmarks, Before(keep, ReactionKey(), cursor), ReactionKey(), ReactionKey(), n);
            && (forall i, j :: 0 <= i < j < |page.items| ==> page.items[i].id > page.items[j].id)
            && (forall i :: 0 <= i < |page.items| ==>
                  page.items[i] in bookmarks && keep(page.items[i]) && PostExists(posts, page.items[i].postId)
                  && (Truthy(cursor) ==> page.items[i].id < cursor.value))
  {
    var where := Before(keep, ReactionKey(), cursor);
    PageRowsStrict(bookmarks, where, n);
    var page := ListPage(bookmarks, where, ReactionKey(), ReactionKey(), n);
    forall i | 0 <= i < |page.items|
      ensures keep(page.items[i]) && PostExists(posts, page.items[i].postId) && (Truthy(cursor) ==> page.items[i].id < cursor.value)
    {
      RowRefers(bookmarks, posts, page.items[i]);
      assert where(page.items[i]);
    }
  }

  /** A page of rows with unique ids lists them by strictly decreasing id. */
  lemma PageRowsStrict(rows: seq<Reaction>, where: Reaction -> bool, n: nat)
    requires UniqueKeys(rows, ReactionKey())
    ensures var page := ListPage(rows, where, ReactionKey(), ReactionKey(), n);
            forall i, j :: 0 <= i < j < |page.items| ==> page.items[i].id > page.items[j].id
  {
    FetchStrict(rows, where, ReactionKey(), n + 1);
    var fetched := Fetch(rows, where, ReactionKey(), n + 1);
    var page := ListPage(rows, where, ReactionKey(), ReactionKey(), n);
    forall i, j | 0 <= i < j < |page.items| ensures page.items[i].id > page.items[j].id {
      assert page.items[i] == fetched[i] && page.items[j] == fetched[j];
    }
  }

  /** A stored reaction is on an existing post. */
  lemma RowRefers(rows: seq<Reaction>, posts: seq<Post>, b: Reaction)
    requires ReactionsRefer(rows, posts) && b in rows
    ensures PostExists(posts, b.postId)
  {
    var k :| 0 <= k < |rows| && rows[k] == b;
  }

  /**
   * Finding, as written: the listing is not the caller's. On valid tables holding bookmarks, none of
   * them the caller's, the first page is not empty and shows a post the caller has not bookmarked.
   */
  lemma OthersBookmarksListed(t: Tables, caller: UserId)
    requires Valid(t) && |t.bookmarks| >= 1
    requires forall i :: 0 <= i < |t.bookmarks| ==> t.bookmarks[i].userId != caller
    ensures var r := BookmarkedPostsSpec(t, caller, None, None);
            r.Ok? && |r.value.items| >= 1 && r.value.items[0].isBookmarked == Some(false)
  {
    var where := Before(AnyBookmark(), ReactionKey(), None);
    var page := ListPage(t.bookmarks, where, ReactionKey(), ReactionKey(), DefaultLimit);
    FirstPageNotEmpty(t.bookmarks, where, DefaultLimit);
    ReactionTableValid(t, Bookmarks);
    BookmarkedPostsPage(t, caller, None, None);
    var b := page.items[0];
    assert b in t.bookmarks;
    assert !HasPair(t.bookmarks, b.postId, caller);
  }

  /** A table with a row the filter keeps gives a first page with at least one row. */
  lemma FirstPageNotEmpty(rows: seq<Reaction>, where: Reaction -> bool, n: nat)
    requires n >= 1 && |rows| >= 1 && where(rows[0])
    ensures |ListPage(rows, where, ReactionKey(), ReactionKey(), n).items| >= 1
  {
    var fetched := Fetch(rows, where, ReactionKey(), n + 1);
    FetchTop(rows, where, ReactionKey(), n + 1, rows[0]);
    assert |fetched| >= 1;
  }

  /**
   * Finding, as written: the row popped to make `nextCursor` is listed on neither page. It is a
   * bookmark row whose id is the cursor; it is not among the first page's rows, and the next page,
   * asked for with that cursor, filters `id < cursor` and so cannot list it.
   */
  lemma PoppedBookmarkSkipped(t: Tables, caller: UserId, limit: Option<int>, cursor: Option<int>)
    requires Valid(t) && LimitOf(limit).Ok?
    requires ListPage(t.bookmarks, Before(AnyBookmark(), ReactionKey(), cursor), ReactionKey(), ReactionKey(), LimitOf(limit).value).nextCursor.Some?
    ensures var n := LimitOf(limit).value;
            var fetched := Fetch(t.bookmarks, Before(AnyBookmark(), ReactionKey(), cursor), ReactionKey(), n + 1);
            var p1 := ListPage(t.bookmarks, Before(AnyBookmark(), ReactionKey(), cursor), ReactionKey(), ReactionKey(), n);
            var p2 := ListPage(t.bookmarks, Before(AnyBookmark(), ReactionKey(), p1.nextCursor), ReactionKey(), ReactionKey(), n);
            && |fetched| == n + 1 && fetched[n] in t.bookmarks
            && BookmarkedPostsSpec(t, caller, limit, cursor).Ok?
            && BookmarkedPostsSpec(t, caller, limit, cursor).value.nextCursor == Some(fetched[n].id)
            && fetched[n] !in p1.items
            && (fetched[n].id != 0 ==> fetched[n] !in p2.items)
  {
    ReactionTableValid(t, Bookmarks);
    BookmarkedPostsPage(t, caller, limit, cursor);
    PoppedRowSkipped(t.bookmarks, AnyBookmark(), ReactionKey(), LimitOf(limit).value, cursor);
  }

  /**
   * Corrected `getBookmarkedPosts`: only the caller's bookmarks, and the next page bounded by
   * `id <= cursor` so that it starts with the row the previous page popped.
   */
  function MyBookmarkedPostsSpec(t: Tables, caller: UserId, limit: Option<int>, cursor: Option<int>): Result<Page<PostView>> {
    match LimitOf(limit)
    case Err(e) => Err(e)
    case Ok(n) =>
      var page := ListPage(t.bookmarks, AtOrAfter(OwnBookmark(caller), ReactionKey(), 1, cursor), ReactionKey(), ReactionKey(), n);
      match ProjectBookmarks(t, caller, page.items)
      case Err(e) => Err(e)
      case Ok(items) => Ok(Page(items, page.nextCursor))
  }

  /** Corrected: every post listed is bookmarked by the caller. */
  lemma MyBookmarksAreMine(t: Tables, caller: UserId, limit: Option<int>, cursor: Option<int>)
    requires ReactionsRefer(t.bookmarks, t.posts)
    requires LimitOf(limit).Ok?
    ensures var r := MyBookmarkedPostsSpec(t, caller, limit, cursor);
            r.Ok? && |r.value.items| <= LimitOf(limit).value
            && forall i :: 0 <= i < |r.value.items| ==> r.value.items[i].isBookmarked == Some(true)
  {
    OwnPageViews(t, caller, LimitOf(limit).value, cursor);
  }

  /** The views of a page of the caller's bookmarks all exist and are marked bookmarked. */
  lemma OwnPageViews(t: Tables, caller: UserId, n: nat, cursor: Option<int>)
    requires ReactionsRefer(t.bookmarks, t.posts)
    ensures var page := ListPage(t.bookmarks, AtOrAfter(OwnBookmark(caller), ReactionKey(), 1, cursor), ReactionKey(), ReactionKey(), n);
            var r := ProjectBookmarks(t, caller, page.items);
            r.Ok? && forall i :: 0 <= i < |r.value| ==> r.value[i].isBookmarked == Some(true)
  {
    var page := ListPage(t.bookmarks, AtOrAfter(OwnBookmark(caller), ReactionKey(), 1, cursor), ReactionKey(), ReactionKey(), n);
    OwnPageRows(t.bookmarks, t.posts, caller, n, cursor);
    assert forall i :: 0 <= i < |page.items| ==> BookmarkView(t, caller, page.items[i]).Some?;
    var r := ProjectBookmarks(t, caller, page.items);
    forall i | 0 <= i < |r.value| ensures r.value[i].isBookmarked == Some(true) {
      assert BookmarkView(t, caller, page.items[i]) == Some(r.value[i]);
    }
  }

  /** Each row of a page of the caller's bookmarks is a bookmark of the caller on an existing post. */
  lemma OwnPageRows(bookmarks: seq<Reaction>, posts: seq<Post>, caller: UserId, n: nat, cursor: Option<int>)
    requires ReactionsRefer(bookmarks, posts)
    ensures var page := ListPage(bookmarks, AtOrAfter(OwnBookmark(caller), ReactionKey(), 1, cursor), ReactionKey(), ReactionKey(), n);
            forall i :: 0 <= i < |page.items| ==> PostExists(posts, page.items[i].postId) && HasPair(bookmarks, page.items[i].postId, caller)
  {
    var where := AtOrAfter(OwnBookmark(caller), ReactionKey(), 1, cursor);
    var page := ListPage(bookmarks, where, ReactionKey(), ReactionKey(), n);
    forall i | 0 <= i < |page.items| ensures PostExists(posts, page.items[i].postId) && HasPair(bookmarks, page.items[i].postId, caller) {
      var k :| 0 <= k < |bookmarks| && bookmarks[k] == page.items[i];
      assert where(page.items[i]);
      assert OwnBookmark(caller)(page.items[i]);
    }
  }

  /**
   * Corrected: paging on loses no bookmark of the caller and repeats none. A bookmark of the caller
   * within the current bound is on this page or within the next page's bound, and no row of this page
   * is within the next page's bound.
   */
  lemma MyBookmarksPagesContinue(t: Tables, caller: UserId, limit: Option<int>, cursor: Option<int>)
    requires UniqueKeys(t.bookmarks, ReactionKey()) && ReactionsRefer(t.bookmarks, t.posts)
    requires LimitOf(limit).Ok?
    requires var page := ListPage(t.bookmarks, AtOrAfter(OwnBookmark(caller), ReactionKey(), 1, cursor), ReactionKey(), ReactionKey(), LimitOf(limit).value);
             Truthy(page.nextCursor)
    ensures var n := LimitOf(limit).value;
            var where := AtOrAfter(OwnBookmark(caller), ReactionKey(), 1, cursor);
            var page := ListPage(t.bookmarks, where, ReactionKey(), ReactionKey(), n);
            var next := AtOrAfter(OwnBookmark(caller), ReactionKey(), 1, page.nextCursor);
            && MyBookmarkedPostsSpec(t, caller, limit, cursor).Ok?
            && MyBookmarkedPostsSpec(t, caller, limit, cursor).value.nextCursor == page.nextCursor
            && (forall b :: b in t.bookmarks && where(b) ==> b in page.items || next(b))
            && (forall i :: 0 <= i < |page.items| ==> !next(page.items[i]))
            && var p2 := ListPage(t.bookmarks, next, ReactionKey(), ReactionKey(), n);
               |p2.items| >= 1 && p2.items[0] in t.bookmarks && p2.items[0].id == page.nextCursor.value
  {
    var n := LimitOf(limit).value;
    MyBookmarksAreMine(t, caller, limit, cursor);
    assert forall x: Reaction :: ReactionKey()(x) == 1 * ReactionKey()(x);
    NextPageContinues(t.bookmarks, OwnBookmark(caller), ReactionKey(), ReactionKey(), 1, n, cursor);
    NextPageStartsAtPopped(t.bookmarks, OwnBookmark(caller), ReactionKey(), ReactionKey(), 1, n, cursor);
    var x := PoppedRow(t.bookmarks, OwnBookmark(caller), ReactionKey(), ReactionKey(), 1, n, cursor);
  }
}
