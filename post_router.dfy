/**
 * The post router of the web app: the like and repost toggles, `repost`, `addComment`
 * and the reads `getLatest`, `getByPostId` and `getComments`. Writes are methods on the database;
 * each one's new tables are given by a function of the old tables, and the lemmas below state what
 * those functions promise.
 */
module PostRouter {
  import opened Wrappers
  import opened Rows
  import opened Ordering
  import opened Schema
  import opened Views
  import opened ToggleRule
  import opened Store
  import Numbers

  /** `getLatest` returns at most this many posts. */
  const LatestLimit := 10

  // ---------------------------------------------------------------------------------------------
  // toggleLike and toggleRepost: the toggle rule on the likes and reposts tables

  method ToggleLike(db: Database, caller: UserId, postId: int, now: int) returns (r: Outcome)
    requires Valid(db.tables)
    modifies db
    ensures r == Reply(ToggleSpec(old(db.tables), Likes, caller, postId, now))
    ensures db.tables == Committed(old(db.tables), ToggleSpec(old(db.tables), Likes, caller, postId, now))
    ensures Valid(db.tables)
  {
    var t := db.tables;
    ToggleSpecValid(t, Likes, caller, postId, now);
    var existing := FindFirst(t.likes, PairOf(postId, caller));
    if existing.Some? {
      db.tables := t.(likes := Filter(t.likes, NotPairOf(postId, caller)));
    } else {
      // the insert violates the post_id foreign key
      if !PostExists(t.posts, postId) {
        return Fail(InternalError);
      }
      db.tables := t.(likes := t.likes + [Reaction(t.nextLikeId, postId, caller, now)], nextLikeId := t.nextLikeId + 1);
    }
    return Pass;
  }

  method ToggleRepost(db: Database, caller: UserId, postId: int, now: int) returns (r: Outcome)
    requires Valid(db.tables)
    modifies db
    ensures r == Reply(ToggleSpec(old(db.tables), Reposts, caller, postId, now))
    ensures db.tables == Committed(old(db.tables), ToggleSpec(old(db.tables), Reposts, caller, postId, now))
    ensures Valid(db.tables)
  {
    var t := db.tables;
    ToggleSpecValid(t, Reposts, caller, postId, now);
    var existing := FindFirst(t.reposts, PairOf(postId, caller));
    if existing.Some? {
      db.tables := t.(reposts := Filter(t.reposts, NotPairOf(postId, caller)));
    } else {
      if !PostExists(t.posts, postId) {
        return Fail(InternalError);
      }
      db.tables := t.(reposts := t.reposts + [Reaction(t.nextRepostId, postId, caller, now)], nextRepostId := t.nextRepostId + 1);
    }
    return Pass;
  }

  /**
   * What the caller sees of an existing post after `toggleLike`: `hasLiked` flips, `likes` rises by
   * one or drops by the number of deleted rows, and everything else in the view is as before.
   */
  lemma ToggleLikeView(t: Tables, p: Post, caller: UserId, now: int)
    requires p in t.posts
    ensures ToggleSpec(t, Likes, caller, p.id, now).Ok?
    ensures var v := ProjectBasic(t, p, Some(caller));
            var v' := ProjectBasic(ToggleSpec(t, Likes, caller, p.id, now).value, p, Some(caller));
            && v'.hasLiked == !v.hasLiked
            && v'.likes == (if v.hasLiked then v.likes - PairCount(t.likes, p.id, caller) else v.likes + 1)
            && v' == v.(hasLiked := v'.hasLiked, likes := v'.likes)
  {
    ToggleFlagAndCount(t.likes, p.id, caller, t.nextLikeId, now);
  }

  /** As `ToggleLikeView`, for `toggleRepost` and the `reposts` / `hasReposted` fields. */
  lemma ToggleRepostView(t: Tables, p: Post, caller: UserId, now: int)
    requires p in t.posts
    ensures ToggleSpec(t, Reposts, caller, p.id, now).Ok?
    ensures var v := ProjectBasic(t, p, Some(caller));
            var v' := ProjectBasic(ToggleSpec(t, Reposts, caller, p.id, now).value, p, Some(caller));
            && v'.hasReposted == !v.hasReposted
            && v'.reposts == (if v.hasReposted then v.reposts - PairCount(t.reposts, p.id, caller) else v.reposts + 1)
            && v' == v.(hasReposted := v'.hasReposted, reposts := v'.reposts)
  {
    ToggleFlagAndCount(t.reposts, p.id, caller, t.nextRepostId, now);
  }

  /** Starting with no like of the caller on an existing post, two `toggleLike` calls leave the likes as they were. */
  lemma ToggleLikeTwice(t: Tables, caller: UserId, postId: int, now1: int, now2: int)
    requires !HasPair(t.likes, postId, caller) && PostExists(t.posts, postId)
    ensures ToggleSpec(t, Likes, caller, postId, now1).Ok?
    ensures var t1 := ToggleSpec(t, Likes, caller, postId, now1).value;
            ToggleSpec(t1, Likes, caller, postId, now2).Ok? && ToggleSpec(t1, Likes, caller, postId, now2).value.likes == t.likes
  {
    var t1 := ToggleSpec(t, Likes, caller, postId, now1).value;
    ToggleFlips(t.likes, postId, caller, t.nextLikeId, now1);
    ToggleTwiceRestores(t.likes, postId, caller, t.nextLikeId, now1, t1.nextLikeId, now2);
  }

  // ---------------------------------------------------------------------------------------------
  // repost

  /** `repost`: CONFLICT when the pair has a row; otherwise insert one (subject to the foreign key). */
  function RepostSpec(t: Tables, caller: UserId, postId: int, now: int): Result<Tables> {
    if HasPair(t.reposts, postId, caller) then Err(Conflict)
    else if !PostExists(t.posts, postId) then Err(InternalError)
    else Ok(WithRows(t, Reposts, t.reposts + [Reaction(t.nextRepostId, postId, caller, now)], t.nextRepostId + 1))
  }

  method Repost(db: Database, caller: UserId, postId: int, now: int) returns (r: Outcome)
    requires Valid(db.tables)
    modifies db
    ensures r == Reply(RepostSpec(old(db.tables), caller, postId, now))
    ensures db.tables == Committed(old(db.tables), RepostSpec(old(db.tables), caller, postId, now))
    ensures Valid(db.tables)
  {
    var t := db.tables;
    var existing := FindFirst(t.reposts, PairOf(postId, caller));
    if existing.Some? {
      return Fail(Conflict);
    }
    if !PostExists(t.posts, postId) {
      return Fail(InternalError);
    }
    RepostOutcome(t, caller, postId, now);
    db.tables := t.(reposts := t.reposts + [Reaction(t.nextRepostId, postId, caller, now)], nextRepostId := t.nextRepostId + 1);
    return Pass;
  }

  /**
   * `repost` raises CONFLICT exactly when the pair has a row, changing nothing; on an existing post
   * without such a row it appends exactly one row of the pair, and the constraints still hold.
   */
  lemma RepostOutcome(t: Tables, caller: UserId, postId: int, now: int)
    requires Valid(t)
    ensures RepostSpec(t, caller, postId, now) == Err(Conflict) <==> HasPair(t.reposts, postId, caller)
    ensures RepostSpec(t, caller, postId, now).Ok? <==> !HasPair(t.reposts, postId, caller) && PostExists(t.posts, postId)
    ensures RepostSpec(t, caller, postId, now).Ok? ==>
              var t' := RepostSpec(t, caller, postId, now).value;
              && t'.reposts[..|t.reposts|] == t.reposts && |t'.reposts| == |t.reposts| + 1
              && PairCount(t'.reposts, postId, caller) == 1
              && t'.likes == t.likes && t'.bookmarks == t.bookmarks && t'.posts == t.posts && t'.comments == t.comments
              && Valid(t')
  {
    if !HasPair(t.reposts, postId, caller) && PostExists(t.posts, postId) {
      var added := Reaction(t.nextRepostId, postId, caller, now);
      var rows := t.reposts + [added];
      ReactionTableValid(t, Reposts);
      AppendFirstPair(t.reposts, added);
      AppendKeepsSerial(t.reposts, ReactionKey(), t.nextRepostId, added);
      AppendKeepsRefer(t.reposts, t.posts, added);
      WithRowsValid(t, Reposts, rows, t.nextRepostId + 1);
      assert RepostSpec(t, caller, postId, now).value == WithRows(t, Reposts, rows, t.nextRepostId + 1);
    }
  }

  /** Appending a row for a pair that had none leaves exactly one row of the pair. */
  lemma AppendFirstPair(rows: seq<Reaction>, added: Reaction)
    requires !HasPair(rows, added.postId, added.userId)
    ensures PairCount(rows + [added], added.postId, added.userId) == 1
    ensures (rows + [added])[..|rows|] == rows
  {
    var f := PairOf(added.postId, added.userId);
    FilterAppend(rows, [added], f);
    FilterNone(rows, f);
    assert Filter([added], f) == [added] by {
      assert [added][1..] == [];
    }
  }

  /** Appending a row on an existing post keeps every row referring to a post. */
  lemma AppendKeepsRefer(rows: seq<Reaction>, posts: seq<Post>, added: Reaction)
    requires ReactionsRefer(rows, posts) && PostExists(posts, added.postId)
    ensures ReactionsRefer(rows + [added], posts)
  {
    var r := rows + [added];
    forall i | 0 <= i < |r| ensures PostExists(posts, r[i].postId) {
      if i < |rows| { assert r[i] == rows[i]; }
    }
  }

  // ---------------------------------------------------------------------------------------------
  // addComment

  /** `set({ commentCount: commentCount + 1 })` */
  function BumpCommentCount(): Post -> Post { (p: Post) => p.(commentCount := p.commentCount + 1) }

  /**
   * `addComment`: bump the post's counter, failing with NOT_FOUND when no row was updated, then insert
   * a top-level comment; a failure rolls the whole transaction back.
   */
  function AddCommentSpec(t: Tables, caller: UserId, postId: int, content: string, now: int): Result<Inserted> {
    if |content| < 1 then Err(BadRequest)
    else if !Any(t.posts, PostWithId(postId)) then Err(NotFound)
    else if |content| > CommentContentLength then Err(InternalError)
    else
      var c := Comment(t.nextCommentId, postId, caller, None, content, now, 0, 0);
      Ok(Inserted(t.(posts := UpdateWhere(t.posts, PostWithId(postId), BumpCommentCount()),
                     comments := t.comments + [c], nextCommentId := t.nextCommentId + 1), c))
  }

  method AddComment(db: Database, caller: UserId, postId: int, content: string, now: int) returns (r: Result<Comment>)
    requires Valid(db.tables)
    modifies db
    ensures var spec := AddCommentSpec(old(db.tables), caller, postId, content, now);
            && (spec.Ok? ==> r == Ok(spec.value.comment) && db.tables == spec.value.tables)
            && (spec.Err? ==> r == Err(spec.code) && db.tables == old(db.tables))
    ensures Valid(db.tables)
  {
    if |content| < 1 {
      return Err(BadRequest);
    }
    var tx := db.tables;
    var updated := Any(tx.posts, PostWithId(postId));
    tx := tx.(posts := UpdateWhere(tx.posts, PostWithId(postId), BumpCommentCount()));
    if !updated {
      return Err(NotFound);
    }
    if |content| > CommentContentLength {
      return Err(InternalError);
    }
    var c := Comment(tx.nextCommentId, postId, caller, None, content, now, 0, 0);
    AddCommentValid(db.tables, caller, postId, content, now);
    tx := tx.(comments := tx.comments + [c], nextCommentId := tx.nextCommentId + 1);
    db.tables := tx;
    return Ok(c);
  }

  /** What `addComment` commits satisfies the schema's constraints. */
  lemma AddCommentValid(t: Tables, caller: UserId, postId: int, content: string, now: int)
    requires Valid(t)
    ensures AddCommentSpec(t, caller, postId, content, now).Ok? ==> Valid(AddCommentSpec(t, caller, postId, content, now).value.tables)
  {
    if AddCommentSpec(t, caller, postId, content, now).Ok? {
      var posts' := UpdateWhere(t.posts, PostWithId(postId), BumpCommentCount());
      CommentInsertValid(t, posts', t.comments, Comment(t.nextCommentId, postId, caller, None, content, now, 0, 0));
    }
  }

  /**
   * `addComment` on a missing post raises NOT_FOUND; on success the post's `commentCount` rises by
   * exactly one, every other post is unchanged, and exactly one top-level comment by the caller is
   * appended, with a fresh id.
   */
  lemma AddCommentEffect(t: Tables, caller: UserId, postId: int, content: string, now: int)
    requires Serial(t.comments, CommentKey(), t.nextCommentId)
    ensures |content| >= 1 && FindPost(t.posts, postId).None? ==> AddCommentSpec(t, caller, postId, content, now) == Err(NotFound)
    ensures AddCommentSpec(t, caller, postId, content, now).Ok? <==>
              1 <= |content| <= CommentContentLength && FindPost(t.posts, postId).Some?
    ensures AddCommentSpec(t, caller, postId, content, now).Ok? ==>
              var Inserted(t', c) := AddCommentSpec(t, caller, postId, content, now).value;
              && |t'.posts| == |t.posts|
              && (forall i :: 0 <= i < |t.posts| ==>
                    t'.posts[i] == if t.posts[i].id == postId then t.posts[i].(commentCount := t.posts[i].commentCount + 1) else t.posts[i])
              && t'.comments == t.comments + [c]
              && c.postId == postId && c.userId == caller && c.content == content && c.parentCommentId.None?
              && (forall i :: 0 <= i < |t.comments| ==> t.comments[i].id != c.id)
              && t'.likes == t.likes && t'.reposts == t.reposts && t'.bookmarks == t.bookmarks
  {
  }

  // ---------------------------------------------------------------------------------------------
  // Reads

  /** `getLatest`: the `LatestLimit` newest posts, newest first, projected for the caller. */
  function GetLatest(t: Tables, caller: Option<UserId>): (r: seq<PostView>)
    ensures |r| == if |t.posts| < LatestLimit then |t.posts| else LatestLimit
    ensures forall i, j :: 0 <= i < j < |r| ==> r[i].createdAt >= r[j].createdAt
    ensures forall i :: 0 <= i < |r| ==> exists p :: p in t.posts && r[i] == ProjectBasic(t, p, caller)
  {
    var rows := Take(SortDesc(t.posts, CreatedAtKey()), LatestLimit);
    NewestRows(t.posts, LatestLimit);
    ProjectedRows(t, caller, rows);
    Map(rows, BasicOf(t, caller))
  }

  /** Each post projected for the caller, as the feed's `map` does. */
  function BasicOf(t: Tables, caller: Option<UserId>): Post -> PostView {
    (p: Post) => ProjectBasic(t, p, caller)
  }

  /** The first `n` posts by `createdAt` are posts of the table, newest first. */
  lemma NewestRows(posts: seq<Post>, n: nat)
    ensures var rows := Take(SortDesc(posts, CreatedAtKey()), n);
            (forall i :: 0 <= i < |rows| ==> rows[i] in posts) && SortedDesc(rows, CreatedAtKey())
  {
    var sorted := SortDesc(posts, CreatedAtKey());
    var rows := Take(sorted, n);
    TakeSorted(sorted, CreatedAtKey(), n);
    forall i | 0 <= i < |rows| ensures rows[i] in posts {
      SortDescSameRows(posts, CreatedAtKey(), rows[i]);
    }
  }

  /** Projecting sorted rows of the table keeps their order and their origin. */
  lemma ProjectedRows(t: Tables, caller: Option<UserId>, rows: seq<Post>)
    requires (forall i :: 0 <= i < |rows| ==> rows[i] in t.posts) && SortedDesc(rows, CreatedAtKey())
    ensures var r := Map(rows, BasicOf(t, caller));
            && (forall i, j :: 0 <= i < j < |r| ==> r[i].createdAt >= r[j].createdAt)
            && (forall i :: 0 <= i < |r| ==> exists p :: p in t.posts && r[i] == ProjectBasic(t, p, caller))
  {
    var r := Map(rows, BasicOf(t, caller));
    forall i | 0 <= i < |r| ensures exists p :: p in t.posts && r[i] == ProjectBasic(t, p, caller) {
      assert rows[i] in t.posts && r[i] == ProjectBasic(t, rows[i], caller);
    }
    forall i, j | 0 <= i < j < |r| ensures r[i].createdAt >= r[j].createdAt {
      assert CreatedAtKey()(rows[i]) >= CreatedAtKey()(rows[j]);
    }
  }

  /**
   * The feed repeats no post: its views are the projections of rows that the table holds at least
   * as often as they are listed.
   */
  lemma GetLatestFromTable(t: Tables, caller: Option<UserId>)
    ensures var r := GetLatest(t, caller);
            exists rows: seq<Post> :: multiset(rows) <= multiset(t.posts) && |rows| == |r|
              && forall i :: 0 <= i < |r| ==> r[i] == ProjectBasic(t, rows[i], caller)
  {
    var rows := Take(SortDesc(t.posts, CreatedAtKey()), LatestLimit);
    TakeSubMultiset(SortDesc(t.posts, CreatedAtKey()), LatestLimit);
    var r := GetLatest(t, caller);
    assert r == Map(rows, BasicOf(t, caller));
    assert |rows| == |r| && forall i :: 0 <= i < |r| ==> r[i] == ProjectBasic(t, rows[i], caller);
  }

  /** No post left out of `getLatest` is newer than a post it returns. */
  lemma GetLatestKeepsNewest(t: Tables, caller: Option<UserId>, p: Post)
    requires p in t.posts
    ensures var r := GetLatest(t, caller);
            (exists i :: 0 <= i < |r| && r[i] == ProjectBasic(t, p, caller))
            || forall i :: 0 <= i < |r| ==> r[i].createdAt >= p.createdAt
  {
    var rows := Take(SortDesc(t.posts, CreatedAtKey()), LatestLimit);
    TopN(t.posts, CreatedAtKey(), LatestLimit, p);
    var r := GetLatest(t, caller);
    if p in rows {
      var k :| 0 <= k < |rows| && rows[k] == p;
      assert r[k] == ProjectBasic(t, p, caller);
    } else {
      forall i | 0 <= i < |r| ensures r[i].createdAt >= p.createdAt {
        assert r[i].createdAt == CreatedAtKey()(rows[i]);
      }
    }
  }

  /** While the table holds at most `LatestLimit` posts, every post is in the feed. */
  lemma GetLatestComplete(t: Tables, caller: Option<UserId>, p: Post)
    requires p in t.posts && |t.posts| <= LatestLimit
    ensures var r := GetLatest(t, caller);
            exists i :: 0 <= i < |r| && r[i] == ProjectBasic(t, p, caller)
  {
    var sorted := SortDesc(t.posts, CreatedAtKey());
    SortDescSameRows(t.posts, CreatedAtKey(), p);
    var k :| 0 <= k < |sorted| && sorted[k] == p;
    var rows := Take(sorted, LatestLimit);
    assert rows[k] == p;
    var r := GetLatest(t, caller);
    assert r == Map(rows, BasicOf(t, caller));
    assert r[k] == BasicOf(t, caller)(p);
  }

  /** With unique post ids, `getLatest` lists each post at most once: no two views share an id. */
  lemma GetLatestDistinct(t: Tables, caller: Option<UserId>)
    requires UniqueKeys(t.posts, PostKey())
    ensures var r := GetLatest(t, caller);
            forall i, j :: 0 <= i < j < |r| ==> r[i].id != r[j].id
  {
    var rows := Take(SortDesc(t.posts, CreatedAtKey()), LatestLimit);
    SortKeepsUnique(t.posts, CreatedAtKey(), PostKey());
    TakeKeepsUnique(SortDesc(t.posts, CreatedAtKey()), LatestLimit, PostKey());
    var r := GetLatest(t, caller);
    forall i, j | 0 <= i < j < |r| ensures r[i].id != r[j].id {
      assert r[i].id == PostKey()(rows[i]) && r[j].id == PostKey()(rows[j]);
    }
  }

  /**
   * `getByPostId`: the id is `Number.parseInt` of the string input. `NaN` is refused by the integer
   * column, a database error; otherwise NOT_FOUND for a missing post, or the post projected for the caller.
   */
  function GetByPostId(t: Tables, postId: string, caller: Option<UserId>): (r: Result<PostView>)
    ensures Numbers.ParseInt(postId).None? ==> r == Err(InternalError)
    ensures Numbers.ParseInt(postId).Some? ==>
              var id := Numbers.ParseInt(postId).value;
              && (r.Err? <==> forall i :: 0 <= i < |t.posts| ==> t.posts[i].id != id)
              && (r.Err? ==> r.code == NotFound)
              && (r.Ok? ==> r.value.id == id && exists p :: p in t.posts && r.value == ProjectBasic(t, p, caller))
  {
    match Numbers.ParseInt(postId)
    case None => Err(InternalError)
    case Some(id) =>
      match FindPost(t.posts, id)
      case None => Err(NotFound)
      case Some(p) => Ok(ProjectBasic(t, p, caller))
  }

  /** `getByPostId` of the decimal id of a stored post, or of that id followed by other text, finds that post. */
  lemma GetByPostIdReadsPrefix(t: Tables, p: Post, rest: string, caller: Option<UserId>)
    requires p in t.posts && UniqueKeys(t.posts, PostKey())
    requires rest == [] || !Numbers.IsDigitOf(rest[0], 10)
    requires p.id != 0 || rest == [] || (rest[0] != 'x' && rest[0] != 'X')
    ensures GetByPostId(t, Numbers.IntToString(p.id) + rest, caller) == Ok(ProjectBasic(t, p, caller))
  {
    Numbers.ParseIntPrefix(p.id, rest);
    var r := GetByPostId(t, Numbers.IntToString(p.id) + rest, caller);
    var i :| 0 <= i < |t.posts| && t.posts[i] == p;
    assert r.Ok?;
    var q :| q in t.posts && r.value == ProjectBasic(t, q, caller);
    assert r.value.id == q.id;
  }

  /** A top-level comment and (a prefix of) its replies, as `getComments` returns it. */
  datatype Thread = Thread(comment: Comment, children: seq<Comment>)

  /** `childComments: { limit: 2 }` */
  const ChildLimit := 2

  function TopLevel(postId: int): Comment -> bool { (c: Comment) => c.postId == postId && c.parentCommentId.None? }

  /** A top-level comment with its first `ChildLimit` replies. */
  function ThreadOf(comments: seq<Comment>, c: Comment): Thread {
    Thread(c, Take(ChildrenOf(comments, c.id), ChildLimit))
  }

  /**
   * `getComments`: NOT_FOUND for a missing post; otherwise every top-level comment of the post, in
   * table order, each with its first replies, at most `ChildLimit` of them.
   */
  function GetComments(t: Tables, postId: int): (r: Result<seq<Thread>>)
    ensures r.Err? <==> forall i :: 0 <= i < |t.posts| ==> t.posts[i].id != postId
    ensures r.Err? ==> r.code == NotFound
    ensures r.Ok? ==> forall i :: 0 <= i < |r.value| ==>
              var th := r.value[i];
              && th.comment in t.comments && th.comment.postId == postId && th.comment.parentCommentId.None?
              && |th.children| == (if |ChildrenOf(t.comments, th.comment.id)| < ChildLimit then |ChildrenOf(t.comments, th.comment.id)| else ChildLimit)
              && forall j :: 0 <= j < |th.children| ==> th.children[j] in t.comments && th.children[j].parentCommentId == Some(th.comment.id)
    ensures r.Ok? ==> forall k :: 0 <= k < |t.comments| && t.comments[k].postId == postId && t.comments[k].parentCommentId.None? ==>
              exists i :: 0 <= i < |r.value| && r.value[i].comment == t.comments[k]
  {
    if !Any(t.posts, PostWithId(postId)) then Err(NotFound)
    else
      var tops := Filter(t.comments, TopLevel(postId));
      var threads := Map(tops, (c: Comment) => ThreadOf(t.comments, c));
      ThreadsCover(t.comments, postId, tops, threads);
      Ok(threads)
  }

  /** The threads built from the top-level comments are exactly those comments, each with its replies. */
  lemma ThreadsCover(comments: seq<Comment>, postId: int, tops: seq<Comment>, threads: seq<Thread>)
    requires tops == Filter(comments, TopLevel(postId))
    requires |threads| == |tops| && forall i :: 0 <= i < |tops| ==> threads[i] == ThreadOf(comments, tops[i])
    ensures forall i :: 0 <= i < |threads| ==>
              var th := threads[i];
              && th.comment in comments && th.comment.postId == postId && th.comment.parentCommentId.None?
              && |th.children| == (if |ChildrenOf(comments, th.comment.id)| < ChildLimit then |ChildrenOf(comments, th.comment.id)| else ChildLimit)
              && forall j :: 0 <= j < |th.children| ==> th.children[j] in comments && th.children[j].parentCommentId == Some(th.comment.id)
    ensures forall k :: 0 <= k < |comments| && comments[k].postId == postId && comments[k].parentCommentId.None? ==>
              exists i :: 0 <= i < |threads| && threads[i].comment == comments[k]
  {
    forall i | 0 <= i < |threads|
      ensures threads[i].comment in comments && threads[i].comment.postId == postId && threads[i].comment.parentCommentId.None?
    {
      assert TopLevel(postId)(tops[i]);
    }
    forall i | 0 <= i < |threads|
      ensures var th := threads[i];
              && |th.children| == (if |ChildrenOf(comments, th.comment.id)| < ChildLimit then |ChildrenOf(comments, th.comment.id)| else ChildLimit)
              && forall j :: 0 <= j < |th.children| ==> th.children[j] in comments && th.children[j].parentCommentId == Some(th.comment.id)
    {
      ThreadReplies(comments, tops[i]);
    }
    forall k | 0 <= k < |comments| && comments[k].postId == postId && comments[k].parentCommentId.None?
      ensures exists i :: 0 <= i < |threads| && threads[i].comment == comments[k]
    {
      assert TopLevel(postId)(comments[k]);
      var i :| 0 <= i < |tops| && tops[i] == comments[k];
      assert threads[i].comment == comments[k];
    }
  }

  /** A thread holds the comment's first replies, at most `ChildLimit` of them. */
  lemma ThreadReplies(comments: seq<Comment>, c: Comment)
    ensures var th := ThreadOf(comments, c);
            var kids := ChildrenOf(comments, c.id);
            && th.comment == c
            && |th.children| == (if |kids| < ChildLimit then |kids| else ChildLimit)
            && forall j :: 0 <= j < |th.children| ==> th.children[j] in comments && th.children[j].parentCommentId == Some(c.id)
  {
    var th := ThreadOf(comments, c);
    var kids := ChildrenOf(comments, c.id);
    forall j | 0 <= j < |th.children| ensures th.children[j] in comments && th.children[j].parentCommentId == Some(c.id) {
      assert th.children[j] == kids[j];
    }
  }
}
