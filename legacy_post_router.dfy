/**
 * The post router of the first version of the app, over its own schema: posts without counters,
 * comments with a `text` column and no depth, and like / repost tables of (postId, userId) rows.
 */
module LegacyPostRouter {
  import opened Wrappers
  import opened Rows
  import opened Ordering
  import opened Schema
  import opened Views
  import opened ToggleRule

  datatype LegacyPost = LegacyPost(id: int, content: string, createdById: UserId, createdAt: int)

  datatype LegacyComment = LegacyComment(id: int, postId: int, userId: UserId, parentCommentId: Option<int>,
                                         text: string, createdAt: int)

  datatype LegacyTables = LegacyTables(
    posts: seq<LegacyPost>,
    comments: seq<LegacyComment>, nextCommentId: int,
    likes: seq<Reaction>, nextLikeId: int,
    reposts: seq<Reaction>, nextRepostId: int)

  class LegacyDatabase {
    var tables: LegacyTables

    constructor (t: LegacyTables)
      ensures tables == t
    {
      tables := t;
    }
  }

  function LegacyCommentKey(): LegacyComment -> int { (c: LegacyComment) => c.id }

  function LegacyPostExists(posts: seq<LegacyPost>, id: int): (b: bool)
    ensures b <==> exists i :: 0 <= i < |posts| && posts[i].id == id
  {
    Any(posts, (p: LegacyPost) => p.id == id)
  }

  function LegacyCommentExists(comments: seq<LegacyComment>, id: int): (b: bool)
    ensures b <==> exists i :: 0 <= i < |comments| && comments[i].id == id
  {
    Any(comments, (c: LegacyComment) => c.id == id)
  }

  ghost predicate LegacyReactionsRefer(rows: seq<Reaction>, posts: seq<LegacyPost>) {
    forall i :: 0 <= i < |rows| ==> LegacyPostExists(posts, rows[i].postId)
  }

  /** Every comment's parent, when it has one, is a comment of `comments`. */
  ghost predicate ParentsExist(comments: seq<LegacyComment>) {
    forall i :: 0 <= i < |comments| && comments[i].parentCommentId.Some? ==>
      LegacyCommentExists(comments, comments[i].parentCommentId.value)
  }

  /**
   * The identity columns of the tables this router inserts into, and the foreign keys `comment.post_id`,
   * `comment_parent_comment_id_fk`, `like.post_id` and `repost.post_id`.
   */
  ghost predicate LegacyValid(t: LegacyTables) {
    && Serial(t.comments, LegacyCommentKey(), t.nextCommentId)
    && Serial(t.likes, ReactionKey(), t.nextLikeId)
    && Serial(t.reposts, ReactionKey(), t.nextRepostId)
    && LegacyReactionsRefer(t.likes, t.posts) && LegacyReactionsRefer(t.reposts, t.posts)
    && (forall i :: 0 <= i < |t.comments| ==> LegacyPostExists(t.posts, t.comments[i].postId))
    && ParentsExist(t.comments)
  }

  // ---------------------------------------------------------------------------------------------
  // Writes

  /** A toggle deletes the caller's rows or inserts one; the insert of a row for a missing post violates its key. */
  function LegacyToggleRows(rows: seq<Reaction>, next: int, posts: seq<LegacyPost>, caller: UserId, postId: int, now: int)
    : Result<(seq<Reaction>, int)>
  {
    if HasPair(rows, postId, caller) then Ok((Filter(rows, NotPairOf(postId, caller)), next))
    else if !LegacyPostExists(posts, postId) then Err(InternalError)
    else Ok((rows + [Reaction(next, postId, caller, now)], next + 1))
  }

  function LegacyToggleLikeSpec(t: LegacyTables, caller: UserId, postId: int, now: int): Result<LegacyTables> {
    match LegacyToggleRows(t.likes, t.nextLikeId, t.posts, caller, postId, now)
    case Err(code) => Err(code)
    case Ok(rows) => Ok(t.(likes := rows.0, nextLikeId := rows.1))
  }

  function LegacyToggleRepostSpec(t: LegacyTables, caller: UserId, postId: int, now: int): Result<LegacyTables> {
    match LegacyToggleRows(t.reposts, t.nextRepostId, t.posts, caller, postId, now)
    case Err(code) => Err(code)
    case Ok(rows) => Ok(t.(reposts := rows.0, nextRepostId := rows.1))
  }

  /**
   * The toggle rule on a table of the older schema: an error exactly when it would insert a row for
   * a missing post; otherwise the rule's rows, with the identity counter advanced only on insert,
   * and the table's keys kept.
   */
  lemma LegacyToggleRowsRule(rows: seq<Reaction>, next: int, posts: seq<LegacyPost>, caller: UserId, postId: int, now: int)
    ensures var r := LegacyToggleRows(rows, next, posts, caller, postId, now);
            && (r.Err? <==> !HasPair(rows, postId, caller) && !LegacyPostExists(posts, postId))
            && (r.Err? ==> r.code == InternalError)
            && (r.Ok? ==> r.value.0 == Toggle(rows, postId, caller, next, now)
                          && r.value.1 == (if HasPair(rows, postId, caller) then next else next + 1))
    ensures var r := LegacyToggleRows(rows, next, posts, caller, postId, now);
            r.Ok? && Serial(rows, ReactionKey(), next) && LegacyReactionsRefer(rows, posts) ==>
              Serial(r.value.0, ReactionKey(), r.value.1) && LegacyReactionsRefer(r.value.0, posts)
  {
    var r := LegacyToggleRows(rows, next, posts, caller, postId, now);
    if r.Ok? && Serial(rows, ReactionKey(), next) && LegacyReactionsRefer(rows, posts) {
      ToggleKeepsSerial(rows, next, postId, caller, now);
      var r' := Toggle(rows, postId, caller, next, now);
      forall i | 0 <= i < |r'| ensures LegacyPostExists(posts, r'[i].postId) {
        if HasPair(rows, postId, caller) {
          var k :| 0 <= k < |rows| && rows[k] == r'[i];
        } else if i < |rows| {
          assert r'[i] == rows[i];
        }
      }
    }
  }

  method ToggleLike(db: LegacyDatabase, caller: UserId, postId: int, now: int) returns (r: Outcome)
    requires LegacyValid(db.tables)
    modifies db
    ensures var spec := LegacyToggleLikeSpec(old(db.tables), caller, postId, now);
            && (spec.Ok? ==> r == Pass && db.tables == spec.value)
            && (spec.Err? ==> r == Fail(spec.code) && db.tables == old(db.tables))
    ensures LegacyValid(db.tables)
  {
    var t := db.tables;
    LegacyToggleRowsRule(t.likes, t.nextLikeId, t.posts, caller, postId, now);
    var existing := FindFirst(t.likes, PairOf(postId, caller));
    if existing.Some? {
      db.tables := t.(likes := Filter(t.likes, NotPairOf(postId, caller)));
    } else if !LegacyPostExists(t.posts, postId) {
      return Fail(InternalError);
    } else {
      db.tables := t.(likes := t.likes + [Reaction(t.nextLikeId, postId, caller, now)], nextLikeId := t.nextLikeId + 1);
    }
    return Pass;
  }

  method ToggleRepost(db: LegacyDatabase, caller: UserId, postId: int, now: int) returns (r: Outcome)
    requires LegacyValid(db.tables)
    modifies db
    ensures var spec := LegacyToggleRepostSpec(old(db.tables), caller, postId, now);
            && (spec.Ok? ==> r == Pass && db.tables == spec.value)
            && (spec.Err? ==> r == Fail(spec.code) && db.tables == old(db.tables))
    ensures LegacyValid(db.tables)
  {
    var t := db.tables;
    LegacyToggleRowsRule(t.reposts, t.nextRepostId, t.posts, caller, postId, now);
    var existing := FindFirst(t.reposts, PairOf(postId, caller));
    if existing.Some? {
      db.tables := t.(reposts := Filter(t.reposts, NotPairOf(postId, caller)));
    } else if !LegacyPostExists(t.posts, postId) {
      return Fail(InternalError);
    } else {
      db.tables := t.(reposts := t.reposts + [Reaction(t.nextRepostId, postId, caller, now)], nextRepostId := t.nextRepostId + 1);
    }
    return Pass;
  }

  /**
   * `toggleLike` fails exactly when it would insert a like of a missing post. Otherwise the caller's
   * flag flips and only the caller's like rows of that post change.
   */
  lemma LegacyToggleLikeFlips(t: LegacyTables, caller: UserId, postId: int, now: int)
    ensures var r := LegacyToggleLikeSpec(t, caller, postId, now);
            && (r.Err? <==> !HasPair(t.likes, postId, caller) && !LegacyPostExists(t.posts, postId))
            && (r.Ok? ==>
                  && FlagFor(r.value.likes, postId, Some(caller)) == !FlagFor(t.likes, postId, Some(caller))
                  && Filter(r.value.likes, NotPairOf(postId, caller)) == Filter(t.likes, NotPairOf(postId, caller))
                  && r.value.reposts == t.reposts && r.value.comments == t.comments && r.value.posts == t.posts)
  {
    LegacyToggleRowsRule(t.likes, t.nextLikeId, t.posts, caller, postId, now);
    ToggleFlagAndCount(t.likes, postId, caller, t.nextLikeId, now);
    ToggleKeepsOthers(t.likes, postId, caller, t.nextLikeId, now);
  }

  /** The same for `toggleRepost` and the repost table. */
  lemma LegacyToggleRepostFlips(t: LegacyTables, caller: UserId, postId: int, now: int)
    ensures var r := LegacyToggleRepostSpec(t, caller, postId, now);
            && (r.Err? <==> !HasPair(t.reposts, postId, caller) && !LegacyPostExists(t.posts, postId))
            && (r.Ok? ==>
                  && FlagFor(r.value.reposts, postId, Some(caller)) == !FlagFor(t.reposts, postId, Some(caller))
                  && Filter(r.value.reposts, NotPairOf(postId, caller)) == Filter(t.reposts, NotPairOf(postId, caller))
                  && r.value.likes == t.likes && r.value.comments == t.comments && r.value.posts == t.posts)
  {
    LegacyToggleRowsRule(t.reposts, t.nextRepostId, t.posts, caller, postId, now);
    ToggleFlagAndCount(t.reposts, postId, caller, t.nextRepostId, now);
    ToggleKeepsOthers(t.reposts, postId, caller, t.nextRepostId, now);
  }

  /** `repost`: CONFLICT for an existing pair, then the insert, which the post key refuses for a missing post. */
  function LegacyRepostSpec(t: LegacyTables, caller: UserId, postId: int, now: int): Result<LegacyTables> {
    if HasPair(t.reposts, postId, caller) then Err(Conflict)
    else if !LegacyPostExists(t.posts, postId) then Err(InternalError)
    else Ok(t.(reposts := t.reposts + [Reaction(t.nextRepostId, postId, caller, now)], nextRepostId := t.nextRepostId + 1))
  }

  method Repost(db: LegacyDatabase, caller: UserId, postId: int, now: int) returns (r: Outcome)
    requires LegacyValid(db.tables)
    modifies db
    ensures var spec := LegacyRepostSpec(old(db.tables), caller, postId, now);
            && (spec.Ok? ==> r == Pass && db.tables == spec.value)
            && (spec.Err? ==> r == Fail(spec.code) && db.tables == old(db.tables))
    ensures LegacyValid(db.tables)
  {
    var t := db.tables;
    var existing := FindFirst(t.reposts, PairOf(postId, caller));
    if existing.Some? {
      return Fail(Conflict);
    }
    if !LegacyPostExists(t.posts, postId) {
      return Fail(InternalError);
    }
    LegacyToggleRowsRule(t.reposts, t.nextRepostId, t.posts, caller, postId, now);
    db.tables := t.(reposts := t.reposts + [Reaction(t.nextRepostId, postId, caller, now)], nextRepostId := t.nextRepostId + 1);
    return Pass;
  }

  /**
   * `repost` with an existing pair raises CONFLICT, and for a missing post fails at the foreign key;
   * otherwise it appends one row of the pair and nothing else.
   */
  lemma LegacyRepostOutcome(t: LegacyTables, caller: UserId, postId: int, now: int)
    ensures var r := LegacyRepostSpec(t, caller, postId, now);
            && (r.Err? <==> HasPair(t.reposts, postId, caller) || !LegacyPostExists(t.posts, postId))
            && (r.Err? ==> r.code == (if HasPair(t.reposts, postId, caller) then Conflict else InternalError))
    ensures LegacyRepostSpec(t, caller, postId, now).Ok? ==>
              var t' := LegacyRepostSpec(t, caller, postId, now).value;
              && t'.reposts[..|t.reposts|] == t.reposts && |t'.reposts| == |t.reposts| + 1
              && PairOf(postId, caller)(t'.reposts[|t.reposts|])
              && t'.likes == t.likes && t'.comments == t.comments && t'.posts == t.posts
  {
  }

  /**
   * `addComment`: the schema refuses empty text; the insert then needs an existing post and, when a
   * parent is given, a comment with that id. The key is checked once the row is in, so a parent id
   * equal to the new row's own id passes. No counter is kept.
   */
  function LegacyAddCommentSpec(t: LegacyTables, caller: UserId, postId: int, text: string,
                                parentCommentId: Option<int>, now: int): Result<LegacyTables> {
    var c := LegacyComment(t.nextCommentId, postId, caller, parentCommentId, text, now);
    if |text| < 1 then Err(BadRequest)
    else if !LegacyPostExists(t.posts, postId) then Err(InternalError)
    else if parentCommentId.Some? && !LegacyCommentExists(t.comments + [c], parentCommentId.value) then Err(InternalError)
    else Ok(t.(comments := t.comments + [c], nextCommentId := t.nextCommentId + 1))
  }

  /** Appending a comment whose post exists and whose parent is among the new comments keeps the comment keys. */
  lemma AppendCommentKeepsRefs(t: LegacyTables, c: LegacyComment)
    requires forall i :: 0 <= i < |t.comments| ==> LegacyPostExists(t.posts, t.comments[i].postId)
    requires ParentsExist(t.comments)
    requires LegacyPostExists(t.posts, c.postId)
    requires c.parentCommentId.Some? ==> LegacyCommentExists(t.comments + [c], c.parentCommentId.value)
    ensures forall i :: 0 <= i < |t.comments + [c]| ==> LegacyPostExists(t.posts, (t.comments + [c])[i].postId)
    ensures ParentsExist(t.comments + [c])
  {
    var s := t.comments + [c];
    forall i | 0 <= i < |s| && s[i].parentCommentId.Some? ensures LegacyCommentExists(s, s[i].parentCommentId.value) {
      if i < |t.comments| {
        assert s[i] == t.comments[i];
        var k :| 0 <= k < |t.comments| && t.comments[k].id == s[i].parentCommentId.value;
        assert s[k] == t.comments[k];
      }
    }
  }

  method AddComment(db: LegacyDatabase, caller: UserId, postId: int, text: string, parentCommentId: Option<int>, now: int)
    returns (r: Outcome)
    requires LegacyValid(db.tables)
    modifies db
    ensures var spec := LegacyAddCommentSpec(old(db.tables), caller, postId, text, parentCommentId, now);
            && (spec.Ok? ==> r == Pass && db.tables == spec.value)
            && (spec.Err? ==> r == Fail(spec.code) && db.tables == old(db.tables))
    ensures LegacyValid(db.tables)
  {
    if |text| < 1 {
      return Fail(BadRequest);
    }
    var t := db.tables;
    if !LegacyPostExists(t.posts, postId) {
      return Fail(InternalError);
    }
    var c := LegacyComment(t.nextCommentId, postId, caller, parentCommentId, text, now);
    if parentCommentId.Some? && !LegacyCommentExists(t.comments + [c], parentCommentId.value) {
      return Fail(InternalError);
    }
    AppendKeepsSerial(t.comments, LegacyCommentKey(), t.nextCommentId, c);
    AppendCommentKeepsRefs(t, c);
    db.tables := t.(comments := t.comments + [c], nextCommentId := t.nextCommentId + 1);
    return Pass;
  }

  /**
   * `addComment` succeeds exactly for non-empty text on an existing post whose given parent exists
   * (or is the new comment itself); the empty text is a BAD_REQUEST and a broken key an internal
   * error. It appends exactly one comment with the given `parentCommentId`; no other table changes.
   */
  lemma LegacyAddCommentInsertsOne(t: LegacyTables, caller: UserId, postId: int, text: string, parentCommentId: Option<int>, now: int)
    ensures var r := LegacyAddCommentSpec(t, caller, postId, text, parentCommentId, now);
            && (r.Ok? <==> |text| >= 1 && LegacyPostExists(t.posts, postId)
                           && (parentCommentId.Some? ==>
                                 LegacyCommentExists(t.comments, parentCommentId.value) || parentCommentId.value == t.nextCommentId))
            && (r.Err? ==> r.code == (if |text| < 1 then BadRequest else InternalError))
    ensures LegacyAddCommentSpec(t, caller, postId, text, parentCommentId, now).Ok? ==>
              var t' := LegacyAddCommentSpec(t, caller, postId, text, parentCommentId, now).value;
              && |t'.comments| == |t.comments| + 1 && t'.comments[..|t.comments|] == t.comments
              && (var c := t'.comments[|t.comments|];
                  c.postId == postId && c.userId == caller && c.parentCommentId == parentCommentId && c.text == text)
              && t'.posts == t.posts && t'.likes == t.likes && t'.reposts == t.reposts
  {
    var c := LegacyComment(t.nextCommentId, postId, caller, parentCommentId, text, now);
    var s := t.comments + [c];
    if parentCommentId.Some? {
      var id := parentCommentId.value;
      assert LegacyCommentExists(s, id) <==> LegacyCommentExists(t.comments, id) || id == t.nextCommentId by {
        if LegacyCommentExists(s, id) && id != t.nextCommentId {
          var k :| 0 <= k < |s| && s[k].id == id;
          assert k < |t.comments| && t.comments[k] == s[k];
        }
        if LegacyCommentExists(t.comments, id) {
          var k :| 0 <= k < |t.comments| && t.comments[k].id == id;
          assert s[k] == t.comments[k];
        }
        if id == t.nextCommentId {
          assert s[|t.comments|] == c;
        }
      }
    }
  }

  // ---------------------------------------------------------------------------------------------
  // Reads

  function LegacyCreatedAt(): LegacyPost -> int { (p: LegacyPost) => p.createdAt }
  function LegacyCommentCreatedAt(): LegacyComment -> int { (c: LegacyComment) => c.createdAt }

  /**
   * The projection of `getAll` and `getById`: counts of the post's like, repost and comment rows
   * (the comment count is carried in `commentsCount`), flags relative to the caller.
   */
  function LegacyProject(t: LegacyTables, p: LegacyPost, caller: Option<UserId>): (v: PostView)
    ensures v.id == p.id && v.createdAt == p.createdAt
    ensures v.hasLiked <==> caller.Some? && exists i :: 0 <= i < |t.likes| && t.likes[i].postId == p.id && t.likes[i].userId == caller.value
    ensures v.hasReposted <==> caller.Some? && exists i :: 0 <= i < |t.reposts| && t.reposts[i].postId == p.id && t.reposts[i].userId == caller.value
    ensures v.hasLiked ==> v.likes >= 1
    ensures v.hasReposted ==> v.reposts >= 1
    ensures v.commentsCount == |Filter(t.comments, (c: LegacyComment) => c.postId == p.id)|
  {
    CountedWhenFlagged(t.likes, p.id, caller);
    CountedWhenFlagged(t.reposts, p.id, caller);
    PostView(p.id, p.content, p.createdById, p.createdAt,
             CountOf(t.likes, p.id), CountOf(t.reposts, p.id),
             |Filter(t.comments, (c: LegacyComment) => c.postId == p.id)|,
             FlagFor(t.likes, p.id, caller), FlagFor(t.reposts, p.id, caller), None, None)
  }

  /** A post projected for the caller. */
  function LegacyView(t: LegacyTables, caller: Option<UserId>): LegacyPost -> PostView {
    (p: LegacyPost) => LegacyProject(t, p, caller)
  }

  /** The image of every row is in its sorted and mapped list. */
  lemma ImageListed<T, U>(s: seq<T>, key: T -> int, g: T -> U, x: T)
    requires x in s
    ensures g(x) in Map(SortDesc(s, key), g)
  {
    var sorted := SortDesc(s, key);
    SortDescSameRows(s, key, x);
    var m :| 0 <= m < |sorted| && sorted[m] == x;
    assert Map(sorted, g)[m] == g(x);
  }

  /** `getAll`: every post, newest first, projected for the caller. */
  function GetAll(t: LegacyTables, caller: Option<UserId>): (r: seq<PostView>)
    ensures |r| == |t.posts|
    ensures forall i, j :: 0 <= i < j < |r| ==> r[i].createdAt >= r[j].createdAt
    ensures forall i :: 0 <= i < |r| ==> exists p :: p in t.posts && r[i] == LegacyProject(t, p, caller)
    ensures forall p :: p in t.posts ==> LegacyProject(t, p, caller) in r
  {
    var sorted := SortDesc(t.posts, LegacyCreatedAt());
    var r := Map(sorted, LegacyView(t, caller));
    forall i | 0 <= i < |r| ensures exists p :: p in t.posts && r[i] == LegacyProject(t, p, caller) {
      SortDescSameRows(t.posts, LegacyCreatedAt(), sorted[i]);
      assert sorted[i] in t.posts && r[i] == LegacyProject(t, sorted[i], caller);
    }
    forall p | p in t.posts ensures LegacyProject(t, p, caller) in r {
      ImageListed(t.posts, LegacyCreatedAt(), LegacyView(t, caller), p);
    }
    forall i, j | 0 <= i < j < |r| ensures r[i].createdAt >= r[j].createdAt {
      assert LegacyCreatedAt()(sorted[i]) >= LegacyCreatedAt()(sorted[j]);
    }
    r
  }

  /** `getById`: NOT_FOUND when no post has the id, otherwise its projection. */
  function GetById(t: LegacyTables, id: int, caller: Option<UserId>): (r: Result<PostView>)
    ensures r.Err? <==> forall i :: 0 <= i < |t.posts| ==> t.posts[i].id != id
    ensures r.Err? ==> r.code == NotFound
    ensures r.Ok? ==> r.value.id == id && exists p :: p in t.posts && r.value == LegacyProject(t, p, caller)
  {
    match FindFirst(t.posts, (p: LegacyPost) => p.id == id)
    case None => Err(NotFound)
    case Some(p) => Ok(LegacyProject(t, p, caller))
  }

  /** `getLatest`: the post with the latest `createdAt`, or none when there are no posts. */
  function GetLatest(t: LegacyTables): (r: Option<LegacyPost>)
    ensures r.None? <==> t.posts == []
    ensures r.Some? ==> r.value in t.posts && forall p :: p in t.posts ==> r.value.createdAt >= p.createdAt
  {
    if t.posts == [] then None
    else
      var sorted := SortDesc(t.posts, LegacyCreatedAt());
      forall p | p in t.posts ensures sorted[0].createdAt >= p.createdAt {
        FirstIsMax(t.posts, LegacyCreatedAt(), p);
      }
      SortDescSameRows(t.posts, LegacyCreatedAt(), sorted[0]);
      Some(sorted[0])
  }

  /** A comment with its `childComments` relation, which is one-to-one in this schema. */
  datatype LegacyThread = LegacyThread(comment: LegacyComment, child: Option<LegacyComment>)

  /** `getComments`: every comment of the post, replies included, newest first. */
  function GetComments(t: LegacyTables, postId: int): (r: seq<LegacyThread>)
    ensures forall i, j :: 0 <= i < j < |r| ==> r[i].comment.createdAt >= r[j].comment.createdAt
    ensures forall i :: 0 <= i < |r| ==> r[i].comment in t.comments && r[i].comment.postId == postId
    ensures forall i :: 0 <= i < |r| && r[i].child.Some? ==> r[i].child.value in t.comments && r[i].child.value.parentCommentId == Some(r[i].comment.id)
    ensures multiset(Map(r, (th: LegacyThread) => th.comment)) == multiset(Filter(t.comments, (c: LegacyComment) => c.postId == postId))
  {
    var own := Filter(t.comments, (c: LegacyComment) => c.postId == postId);
    var sorted := SortDesc(own, LegacyCommentCreatedAt());
    var r := Map(sorted, (c: LegacyComment) => LegacyThread(c, FindFirst(t.comments, (k: LegacyComment) => k.parentCommentId == Some(c.id))));
    forall i | 0 <= i < |r| ensures r[i].comment in t.comments && r[i].comment.postId == postId {
      SortDescSameRows(own, LegacyCommentCreatedAt(), sorted[i]);
    }
    forall i, j | 0 <= i < j < |r| ensures r[i].comment.createdAt >= r[j].comment.createdAt {
      assert LegacyCommentCreatedAt()(sorted[i]) >= LegacyCommentCreatedAt()(sorted[j]);
    }
    assert Map(r, (th: LegacyThread) => th.comment) == sorted;
    r
  }
}
