/**
 * The comment router: `createChildComment`, a transaction that bumps the parent's and the post's
 * counters and inserts a reply one level deeper, and `getChildComments`.
 */
module CommentRouter {
  import opened Wrappers
  import opened Rows
  import opened Schema
  import opened Store
  import PostRouter

  /** `set({ commentCounts: commentCounts + 1 })` */
  function BumpReplyCount(): Comment -> Comment { (c: Comment) => c.(commentCounts := c.commentCounts + 1) }

  /**
   * `createChildComment`: find the parent (NOT_FOUND if missing), bump its `commentCounts` and the
   * post's `commentCount` (NOT_FOUND if either update touches no row), then insert the reply under
   * the parent's post with depth one more than the parent's. Any failure rolls everything back.
   */
  function CreateChildSpec(t: Tables, caller: UserId, content: string, parentId: int, now: int): Result<Inserted> {
    if |content| < 1 then Err(BadRequest)
    else
      match FindComment(t.comments, parentId)
      case None => Err(NotFound)
      case Some(parent) =>
        if !Any(t.posts, PostWithId(parent.postId)) then Err(NotFound)
        else if |content| > CommentContentLength then Err(InternalError)
        else Ok(InsertReply(t, caller, content, parent, now))
  }

  /** The transaction's writes once the checks pass: both counters bumped, the reply appended with the next id. */
  function InsertReply(t: Tables, caller: UserId, content: string, parent: Comment, now: int): Inserted {
    var c := Comment(t.nextCommentId, parent.postId, caller, Some(parent.id), content, now, parent.depth + 1, 0);
    Inserted(t.(comments := UpdateWhere(t.comments, CommentWithId(parent.id), BumpReplyCount()) + [c],
                posts := UpdateWhere(t.posts, PostWithId(parent.postId), PostRouter.BumpCommentCount()),
                nextCommentId := t.nextCommentId + 1), c)
  }

  method CreateChildComment(db: Database, caller: UserId, content: string, parentId: int, now: int)
    returns (r: Result<Comment>)
    requires Valid(db.tables)
    modifies db
    ensures var spec := CreateChildSpec(old(db.tables), caller, content, parentId, now);
            && (spec.Ok? ==> r == Ok(spec.value.comment) && db.tables == spec.value.tables)
            && (spec.Err? ==> r == Err(spec.code) && db.tables == old(db.tables))
    ensures Valid(db.tables)
  {
    if |content| < 1 {
      return Err(BadRequest);
    }
    var tx := db.tables;
    var before := tx;
    var found := FindComment(tx.comments, parentId);
    if found.None? {
      return Err(NotFound);
    }
    var parent := found.value;
    var postId := parent.postId;
    var updatedParent := Any(tx.comments, CommentWithId(parentId));
    tx := tx.(comments := UpdateWhere(tx.comments, CommentWithId(parentId), BumpReplyCount()));
    var updatedPost := Any(tx.posts, PostWithId(postId));
    tx := tx.(posts := UpdateWhere(tx.posts, PostWithId(postId), PostRouter.BumpCommentCount()));
    if !updatedPost || !updatedParent {
      return Err(NotFound);
    }
    if |content| > CommentContentLength {
      return Err(InternalError);
    }
    var c := Comment(tx.nextCommentId, postId, caller, Some(parentId), content, now, parent.depth + 1, 0);
    CreateChildValid(before, caller, content, parentId, now);
    tx := tx.(comments := tx.comments + [c], nextCommentId := tx.nextCommentId + 1);
    db.tables := tx;
    return Ok(c);
  }

  /** What `createChildComment` commits satisfies the schema's constraints. */
  lemma CreateChildValid(t: Tables, caller: UserId, content: string, parentId: int, now: int)
    requires Valid(t)
    ensures CreateChildSpec(t, caller, content, parentId, now).Ok? ==> Valid(CreateChildSpec(t, caller, content, parentId, now).value.tables)
  {
    if CreateChildSpec(t, caller, content, parentId, now).Ok? {
      var posts', comments', c := CreateChildParts(t, caller, content, parentId, now);
      CommentInsertValid(t, posts', comments', c);
    }
  }

  /** A successful reply keeps every post's id and every comment's id and post, and adds one comment on an existing post. */
  lemma CreateChildParts(t: Tables, caller: UserId, content: string, parentId: int, now: int)
      returns (posts': seq<Post>, comments': seq<Comment>, c: Comment)
    requires CreateChildSpec(t, caller, content, parentId, now).Ok?
    ensures |posts'| == |t.posts| && forall i :: 0 <= i < |t.posts| ==> posts'[i].id == t.posts[i].id
    ensures |comments'| == |t.comments|
    ensures forall i :: 0 <= i < |t.comments| ==> comments'[i].id == t.comments[i].id && comments'[i].postId == t.comments[i].postId
    ensures c.id == t.nextCommentId && PostExists(t.posts, c.postId)
    ensures CreateChildSpec(t, caller, content, parentId, now).value.tables
              == t.(posts := posts', comments := comments' + [c], nextCommentId := t.nextCommentId + 1)
  {
    var parent := FindComment(t.comments, parentId).value;
    assert CreateChildSpec(t, caller, content, parentId, now).value == InsertReply(t, caller, content, parent, now);
    comments' := UpdateWhere(t.comments, CommentWithId(parentId), BumpReplyCount());
    posts' := UpdateWhere(t.posts, PostWithId(parent.postId), PostRouter.BumpCommentCount());
    c := Comment(t.nextCommentId, parent.postId, caller, Some(parentId), content, now, parent.depth + 1, 0);
    assert Any(t.posts, PostWithId(parent.postId));
  }

  /** With no comment of that id, `createChildComment` raises NOT_FOUND. */
  lemma CreateChildMissingParent(t: Tables, caller: UserId, content: string, parentId: int, now: int)
    requires |content| >= 1
    requires forall i :: 0 <= i < |t.comments| ==> t.comments[i].id != parentId
    ensures CreateChildSpec(t, caller, content, parentId, now) == Err(NotFound)
  {
  }

  /**
   * A reply succeeds exactly when the text is valid and both the parent and its post exist. It then
   * sits on the parent's post, at the parent's depth plus one, under the given parent; the parent's
   * `commentCounts` and the post's `commentCount` rise by one and no other row changes.
   */
  lemma CreateChildEffect(t: Tables, caller: UserId, content: string, parentId: int, now: int, parent: Comment)
    requires Serial(t.comments, CommentKey(), t.nextCommentId)
    requires parent in t.comments && parent.id == parentId
    ensures CreateChildSpec(t, caller, content, parentId, now).Ok? <==>
              1 <= |content| <= CommentContentLength && exists i :: 0 <= i < |t.posts| && t.posts[i].id == parent.postId
    ensures CreateChildSpec(t, caller, content, parentId, now).Ok? ==>
              var Inserted(t', c) := CreateChildSpec(t, caller, content, parentId, now).value;
              && c.depth == parent.depth + 1 && c.postId == parent.postId && c.parentCommentId == Some(parentId)
              && c.userId == caller && c.content == content
              && (forall i :: 0 <= i < |t.comments| ==> t.comments[i].id != c.id)
              && |t'.comments| == |t.comments| + 1 && t'.comments[|t.comments|] == c
              && (forall i :: 0 <= i < |t.comments| ==>
                    t'.comments[i] == if t.comments[i].id == parentId then t.comments[i].(commentCounts := t.comments[i].commentCounts + 1) else t.comments[i])
              && |t'.posts| == |t.posts|
              && (forall i :: 0 <= i < |t.posts| ==>
                    t'.posts[i] == if t.posts[i].id == parent.postId then t.posts[i].(commentCount := t.posts[i].commentCount + 1) else t.posts[i])
              && t'.likes == t.likes && t'.reposts == t.reposts && t'.bookmarks == t.bookmarks && t'.notifications == t.notifications
  {
    ParentFound(t.comments, t.nextCommentId, parent);
    if CreateChildSpec(t, caller, content, parentId, now).Ok? {
      ChildInserted(t, caller, content, parent, now);
    }
  }

  /** With unique ids, looking up a comment's id finds that comment; no comment has the next id. */
  lemma ParentFound(comments: seq<Comment>, next: int, parent: Comment)
    requires Serial(comments, CommentKey(), next) && parent in comments
    ensures FindComment(comments, parent.id) == Some(parent)
    ensures forall i :: 0 <= i < |comments| ==> comments[i].id != next
  {
    var found := FindComment(comments, parent.id);
    var k :| 0 <= k < |comments| && comments[k] == parent;
    var j :| 0 <= j < |comments| && comments[j] == found.value;
    assert CommentKey()(comments[j]) == CommentKey()(comments[k]);
    forall i | 0 <= i < |comments| ensures comments[i].id != next {
      assert CommentKey()(comments[i]) < next;
    }
  }

  /** The tables after a reply whose parent lookup found `parent`, row by row. */
  lemma ChildInserted(t: Tables, caller: UserId, content: string, parent: Comment, now: int)
    requires FindComment(t.comments, parent.id) == Some(parent)
    requires CreateChildSpec(t, caller, content, parent.id, now).Ok?
    ensures var Inserted(t', c) := CreateChildSpec(t, caller, content, parent.id, now).value;
            && c == Comment(t.nextCommentId, parent.postId, caller, Some(parent.id), content, now, parent.depth + 1, 0)
            && |t'.comments| == |t.comments| + 1 && t'.comments[|t.comments|] == c
            && (forall i :: 0 <= i < |t.comments| ==>
                  t'.comments[i] == if t.comments[i].id == parent.id then t.comments[i].(commentCounts := t.comments[i].commentCounts + 1) else t.comments[i])
            && |t'.posts| == |t.posts|
            && (forall i :: 0 <= i < |t.posts| ==>
                  t'.posts[i] == if t.posts[i].id == parent.postId then t.posts[i].(commentCount := t.posts[i].commentCount + 1) else t.posts[i])
            && t'.likes == t.likes && t'.reposts == t.reposts && t'.bookmarks == t.bookmarks && t'.notifications == t.notifications
  {
    var comments' := UpdateWhere(t.comments, CommentWithId(parent.id), BumpReplyCount());
    var posts' := UpdateWhere(t.posts, PostWithId(parent.postId), PostRouter.BumpCommentCount());
    var c := Comment(t.nextCommentId, parent.postId, caller, Some(parent.id), content, now, parent.depth + 1, 0);
    assert CreateChildSpec(t, caller, content, parent.id, now).value == InsertReply(t, caller, content, parent, now);
    var t' := InsertReply(t, caller, content, parent, now).tables;
    assert t'.comments == comments' + [c] && t'.posts == posts';
    forall i | 0 <= i < |t.comments|
      ensures t'.comments[i] == if t.comments[i].id == parent.id then t.comments[i].(commentCounts := t.comments[i].commentCounts + 1) else t.comments[i]
    {
      assert t'.comments[i] == comments'[i];
    }
  }

  /** `getChildComments`: exactly the direct replies of the comment, in table order. */
  function GetChildComments(t: Tables, parentId: int): (r: seq<Comment>)
    ensures forall i :: 0 <= i < |r| ==> r[i] in t.comments && r[i].parentCommentId == Some(parentId)
    ensures forall i :: 0 <= i < |t.comments| && t.comments[i].parentCommentId == Some(parentId) ==> t.comments[i] in r
    ensures |r| <= |t.comments|
  {
    ChildrenOf(t.comments, parentId)
  }
}
