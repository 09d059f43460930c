/**
 * The comment box of the comments feature: a form whose schema allows 1 to 280 characters, a submit
 * button gated on loading, session, blank text and length, and a submit that sends a reply when a
 * parent comment is set and a top-level comment otherwise, then invalidates the affected lists.
 */
module CommentBox {
  import opened Wrappers
  import opened Text
  import opened Ordering
  import opened Schema
  import PostRouter
  import CommentRouter

  const MaxCommentLength: nat := 280

  /** The mutation the submit sends. */
  datatype Mutation = AddComment(content: string, postId: int) | CreateChildComment(content: string, parentCommentId: int)

  /** The query caches a successful submit invalidates. */
  datatype QueryKey = PostComments(postId: int) | ChildComments(parentCommentId: int)

  /** `commentSchema`: 1 to 280 UTF-16 code units. */
  predicate SchemaAccepts(content: string) {
    1 <= Utf16Length(content) <= MaxCommentLength
  }

  /** `MAX_COMMENT_LENGTH - content.length`, negative once the text is too long. */
  function RemainingCharacters(content: string): int {
    MaxCommentLength - Utf16Length(content)
  }

  /** `disabled={isLoading || !session?.user || !content.trim() || content.length > MAX_COMMENT_LENGTH}` */
  predicate SubmitDisabled(isLoading: bool, signedIn: bool, content: string) {
    isLoading || !signedIn || Trim(content) == [] || Utf16Length(content) > MaxCommentLength
  }

  /** A truthy `parentCommentId` sends `createChildComment`; otherwise `addComment` with the post id. */
  function Dispatch(content: string, postId: int, parentCommentId: Option<int>): Mutation {
    if Truthy(parentCommentId) then CreateChildComment(content, parentCommentId.value) else AddComment(content, postId)
  }

  /** The `onSuccess` invalidations of each mutation, in the order the handlers issue them. */
  function OnSuccess(m: Mutation, postId: int, parentCommentId: Option<int>): seq<QueryKey> {
    var child := if Truthy(parentCommentId) then [ChildComments(parentCommentId.value)] else [];
    match m
    case AddComment(_, _) => [PostComments(postId)] + child
    case CreateChildComment(_, _) => child + [PostComments(postId)]
  }

  /** An enabled button submits text the schema accepts, and the remaining count is then not negative. */
  lemma EnabledSubmitIsValid(isLoading: bool, signedIn: bool, content: string)
    ensures !SubmitDisabled(isLoading, signedIn, content) ==>
              !isLoading && signedIn && SchemaAccepts(content) && RemainingCharacters(content) >= 0
    ensures RemainingCharacters(content) < 0 ==> SubmitDisabled(isLoading, signedIn, content)
  {
    if !SubmitDisabled(isLoading, signedIn, content) {
      var none: string := [];
      assert Trim(none) == [];
    }
  }

  /**
   * The button is stricter than the schema: white space alone, an ASCII space or an ideographic
   * space, passes the schema but not the button.
   */
  lemma BlankIsDisabled()
    ensures SchemaAccepts(" ") && SubmitDisabled(false, true, " ")
    ensures SchemaAccepts("\U{3000}") && SubmitDisabled(false, true, "\U{3000}")
  {
    var blank: string := " ";
    assert IsSpace(blank[0]);
    var wide: string := "\U{3000}";
    assert IsSpace(wide[0]);
  }

  /**
   * A successful submit invalidates the post's comments in every case, and a child list exactly when
   * a parent is set, that parent's.
   */
  lemma SuccessInvalidates(content: string, postId: int, parentCommentId: Option<int>, key: QueryKey)
    ensures PostComments(postId) in OnSuccess(Dispatch(content, postId, parentCommentId), postId, parentCommentId)
    ensures key.ChildComments? ==>
              (key in OnSuccess(Dispatch(content, postId, parentCommentId), postId, parentCommentId)
               <==> Truthy(parentCommentId) && key.parentCommentId == parentCommentId.value)
    ensures key.PostComments? && key in OnSuccess(Dispatch(content, postId, parentCommentId), postId, parentCommentId) ==> key.postId == postId
  {
  }

  /**
   * The schema and the button let up to 280 UTF-16 code units through, but `comments.content` holds
   * 256 characters: a text of more than 256 characters within 280 code units (257 to 280 characters
   * of the Basic Multilingual Plane, say) passes the form, and the server's insert then fails, for a
   * top-level comment and for a reply alike.
   */
  lemma OverlongCommentReachesServer(t: Tables, caller: UserId, postId: int, parent: Comment, content: string, now: int)
    requires CommentContentLength < |content| && Utf16Length(content) <= MaxCommentLength && Trim(content) != []
    requires PostExists(t.posts, postId)
    requires parent in t.comments && PostExists(t.posts, parent.postId)
    ensures SchemaAccepts(content) && !SubmitDisabled(false, true, content)
    ensures PostRouter.AddCommentSpec(t, caller, postId, content, now) == Err(InternalError)
    ensures UniqueKeys(t.comments, CommentKey()) ==>
              CommentRouter.CreateChildSpec(t, caller, content, parent.id, now) == Err(InternalError)
  {
    assert PostRouter.AddCommentSpec(t, caller, postId, content, now) == Err(InternalError) by {
      var k :| 0 <= k < |t.posts| && t.posts[k].id == postId;
      assert PostWithId(postId)(t.posts[k]);
    }
    if UniqueKeys(t.comments, CommentKey()) {
      var found := FindComment(t.comments, parent.id);
      var i :| 0 <= i < |t.comments| && t.comments[i] == parent;
      assert found.Some?;
      var j :| 0 <= j < |t.comments| && t.comments[j] == found.value;
      assert CommentKey()(t.comments[i]) == CommentKey()(t.comments[j]);
      assert found.value == parent;
      var m :| 0 <= m < |t.posts| && t.posts[m].id == parent.postId;
      assert PostWithId(parent.postId)(t.posts[m]);
    }
  }

  /** The form limit set to the column's length. */
  const FixedMaxCommentLength: nat := CommentContentLength

  predicate FixedSchemaAccepts(content: string) {
    1 <= Utf16Length(content) <= FixedMaxCommentLength
  }

  predicate FixedSubmitDisabled(isLoading: bool, signedIn: bool, content: string) {
    isLoading || !signedIn || Trim(content) == [] || Utf16Length(content) > FixedMaxCommentLength
  }

  /** With the limit at the column's length, every enabled top-level submit on an existing post is stored. */
  lemma FixedSubmitIsStored(t: Tables, caller: UserId, postId: int, content: string, now: int)
    requires !FixedSubmitDisabled(false, true, content)
    requires PostExists(t.posts, postId)
    ensures FixedSchemaAccepts(content)
    ensures PostRouter.AddCommentSpec(t, caller, postId, content, now).Ok?
  {
    var none: string := [];
    assert Trim(none) == [];
    var k :| 0 <= k < |t.posts| && t.posts[k].id == postId;
    assert PostWithId(postId)(t.posts[k]);
  }

  /** The box's state: its props, the form field, the loading flag, and what it sent and invalidated. */
  class Box {
    const postId: int
    const parentCommentId: Option<int>
    /** Whether the `setShowReply` prop was given. */
    const hasSetShowReply: bool
    var content: string
    var isLoading: bool
    var showReply: bool
    var sent: seq<Mutation>
    var invalidated: seq<QueryKey>

    constructor (postId: int, parentCommentId: Option<int>, hasSetShowReply: bool, showReply: bool)
      ensures this.postId == postId && this.parentCommentId == parentCommentId && this.hasSetShowReply == hasSetShowReply
      ensures content == [] && !isLoading && this.showReply == showReply && sent == [] && invalidated == []
    {
      this.postId := postId;
      this.parentCommentId := parentCommentId;
      this.hasSetShowReply := hasSetShowReply;
      content := [];
      isLoading := false;
      this.showReply := showReply;
      sent := [];
      invalidated := [];
    }

    /** The awaited mutation: sent while loading; on success the form resets and the lists are invalidated. */
    method Mutate(m: Mutation, succeeded: bool)
      requires isLoading
      modifies this
      ensures sent == old(sent) + [m]
      ensures invalidated == old(invalidated) + (if succeeded then OnSuccess(m, postId, parentCommentId) else [])
      ensures content == (if succeeded then [] else old(content))
      ensures isLoading == old(isLoading) && showReply == old(showReply)
    {
      sent := sent + [m];
      if succeeded {
        content := [];
        invalidated := invalidated + OnSuccess(m, postId, parentCommentId);
      }
    }

    /**
     * `onSubmit`: nothing without a session; otherwise loading is set, the mutation is sent, and in the
     * `finally` loading is cleared and the reply box is closed when `setShowReply` was given.
     */
    method OnSubmit(signedIn: bool, data: string, succeeded: bool)
      modifies this
      ensures !signedIn ==> content == old(content) && isLoading == old(isLoading) && showReply == old(showReply)
                            && sent == old(sent) && invalidated == old(invalidated)
      ensures signedIn ==>
                && sent == old(sent) + [Dispatch(data, postId, parentCommentId)]
                && invalidated == old(invalidated) + (if succeeded then OnSuccess(Dispatch(data, postId, parentCommentId), postId, parentCommentId) else [])
                && content == (if succeeded then [] else old(content))
                && !isLoading
                && showReply == (if hasSetShowReply then false else old(showReply))
    {
      if !signedIn {
        return;
      }
      isLoading := true;
      var m := Dispatch(data, postId, parentCommentId);
      Mutate(m, succeeded);
      isLoading := false;
      if hasSetShowReply {
        showReply := false;
      }
    }

    /** `form.handleSubmit(onSubmit)`: the schema is checked first, and a rejected text sends nothing. */
    method HandleSubmit(signedIn: bool, succeeded: bool)
      modifies this
      ensures !SchemaAccepts(old(content)) || !signedIn ==>
                content == old(content) && isLoading == old(isLoading) && showReply == old(showReply)
                && sent == old(sent) && invalidated == old(invalidated)
      ensures SchemaAccepts(old(content)) && signedIn ==>
                && sent == old(sent) + [Dispatch(old(content), postId, parentCommentId)]
                && invalidated == old(invalidated) + (if succeeded then OnSuccess(Dispatch(old(content), postId, parentCommentId), postId, parentCommentId) else [])
                && content == (if succeeded then [] else old(content))
                && !isLoading
                && showReply == (if hasSetShowReply then false else old(showReply))
    {
      if SchemaAccepts(content) {
        OnSubmit(signedIn, content, succeeded);
      }
    }
  }
}
