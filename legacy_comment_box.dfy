/**
 * The older comment box: the schema only rejects empty text, the button has no length gate, and a
 * top-level comment invalidates only the post's comments.
 */
module LegacyCommentBox {
  import opened Wrappers
  import opened Text
  import opened Schema
  import PostRouter
  import CommentBox

  /** `commentSchema`: at least one UTF-16 code unit, no maximum. */
  predicate SchemaAccepts(content: string) {
    1 <= Utf16Length(content)
  }

  /** `disabled={isLoading || !session?.user || !content.trim()}` */
  predicate SubmitDisabled(isLoading: bool, signedIn: bool, content: string) {
    isLoading || !signedIn || Trim(content) == []
  }

  /** The `onSuccess` invalidations: a top-level comment refreshes the post's comments only. */
  function OnSuccess(m: CommentBox.Mutation, postId: int, parentCommentId: Option<int>): seq<CommentBox.QueryKey> {
    match m
    case AddComment(_, _) => [CommentBox.PostComments(postId)]
    case CreateChildComment(_, _) =>
      (if Truthy(parentCommentId) then [CommentBox.ChildComments(parentCommentId.value)] else []) + [CommentBox.PostComments(postId)]
  }

  /** An enabled button submits text the schema accepts; the newer box accepts no more than this one. */
  lemma EnabledSubmitIsValid(isLoading: bool, signedIn: bool, content: string)
    ensures !SubmitDisabled(isLoading, signedIn, content) ==> !isLoading && signedIn && SchemaAccepts(content)
    ensures CommentBox.SchemaAccepts(content) ==> SchemaAccepts(content)
    ensures !CommentBox.SubmitDisabled(isLoading, signedIn, content) ==> !SubmitDisabled(isLoading, signedIn, content)
  {
    var none: string := [];
    assert Trim(none) == [];
  }

  /**
   * With no maximum, every non-blank text of any length is submitted, and one longer than
   * `comments.content` allows is refused by the server.
   */
  lemma LongTextReachesServer(t: Tables, caller: UserId, postId: int, content: string, now: int)
    requires |content| > CommentContentLength && Trim(content) != []
    requires PostExists(t.posts, postId)
    ensures SchemaAccepts(content) && !SubmitDisabled(false, true, content)
    ensures PostRouter.AddCommentSpec(t, caller, postId, content, now) == Err(InternalError)
  {
    var k :| 0 <= k < |t.posts| && t.posts[k].id == postId;
    assert PostWithId(postId)(t.posts[k]);
  }

  /**
   * A successful reply invalidates the parent's child list and the post's comments; a successful
   * top-level comment invalidates the post's comments alone.
   */
  lemma SuccessInvalidates(content: string, postId: int, parentCommentId: Option<int>)
    ensures var m := CommentBox.Dispatch(content, postId, parentCommentId);
            Truthy(parentCommentId) ==>
              OnSuccess(m, postId, parentCommentId) == [CommentBox.ChildComments(parentCommentId.value), CommentBox.PostComments(postId)]
    ensures var m := CommentBox.Dispatch(content, postId, parentCommentId);
            !Truthy(parentCommentId) ==> m == CommentBox.AddComment(content, postId) && OnSuccess(m, postId, parentCommentId) == [CommentBox.PostComments(postId)]
  {
  }

  /** The box's state: its props, the form field, the loading flag, and what it sent and invalidated. */
  class Box {
    const postId: int
    const parentCommentId: Option<int>
    var content: string
    var isLoading: bool
    var sent: seq<CommentBox.Mutation>
    var invalidated: seq<CommentBox.QueryKey>

    constructor (postId: int, parentCommentId: Option<int>)
      ensures this.postId == postId && this.parentCommentId == parentCommentId
      ensures content == [] && !isLoading && sent == [] && invalidated == []
    {
      this.postId := postId;
      this.parentCommentId := parentCommentId;
      content := [];
      isLoading := false;
      sent := [];
      invalidated := [];
    }

    method Mutate(m: CommentBox.Mutation, succeeded: bool)
      requires isLoading
      modifies this
      ensures sent == old(sent) + [m]
      ensures invalidated == old(invalidated) + (if succeeded then OnSuccess(m, postId, parentCommentId) else [])
      ensures content == (if succeeded then [] else old(content))
      ensures isLoading == old(isLoading)
    {
      sent := sent + [m];
      if succeeded {
        content := [];
        invalidated := invalidated + OnSuccess(m, postId, parentCommentId);
      }
    }

    /** `onSubmit`: nothing without a session; otherwise loading is set around the awaited mutation. */
    method OnSubmit(signedIn: bool, data: string, succeeded: bool)
      modifies this
      ensures !signedIn ==> content == old(content) && isLoading == old(isLoading) && sent == old(sent) && invalidated == old(invalidated)
      ensures signedIn ==>
                && sent == old(sent) + [CommentBox.Dispatch(data, postId, parentCommentId)]
                && invalidated == old(invalidated)
                     + (if succeeded then OnSuccess(CommentBox.Dispatch(data, postId, parentCommentId), postId, parentCommentId) else [])
                && content == (if succeeded then [] else old(content))
                && !isLoading
    {
      if !signedIn {
        return;
      }
      isLoading := true;
      Mutate(CommentBox.Dispatch(data, postId, parentCommentId), succeeded);
      isLoading := false;
    }

    /** `form.handleSubmit(onSubmit)`: an empty text is rejected by the schema and sends nothing. */
    method HandleSubmit(signedIn: bool, succeeded: bool)
      modifies this
      ensures !SchemaAccepts(old(content)) || !signedIn ==>
                content == old(content) && isLoading == old(isLoading) && sent == old(sent) && invalidated == old(invalidated)
      ensures SchemaAccepts(old(content)) && signedIn ==>
                && sent == old(sent) + [CommentBox.Dispatch(old(content), postId, parentCommentId)]
                && invalidated == old(invalidated) + (if succeeded then OnSuccess(CommentBox.Dispatch(old(content), postId, parentCommentId), postId, parentCommentId) else [])
                && content == (if succeeded then [] else old(content))
                && !isLoading
    {
      if SchemaAccepts(content) {
        OnSubmit(signedIn, content, succeeded);
      }
    }
  }
}
