/**
 * The `useLikePost` and `useRepostPost` hooks given one post: the patch of the `getLatest` feed is
 * keyed by the prop's id; the like hook invalidates the feed where the repost hook cancels it; a
 * failure writes the snapshot back; settlement invalidates the post's detail view and the feed.
 */
module UsePost {
  import opened Wrappers
  import opened Views
  import opened QueryCache
  import opened ApiHooks
  import opened AppUsePost

  /** The marks `onMutate` sets on the feed's query before the snapshot: the like hook invalidates, the repost hook cancels. */
  function PreInvalidates(a: Action): seq<Key> {
    if a == Like then [Latest] else []
  }

  function PreCancels(a: Action): seq<Key> {
    if a == Like then [] else [Latest]
  }

  /** `onSettled`: the prop's detail view, then the feed. */
  function Settled(postId: int): seq<Key> {
    [ByPostId(postId), Latest]
  }

  /** `onMutate`: invalidate or cancel, then the snapshot and the patch keyed by the prop's id. */
  method OnMutate(c: Cache, post: PostView, a: Action) returns (previousPosts: Option<seq<PostView>>)
    modifies c
    ensures previousPosts == old(c.data.latest)
    ensures c.data == AppMutate(old(c.data), post.id, a)
    ensures c.cancelled == old(c.cancelled) + PreCancels(a)
    ensures c.invalidated == old(c.invalidated) + PreInvalidates(a)
  {
    if a == Like {
      c.Invalidate(Latest);
    } else {
      c.Cancel(Latest);
    }
    previousPosts := c.data.latest;
    c.SetLatest(LatestPatch(c.data.latest, post.id, a));
  }

  /** `onSettled` of both hooks. */
  method OnSettled(c: Cache, post: PostView)
    modifies c
    ensures c.invalidated == old(c.invalidated) + Settled(post.id)
    ensures c.data == old(c.data) && c.cancelled == old(c.cancelled)
  {
    c.Invalidate(ByPostId(post.id));
    c.Invalidate(Latest);
  }

  /**
   * `handleToggleLike` / `handleToggleRepost`: without a user nothing is sent; otherwise the mutation
   * runs with the same patch and rollback as the feed hook, and settles the detail view and the feed.
   */
  method HandleToggle(c: Cache, post: PostView, userId: Option<string>, a: Action, succeeded: bool) returns (issued: bool)
    modifies c
    ensures issued <==> SignedIn(userId)
    ensures !issued ==> c.data == old(c.data) && c.cancelled == old(c.cancelled) && c.invalidated == old(c.invalidated)
    ensures issued ==>
              && c.data == (if succeeded then AppMutate(old(c.data), post.id, a) else old(c.data))
              && c.cancelled == old(c.cancelled) + PreCancels(a)
              && c.invalidated == old(c.invalidated) + PreInvalidates(a) + Settled(post.id)
  {
    if !SignedIn(userId) {
      return false;
    }
    issued := true;
    var previousPosts := OnMutate(c, post, a);
    if !succeeded {
      AppRollbackRestores(old(c.data), post.id, a);
      AppOnError(c, previousPosts);
    }
    OnSettled(c, post);
  }
}
