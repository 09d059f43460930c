/**
 * The `usePost` hook given one post of the `getLatest` feed: the like and repost patches toggle the
 * cached views with the post's id by their own cached flags, a failure writes the snapshot back, and
 * settlement invalidates the feed. The flags it returns are the prop's.
 */
module AppUsePost {
  import opened Wrappers
  import opened Rows
  import opened Views
  import opened QueryCache
  import opened ApiHooks

  /** `userId` is truthy: present and not the empty string. */
  predicate SignedIn(userId: Option<string>) {
    userId.Some? && userId.value != []
  }

  /** The feed updater: `old.map` toggling every view with the id by its own flag; undefined stays undefined. */
  function LatestPatch(o: Option<seq<PostView>>, postId: int, a: Action): Option<seq<PostView>> {
    if o.None? then None else Some(UpdateWhere(o.value, HasId(postId), Toggler(a)))
  }

  function AppMutate(d: Data, postId: int, a: Action): Data {
    PutLatest(d, LatestPatch(d.latest, postId, a))
  }

  /**
   * The patch toggles exactly the views with the id, each by its own cached flag, keeps the list's
   * length and every other key, and undoes itself when applied twice.
   */
  lemma AppMutateEffect(d: Data, postId: int, a: Action)
    ensures AppMutate(d, postId, a).(latest := d.latest) == d
    ensures AppMutate(d, postId, a).latest.Some? <==> d.latest.Some?
    ensures d.latest.Some? ==>
              var s, r := d.latest.value, AppMutate(d, postId, a).latest.value;
              |r| == |s| && forall i :: 0 <= i < |s| ==> r[i] == (if s[i].id == postId then Toggled(s[i], a) else s[i])
    ensures AppMutate(AppMutate(d, postId, a), postId, a) == d
  {
    if d.latest.Some? {
      ListPatchTwice(d.latest.value, postId, a);
      ListPatchIsMap(d.latest.value, postId, a);
      ListPatchIsMap(ListPatch(d.latest.value, postId, a), postId, a);
    }
  }

  /** The flags the hook returns: the prop's `hasLiked` and `hasReposted`. */
  function ReturnedFlags(post: PostView): (bool, bool) {
    (post.hasLiked, post.hasReposted)
  }

  /**
   * The hook shows the prop's flag, not the cache's: when the cached view is the prop, the patched
   * cache holds the opposite flag of what the hook returns until the prop is re-rendered.
   */
  lemma ReturnedFlagsFromProp(d: Data, post: PostView, a: Action, i: int)
    requires d.latest.Some? && 0 <= i < |d.latest.value| && d.latest.value[i] == post
    ensures var r := AppMutate(d, post.id, a).latest.value[i];
            (a == Like ==> r.hasLiked != ReturnedFlags(post).0) && (a == Repost ==> r.hasReposted != ReturnedFlags(post).1)
  {
    AppMutateEffect(d, post.id, a);
  }

  /** `onError`: `setData(undefined, context?.previousPosts)`, which does nothing when the snapshot is undefined. */
  function AppRollback(d: Data, previousPosts: Option<seq<PostView>>): Data {
    PutLatest(d, previousPosts)
  }

  /** A failed toggle leaves the cache as it was before `onMutate`. */
  lemma AppRollbackRestores(d: Data, postId: int, a: Action)
    ensures AppRollback(AppMutate(d, postId, a), d.latest) == d
  {
  }

  /** `onMutate`: the feed's fetch is cancelled, the snapshot taken and the patch written. */
  method AppOnMutate(c: Cache, postId: int, a: Action) returns (previousPosts: Option<seq<PostView>>)
    modifies c
    ensures previousPosts == old(c.data.latest)
    ensures c.data == AppMutate(old(c.data), postId, a)
    ensures c.cancelled == old(c.cancelled) + [Latest]
    ensures c.invalidated == old(c.invalidated)
  {
    c.Cancel(Latest);
    previousPosts := c.data.latest;
    c.SetLatest(LatestPatch(c.data.latest, postId, a));
  }

  method AppOnError(c: Cache, previousPosts: Option<seq<PostView>>)
    modifies c
    ensures c.data == AppRollback(old(c.data), previousPosts)
    ensures c.cancelled == old(c.cancelled) && c.invalidated == old(c.invalidated)
  {
    c.SetLatest(previousPosts);
  }

  /**
   * `handleToggleLike` / `handleToggleRepost`: without a user nothing is sent and the cache is left
   * alone; otherwise the whole mutation runs, restoring the cache on failure and invalidating the feed.
   */
  method HandleToggle(c: Cache, post: PostView, userId: Option<string>, a: Action, succeeded: bool) returns (issued: bool)
    modifies c
    ensures issued <==> SignedIn(userId)
    ensures !issued ==> c.data == old(c.data) && c.cancelled == old(c.cancelled) && c.invalidated == old(c.invalidated)
    ensures issued ==>
              && c.data == (if succeeded then AppMutate(old(c.data), post.id, a) else old(c.data))
              && c.cancelled == old(c.cancelled) + [Latest]
              && c.invalidated == old(c.invalidated) + [Latest]
  {
    if !SignedIn(userId) {
      return false;
    }
    issued := true;
    var previousPosts := AppOnMutate(c, post.id, a);
    if !succeeded {
      AppRollbackRestores(old(c.data), post.id, a);
      AppOnError(c, previousPosts);
    }
    c.Invalidate(Latest);
  }
}
