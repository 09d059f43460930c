/**
 * The older app's `usePost` hook over the `getAll` feed: the like and repost patches read the flag of
 * the target found in the snapshot, a failure writes the snapshot back and shows a notice, and
 * settlement invalidates the feed.
 */
module LegacyUsePost {
  import opened Wrappers
  import opened Rows
  import opened Views
  import opened QueryCache
  import opened ApiHooks

  /** The error toast: the login notice for `UNAUTHORIZED`, the generic one with the message otherwise. */
  datatype Notice = MustLogIn(action: Action) | SomethingWentWrong(message: string)

  const UnauthorizedMessage: string := "UNAUTHORIZED"

  /** `targetPost?.hasLiked` (or `hasReposted`): an undefined target reads as false. */
  function TargetFlag(target: Option<PostView>, a: Action): bool {
    target.Some? && (if a == Like then target.value.hasLiked else target.value.hasReposted)
  }

  /** The spread over one matched view: its flag set from the target's, its count moved by the target's flag. */
  function FromTarget(target: Option<PostView>, a: Action): PostView -> PostView {
    var flag := TargetFlag(target, a);
    (p: PostView) =>
      if a == Like then p.(hasLiked := !flag, likes := if flag then p.likes - 1 else p.likes + 1)
      else p.(hasReposted := !flag, reposts := if flag then p.reposts - 1 else p.reposts + 1)
  }

  /** The `setData` updater: an undefined cache gets the snapshot back; otherwise the views with the id are patched. */
  function Updater(cur: Option<seq<PostView>>, previous: seq<PostView>, postId: int, target: Option<PostView>, a: Action): (r: Option<seq<PostView>>)
    ensures cur.None? ==> r == Some(previous)
    ensures cur.Some? ==> r.Some? && |r.value| == |cur.value|
    ensures cur.Some? ==> forall i :: 0 <= i < |cur.value| && cur.value[i].id != postId ==> r.value[i] == cur.value[i]
  {
    if cur.None? then Some(previous) else Some(UpdateWhere(cur.value, HasId(postId), FromTarget(target, a)))
  }

  /**
   * `onMutate` on the cache's data: nothing without a cached feed; the like patch is always written,
   * the repost patch only when the target is in the snapshot.
   */
  function LegacyMutate(d: Data, postId: int, a: Action): Data {
    if d.all.None? then d
    else
      var previous := d.all.value;
      var target := FindFirst(previous, HasId(postId));
      if a == Repost && target.None? then d
      else PutAll(d, Updater(d.all, previous, postId, target, a))
  }

  /** Every matched view gets the same flag, the negation of the first match's, and its count moves by that first flag. */
  lemma MatchedFollowTarget(s: seq<PostView>, postId: int, a: Action, i: int)
    requires 0 <= i < |s| && s[i].id == postId
    ensures var target := FindFirst(s, HasId(postId));
            var r := LegacyMutate(Data(map[], None, None, Some(s)), postId, a).all.value;
            && target.Some?
            && (a == Like ==> r[i].hasLiked == !target.value.hasLiked
                              && r[i].likes == s[i].likes + (if target.value.hasLiked then -1 else 1)
                              && r[i].(hasLiked := s[i].hasLiked, likes := s[i].likes) == s[i])
            && (a == Repost ==> r[i].hasReposted == !target.value.hasReposted
                                && r[i].reposts == s[i].reposts + (if target.value.hasReposted then -1 else 1)
                                && r[i].(hasReposted := s[i].hasReposted, reposts := s[i].reposts) == s[i])
  {
    assert HasId(postId)(s[i]);
  }

  /** When ids are unique the target is the view itself, so the patch is the shared toggle rule. */
  lemma UniqueIdsToggle(s: seq<PostView>, postId: int, a: Action)
    requires UniqueIds(s)
    ensures LegacyMutate(Data(map[], None, None, Some(s)), postId, a).all == Some(UpdateWhere(s, HasId(postId), Toggler(a)))
  {
    var d := Data(map[], None, None, Some(s));
    var target := FindFirst(s, HasId(postId));
    var m := UpdateWhere(s, HasId(postId), Toggler(a));
    if target.Some? {
      var k :| 0 <= k < |s| && s[k] == target.value && HasId(postId)(s[k]);
      var r := UpdateWhere(s, HasId(postId), FromTarget(target, a));
      assert LegacyMutate(d, postId, a).all == Some(r);
      forall i | 0 <= i < |s|
        ensures r[i] == m[i]
      {
        if s[i].id == postId {
          assert i == k;
          TargetToggle(s[k], a);
        }
      }
      assert r == m;
    } else {
      assert forall i :: 0 <= i < |s| ==> !HasId(postId)(s[i]);
      assert m == s;
      assert UpdateWhere(s, HasId(postId), FromTarget(target, a)) == s;
    }
  }

  /** Patching the target itself from its own flag is the shared toggle. */
  lemma TargetToggle(v: PostView, a: Action)
    ensures FromTarget(Some(v), a)(v) == Toggled(v, a)
  {
  }

  /** Without cached feed data, or without the post in it, the cache is left as it was; other keys never change. */
  lemma LegacyMutateUntouched(d: Data, postId: int, a: Action)
    ensures d.all.None? ==> LegacyMutate(d, postId, a) == d
    ensures d.all.Some? && (forall i :: 0 <= i < |d.all.value| ==> d.all.value[i].id != postId) ==> LegacyMutate(d, postId, a) == d
    ensures LegacyMutate(d, postId, a).(all := d.all) == d
  {
    if d.all.Some? && (forall i :: 0 <= i < |d.all.value| ==> d.all.value[i].id != postId) {
      var s := d.all.value;
      assert forall i :: 0 <= i < |s| ==> !HasId(postId)(s[i]);
      var target := FindFirst(s, HasId(postId));
      assert UpdateWhere(s, HasId(postId), FromTarget(target, a)) == s;
    }
  }

  /** `onError`: the snapshot is written back when it was defined. */
  function LegacyRollback(d: Data, previousPosts: Option<seq<PostView>>): Data {
    if previousPosts.Some? then PutAll(d, previousPosts) else d
  }

  /** A failed toggle leaves the cache as it was before `onMutate`. */
  lemma LegacyRollbackRestores(d: Data, postId: int, a: Action)
    ensures LegacyRollback(LegacyMutate(d, postId, a), d.all) == d
  {
  }

  /** The error message decides the notice: the login notice exactly for `UNAUTHORIZED`. */
  function ErrorNotice(a: Action, message: string): (n: Notice)
    ensures n.MustLogIn? <==> message == UnauthorizedMessage
    ensures n.MustLogIn? ==> n.action == a
    ensures n.SomethingWentWrong? ==> n.message == message
  {
    if message == UnauthorizedMessage then MustLogIn(a) else SomethingWentWrong(message)
  }

  /** The keys `onMutate` cancels: the repost hook also cancels every `getById` query. */
  function LegacyCancels(a: Action): seq<Key> {
    if a == Like then [All] else [All, EveryById]
  }

  /** `onMutate` of `toggleLike` and `toggleRepost`; the result is the `previousPosts` context. */
  method LegacyOnMutate(c: Cache, postId: int, a: Action) returns (previousPosts: Option<seq<PostView>>)
    modifies c
    ensures previousPosts == old(c.data.all)
    ensures c.data == LegacyMutate(old(c.data), postId, a)
    ensures c.cancelled == old(c.cancelled) + LegacyCancels(a)
    ensures c.invalidated == old(c.invalidated)
  {
    c.Cancel(All);
    if a == Repost {
      c.Cancel(EveryById);
    }
    previousPosts := c.data.all;
    if previousPosts.Some? {
      var target := FindFirst(previousPosts.value, HasId(postId));
      if a == Like || target.Some? {
        c.SetAll(Updater(c.data.all, previousPosts.value, postId, target, a));
      }
    }
  }

  /** `onError`: the rollback, then the notice chosen by the message. */
  method LegacyOnError(c: Cache, a: Action, message: string, previousPosts: Option<seq<PostView>>) returns (notice: Notice)
    modifies c
    ensures c.data == LegacyRollback(old(c.data), previousPosts)
    ensures notice == ErrorNotice(a, message)
    ensures c.cancelled == old(c.cancelled) && c.invalidated == old(c.invalidated)
  {
    if previousPosts.Some? {
      c.SetAll(previousPosts);
    }
    notice := ErrorNotice(a, message);
  }

  /** `onSettled`: only the feed is invalidated. */
  method LegacyOnSettled(c: Cache)
    modifies c
    ensures c.invalidated == old(c.invalidated) + [All]
    ensures c.data == old(c.data) && c.cancelled == old(c.cancelled)
  {
    c.Invalidate(All);
  }

  /**
   * A whole toggle with no other cache traffic in between; `failure` is the error message when the
   * mutation fails. A failure restores the cache and yields its notice.
   */
  method LegacyToggleFlow(c: Cache, postId: int, a: Action, failure: Option<string>) returns (notice: Option<Notice>)
    modifies c
    ensures c.data == if failure.None? then LegacyMutate(old(c.data), postId, a) else old(c.data)
    ensures notice == if failure.None? then None else Some(ErrorNotice(a, failure.value))
    ensures c.cancelled == old(c.cancelled) + LegacyCancels(a)
    ensures c.invalidated == old(c.invalidated) + [All]
  {
    var previousPosts := LegacyOnMutate(c, postId, a);
    notice := None;
    if failure.Some? {
      LegacyRollbackRestores(old(c.data), postId, a);
      var n := LegacyOnError(c, a, failure.value, previousPosts);
      notice := Some(n);
    }
    LegacyOnSettled(c);
  }
}
