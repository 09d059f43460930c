/**
 * The optimistic like, repost and bookmark hooks: `onMutate` cancels the affected queries, takes a
 * snapshot of the detail view, the `getLatest` feed and the bookmark list, and patches them; `onError`
 * writes the snapshot back; `onSettled` invalidates all three.
 */
module ApiHooks {
  import opened Wrappers
  import opened Rows
  import opened Views
  import opened QueryCache

  datatype Action = Like | Repost

  /** `updatePostAction`: the action's count moves by one against its flag, and the flag is negated. */
  function Toggled(v: PostView, a: Action): PostView {
    match a
    case Like => v.(likes := v.likes + (if v.hasLiked then -1 else 1), hasLiked := !v.hasLiked)
    case Repost => v.(reposts := v.reposts + (if v.hasReposted then -1 else 1), hasReposted := !v.hasReposted)
  }

  function Toggler(a: Action): PostView -> PostView {
    (v: PostView) => Toggled(v, a)
  }

  function HasId(postId: int): PostView -> bool {
    (v: PostView) => v.id == postId
  }

  function NotId(postId: int): PostView -> bool {
    (v: PostView) => v.id != postId
  }

  /** The action changes its own count by one and negates its own flag; every other field is kept. */
  lemma ToggledFields(v: PostView, a: Action)
    ensures a == Like ==>
              && Toggled(v, a).hasLiked == !v.hasLiked
              && (v.hasLiked ==> Toggled(v, a).likes == v.likes - 1)
              && (!v.hasLiked ==> Toggled(v, a).likes == v.likes + 1)
              && Toggled(v, a).(likes := v.likes, hasLiked := v.hasLiked) == v
    ensures a == Repost ==>
              && Toggled(v, a).hasReposted == !v.hasReposted
              && (v.hasReposted ==> Toggled(v, a).reposts == v.reposts - 1)
              && (!v.hasReposted ==> Toggled(v, a).reposts == v.reposts + 1)
              && Toggled(v, a).(reposts := v.reposts, hasReposted := v.hasReposted) == v
  {
  }

  /** Toggling twice with the same action restores the view. */
  lemma ToggledTwice(v: PostView, a: Action)
    ensures Toggled(Toggled(v, a), a) == v
  {
  }

  /** A view whose counts agree with its flags: a set flag is counted, and no count is negative. */
  predicate Counted(v: PostView) {
    && v.likes >= 0 && (v.hasLiked ==> v.likes >= 1)
    && v.reposts >= 0 && (v.hasReposted ==> v.reposts >= 1)
  }

  /** The optimistic patch keeps the counts consistent with the flags, so it never shows a negative count. */
  lemma ToggledKeepsCounted(v: PostView, a: Action)
    ensures Counted(Toggled(v, a)) <==> Counted(v)
  {
  }

  /** The mutable draft `produce` hands to its recipe. */
  class Draft {
    var post: PostView

    constructor (post: PostView)
      ensures this.post == post
    {
      this.post := post;
    }

    /** `updatePostAction(draft, action)`: the two in-place assignments. */
    method UpdatePostAction(a: Action)
      modifies this
      ensures post == Toggled(old(post), a)
    {
      if a == Like {
        post := post.(likes := post.likes + (if post.hasLiked then -1 else 1));
        post := post.(hasLiked := !post.hasLiked);
      } else {
        post := post.(reposts := post.reposts + (if post.hasReposted then -1 else 1));
        post := post.(hasReposted := !post.hasReposted);
      }
    }
  }

  // ---------------------------------------------------------------------------------------------
  // Like and repost patches

  /** Row `i` holds the first view with this id. */
  predicate FirstWithId(s: seq<PostView>, postId: int, i: int)
    requires 0 <= i < |s|
  {
    s[i].id == postId && forall j :: 0 <= j < i ==> s[j].id != postId
  }

  /** The feed patch: `draft.find((p) => p.id === postId)`, toggled in place when found. */
  function ToggleFirst(s: seq<PostView>, postId: int, a: Action): (r: seq<PostView>)
    ensures |r| == |s|
    ensures forall i :: 0 <= i < |s| ==> r[i] == if FirstWithId(s, postId, i) then Toggled(s[i], a) else s[i]
  {
    if s == [] then []
    else if s[0].id == postId then
      assert forall i :: 0 < i < |s| ==> !FirstWithId(s, postId, i);
      [Toggled(s[0], a)] + s[1..]
    else
      var rest := ToggleFirst(s[1..], postId, a);
      forall i | 0 < i < |s|
        ensures FirstWithId(s, postId, i) == FirstWithId(s[1..], postId, i - 1)
      {
        assert forall j :: 0 <= j < i - 1 ==> s[1..][j] == s[j + 1];
      }
      [s[0]] + rest
  }

  /** The bookmark-list patch: when `old.find` finds the post, every view with its id is toggled. */
  function ListPatch(s: seq<PostView>, postId: int, a: Action): seq<PostView> {
    if FindFirst(s, HasId(postId)).Some? then UpdateWhere(s, HasId(postId), Toggler(a)) else s
  }

  /** The `find` test is redundant: the list patch is the plain `map` over the views with the id. */
  lemma ListPatchIsMap(s: seq<PostView>, postId: int, a: Action)
    ensures ListPatch(s, postId, a) == UpdateWhere(s, HasId(postId), Toggler(a))
  {
    if FindFirst(s, HasId(postId)).None? {
      assert forall i :: 0 <= i < |s| ==> !HasId(postId)(s[i]);
      assert UpdateWhere(s, HasId(postId), Toggler(a)) == s;
    }
  }

  /** No two cached views share an id. */
  predicate UniqueIds(s: seq<PostView>) {
    forall i, j :: 0 <= i < j < |s| ==> s[i].id != s[j].id
  }

  /** When ids are unique, patching the first match and patching every match agree. */
  lemma UniqueIdsSamePatch(s: seq<PostView>, postId: int, a: Action)
    requires UniqueIds(s)
    ensures ToggleFirst(s, postId, a) == ListPatch(s, postId, a)
  {
    ListPatchIsMap(s, postId, a);
    var r := ToggleFirst(s, postId, a);
    var m := UpdateWhere(s, HasId(postId), Toggler(a));
    forall i | 0 <= i < |s|
      ensures r[i] == m[i]
    {
      if s[i].id == postId {
        assert FirstWithId(s, postId, i);
      }
    }
  }

  /** The feed patch is an involution: patching again with the same action restores the list. */
  lemma ToggleFirstTwice(s: seq<PostView>, postId: int, a: Action)
    ensures ToggleFirst(ToggleFirst(s, postId, a), postId, a) == s
  {
    var r := ToggleFirst(s, postId, a);
    var rr := ToggleFirst(r, postId, a);
    assert forall j :: 0 <= j < |s| ==> r[j].id == s[j].id;
    forall i | 0 <= i < |s|
      ensures rr[i] == s[i]
    {
      assert FirstWithId(r, postId, i) == FirstWithId(s, postId, i);
      ToggledTwice(s[i], a);
    }
  }

  /** The bookmark-list patch is an involution too. */
  lemma ListPatchTwice(s: seq<PostView>, postId: int, a: Action)
    ensures ListPatch(ListPatch(s, postId, a), postId, a) == s
  {
    ListPatchIsMap(s, postId, a);
    var m := ListPatch(s, postId, a);
    ListPatchIsMap(m, postId, a);
    var mm := ListPatch(m, postId, a);
    forall i | 0 <= i < |s|
      ensures mm[i] == s[i]
    {
      ToggledTwice(s[i], a);
    }
  }

  /** A list with no view of the post is left as it was by both patches. */
  lemma PatchesAbsent(s: seq<PostView>, postId: int, a: Action)
    requires forall i :: 0 <= i < |s| ==> s[i].id != postId
    ensures ToggleFirst(s, postId, a) == s && ListPatch(s, postId, a) == s
  {
    ListPatchIsMap(s, postId, a);
  }

  /** The `if (!old) return old` guard of each updater: an undefined entry stays undefined. */
  function DetailPatch(o: Option<PostView>, a: Action): Option<PostView> {
    if o.None? then None else Some(Toggled(o.value, a))
  }

  function FeedPatch(o: Option<seq<PostView>>, postId: int, a: Action): Option<seq<PostView>> {
    if o.None? then None else Some(ToggleFirst(o.value, postId, a))
  }

  function ListPatchOpt(o: Option<seq<PostView>>, postId: int, a: Action): Option<seq<PostView>> {
    if o.None? then None else Some(ListPatch(o.value, postId, a))
  }

  /** The three `setData` calls of the like and repost `onMutate`, in order. */
  function ToggleMutate(d: Data, postId: int, a: Action): Data {
    var d1 := PutDetail(d, postId, DetailPatch(DetailOf(d, postId), a));
    var d2 := PutLatest(d1, FeedPatch(d1.latest, postId, a));
    PutBookmarked(d2, ListPatchOpt(d2.bookmarked, postId, a))
  }

  /**
   * Only the target changes: other detail entries and the `getAll` feed are kept, a defined entry stays
   * defined with the same length, an undefined one stays undefined, and only views with the id change.
   */
  lemma MutateOnlyTarget(d: Data, postId: int, a: Action)
    ensures forall id :: id != postId ==> DetailOf(ToggleMutate(d, postId, a), id) == DetailOf(d, id)
    ensures DetailOf(d, postId).None? ==> DetailOf(ToggleMutate(d, postId, a), postId).None?
    ensures DetailOf(d, postId).Some? ==> DetailOf(ToggleMutate(d, postId, a), postId) == Some(Toggled(DetailOf(d, postId).value, a))
    ensures ToggleMutate(d, postId, a).all == d.all
    ensures ToggleMutate(d, postId, a).latest.Some? <==> d.latest.Some?
    ensures ToggleMutate(d, postId, a).bookmarked.Some? <==> d.bookmarked.Some?
    ensures d.latest.Some? ==>
              var s, r := d.latest.value, ToggleMutate(d, postId, a).latest.value;
              |r| == |s| && forall i :: 0 <= i < |s| && s[i].id != postId ==> r[i] == s[i]
    ensures d.bookmarked.Some? ==>
              var s, r := d.bookmarked.value, ToggleMutate(d, postId, a).bookmarked.value;
              |r| == |s| && forall i :: 0 <= i < |s| && s[i].id != postId ==> r[i] == s[i]
  {
    if d.bookmarked.Some? {
      ListPatchIsMap(d.bookmarked.value, postId, a);
    }
  }

  /** Without a cached view of the post anywhere, the like or repost patch leaves the cache as it was. */
  lemma MutateAbsent(d: Data, postId: int, a: Action)
    requires DetailOf(d, postId).None?
    requires d.latest.Some? ==> forall i :: 0 <= i < |d.latest.value| ==> d.latest.value[i].id != postId
    requires d.bookmarked.Some? ==> forall i :: 0 <= i < |d.bookmarked.value| ==> d.bookmarked.value[i].id != postId
    ensures ToggleMutate(d, postId, a) == d
  {
    if d.latest.Some? {
      PatchesAbsent(d.latest.value, postId, a);
    }
    if d.bookmarked.Some? {
      PatchesAbsent(d.bookmarked.value, postId, a);
    }
  }

  /** Patching twice with the same action restores the whole cache. */
  lemma MutateTwice(d: Data, postId: int, a: Action)
    ensures ToggleMutate(ToggleMutate(d, postId, a), postId, a) == d
  {
    var r := ToggleMutate(d, postId, a);
    var rr := ToggleMutate(r, postId, a);
    if DetailOf(d, postId).Some? {
      ToggledTwice(d.detail[postId], a);
    }
    assert rr.detail == d.detail;
    if d.latest.Some? {
      ToggleFirstTwice(d.latest.value, postId, a);
    }
    if d.bookmarked.Some? {
      ListPatchTwice(d.bookmarked.value, postId, a);
    }
  }

  /** The `prevData` context `onMutate` returns. */
  datatype Snapshot = Snapshot(post: Option<PostView>, posts: Option<seq<PostView>>, bookmarkPosts: Option<seq<PostView>>)

  function SnapshotOf(d: Data, postId: int): Snapshot {
    Snapshot(DetailOf(d, postId), d.latest, d.bookmarked)
  }

  /** `onError` of like and repost: each defined snapshot entry is written back. */
  function ToggleRollback(d: Data, snap: Snapshot, postId: int): Data {
    var d1 := if snap.post.Some? then PutDetail(d, postId, snap.post) else d;
    var d2 := if snap.posts.Some? then PutLatest(d1, snap.posts) else d1;
    if snap.bookmarkPosts.Some? then PutBookmarked(d2, snap.bookmarkPosts) else d2
  }

  /** Every key whose snapshot was defined holds the snapshot again; the others are untouched. */
  lemma ToggleRollbackWrites(d: Data, snap: Snapshot, postId: int)
    ensures snap.post.Some? ==> DetailOf(ToggleRollback(d, snap, postId), postId) == snap.post
    ensures snap.post.None? ==> DetailOf(ToggleRollback(d, snap, postId), postId) == DetailOf(d, postId)
    ensures forall id :: id != postId ==> DetailOf(ToggleRollback(d, snap, postId), id) == DetailOf(d, id)
    ensures ToggleRollback(d, snap, postId).latest == (if snap.posts.Some? then snap.posts else d.latest)
    ensures ToggleRollback(d, snap, postId).bookmarked == (if snap.bookmarkPosts.Some? then snap.bookmarkPosts else d.bookmarked)
    ensures ToggleRollback(d, snap, postId).all == d.all
  {
  }

  /** A failed like or repost is rolled back exactly: the cache is what it was before `onMutate`. */
  lemma ToggleRollbackRestores(d: Data, postId: int, a: Action)
    ensures ToggleRollback(ToggleMutate(d, postId, a), SnapshotOf(d, postId), postId) == d
  {
    var r := ToggleRollback(ToggleMutate(d, postId, a), SnapshotOf(d, postId), postId);
    assert r.detail == d.detail;
  }

  /** The keys `onMutate` cancels: the like hook leaves the feed's fetch running. */
  function ToggleCancels(postId: int, a: Action): seq<Key> {
    match a
    case Like => [ByPostId(postId), Bookmarked]
    case Repost => [ByPostId(postId), Latest, Bookmarked]
  }

  /** The keys every `onSettled` invalidates, after success and failure alike. */
  function Settles(postId: int): seq<Key> {
    [ByPostId(postId), Latest, Bookmarked]
  }

  /** `onMutate` of `useLikePost` and `useRepostPost`. */
  method OnMutateToggle(c: Cache, postId: int, a: Action) returns (snap: Snapshot)
    modifies c
    ensures snap == SnapshotOf(old(c.data), postId)
    ensures c.data == ToggleMutate(old(c.data), postId, a)
    ensures c.cancelled == old(c.cancelled) + ToggleCancels(postId, a)
    ensures c.invalidated == old(c.invalidated)
  {
    c.Cancel(ByPostId(postId));
    if a == Repost {
      c.Cancel(Latest);
    }
    c.Cancel(Bookmarked);
    snap := Snapshot(DetailOf(c.data, postId), c.data.latest, c.data.bookmarked);
    var current := DetailOf(c.data, postId);
    if current.Some? {
      var draft := new Draft(current.value);
      draft.UpdatePostAction(a);
      c.SetDetail(postId, Some(draft.post));
    }
    c.SetLatest(FeedPatch(c.data.latest, postId, a));
    c.SetBookmarked(ListPatchOpt(c.data.bookmarked, postId, a));
  }

  /** `onError` of `useLikePost` and `useRepostPost` (the toast is not modelled). */
  method OnErrorToggle(c: Cache, postId: int, snap: Snapshot)
    modifies c
    ensures c.data == ToggleRollback(old(c.data), snap, postId)
    ensures c.cancelled == old(c.cancelled) && c.invalidated == old(c.invalidated)
  {
    if snap.post.Some? {
      c.SetDetail(postId, snap.post);
    }
    if snap.posts.Some? {
      c.SetLatest(snap.posts);
    }
    if snap.bookmarkPosts.Some? {
      c.SetBookmarked(snap.bookmarkPosts);
    }
  }

  /** `onSettled` of all three hooks. */
  method OnSettled(c: Cache, postId: int)
    modifies c
    ensures c.invalidated == old(c.invalidated) + Settles(postId)
    ensures c.data == old(c.data) && c.cancelled == old(c.cancelled)
  {
    c.Invalidate(ByPostId(postId));
    c.Invalidate(Latest);
    c.Invalidate(Bookmarked);
  }

  /**
   * A whole like or repost mutation with no other cache traffic in between: after success the cache
   * holds the patch, after failure exactly what it held before, and the three keys are invalidated.
   */
  method ToggleFlow(c: Cache, postId: int, a: Action, succeeded: bool)
    modifies c
    ensures c.data == if succeeded then ToggleMutate(old(c.data), postId, a) else old(c.data)
    ensures c.cancelled == old(c.cancelled) + ToggleCancels(postId, a)
    ensures c.invalidated == old(c.invalidated) + Settles(postId)
  {
    var snap := OnMutateToggle(c, postId, a);
    if !succeeded {
      ToggleRollbackRestores(old(c.data), postId, a);
      OnErrorToggle(c, postId, snap);
    }
    OnSettled(c, postId);
  }

  // ---------------------------------------------------------------------------------------------
  // Bookmark patches

  /** `draft.isBookmarked = !draft.isBookmarked`; an undefined flag is falsy, so it becomes true. */
  function Flip(v: PostView): PostView {
    v.(isBookmarked := Some(!(v.isBookmarked == Some(true))))
  }

  function FlipOpt(o: Option<PostView>): Option<PostView> {
    if o.None? then None else Some(Flip(o.value))
  }

  function FeedFlip(o: Option<seq<PostView>>, postId: int): Option<seq<PostView>> {
    if o.None? then None else Some(UpdateWhere(o.value, HasId(postId), Flip))
  }

  /**
   * The bookmark-list updater: a listed post is filtered out; an unlisted one is appended from the
   * detail view with `isBookmarked: true`; without a detail view the list is kept.
   */
  function BookmarkListPatch(o: Option<seq<PostView>>, postId: int, detail: Option<PostView>): Option<seq<PostView>> {
    if o.None? then None
    else if FindFirst(o.value, HasId(postId)).Some? then Some(Filter(o.value, NotId(postId)))
    else if detail.None? then o
    else Some(o.value + [detail.value.(isBookmarked := Some(true))])
  }

  /** `onMutate` of `useBookmarkPost`: the feed, then the detail, then the list, which reads the patched detail. */
  function BookmarkMutate(d: Data, postId: int): Data {
    var d1 := PutLatest(d, FeedFlip(d.latest, postId));
    var d2 := PutDetail(d1, postId, FlipOpt(DetailOf(d1, postId)));
    PutBookmarked(d2, BookmarkListPatch(d2.bookmarked, postId, DetailOf(d2, postId)))
  }

  /**
   * The three cases of the bookmark-list patch. A listed post is filtered out: every other view is kept
   * as often as it occurs and in list order, and no view of the post is left.
   */
  lemma BookmarkListCases(d: Data, postId: int)
    requires d.bookmarked.Some?
    ensures var s, r := d.bookmarked.value, BookmarkMutate(d, postId).bookmarked;
            && ((exists i :: 0 <= i < |s| && s[i].id == postId) ==>
                  && r == Some(Filter(s, NotId(postId)))
                  && (forall i :: 0 <= i < |r.value| ==> r.value[i].id != postId)
                  && (forall v: PostView :: multiset(r.value)[v] == if v.id != postId then multiset(s)[v] else 0)
                  && (forall i :: 0 <= i <= |s| ==> Filter(s[..i], NotId(postId)) <= r.value))
            && ((forall i :: 0 <= i < |s| ==> s[i].id != postId) && DetailOf(d, postId).Some? ==>
                  r == Some(s + [DetailOf(d, postId).value.(isBookmarked := Some(true))]))
            && ((forall i :: 0 <= i < |s| ==> s[i].id != postId) && DetailOf(d, postId).None? ==> r == Some(s))
  {
    var detail := DetailOf(d, postId);
    MutatedListReadsFlippedDetail(d, postId);
    ListPatchCases(d.bookmarked.value, postId, FlipOpt(detail));
    RemovedKeepsOthers(d.bookmarked.value, postId);
    if detail.Some? {
      assert Flip(detail.value).(isBookmarked := Some(true)) == detail.value.(isBookmarked := Some(true));
    }
  }

  /** The list patch of `onMutate` sees the list as it was and the detail view already flipped. */
  lemma MutatedListReadsFlippedDetail(d: Data, postId: int)
    ensures BookmarkMutate(d, postId).bookmarked == BookmarkListPatch(d.bookmarked, postId, FlipOpt(DetailOf(d, postId)))
  {
    var d1 := PutLatest(d, FeedFlip(d.latest, postId));
    var d2 := PutDetail(d1, postId, FlipOpt(DetailOf(d1, postId)));
    assert DetailOf(d1, postId) == DetailOf(d, postId);
    assert d2.bookmarked == d.bookmarked;
    assert DetailOf(d2, postId) == FlipOpt(DetailOf(d, postId));
  }

  /**
   * The list updater on a cached list: a listed post is filtered out (see `RemovedKeepsOthers`); an
   * unlisted one is appended; without a view the list is kept.
   */
  lemma ListPatchCases(s: seq<PostView>, postId: int, detail: Option<PostView>)
    ensures var r := BookmarkListPatch(Some(s), postId, detail);
            && ((exists i :: 0 <= i < |s| && s[i].id == postId) ==> r == Some(Filter(s, NotId(postId))))
            && ((forall i :: 0 <= i < |s| ==> s[i].id != postId) && detail.Some? ==>
                  r == Some(s + [detail.value.(isBookmarked := Some(true))]))
            && ((forall i :: 0 <= i < |s| ==> s[i].id != postId) && detail.None? ==> r == Some(s))
  {
    if exists i :: 0 <= i < |s| && s[i].id == postId {
      var i :| 0 <= i < |s| && s[i].id == postId;
      assert HasId(postId)(s[i]);
    } else {
      assert forall i :: 0 <= i < |s| ==> !HasId(postId)(s[i]);
    }
  }

  /** Filtering a post out keeps no view of it, and every other view as often as it occurs and in list order. */
  lemma RemovedKeepsOthers(s: seq<PostView>, postId: int)
    ensures var r := Filter(s, NotId(postId));
            && (forall i :: 0 <= i < |r| ==> r[i].id != postId)
            && (forall v: PostView :: multiset(r)[v] == if v.id != postId then multiset(s)[v] else 0)
            && (forall i :: 0 <= i <= |s| ==> Filter(s[..i], NotId(postId)) <= r)
  {
    var r := Filter(s, NotId(postId));
    forall i | 0 <= i < |r| ensures r[i].id != postId {
      assert NotId(postId)(r[i]);
    }
    forall v: PostView ensures multiset(r)[v] == if v.id != postId then multiset(s)[v] else 0 {
      FilterCounts(s, NotId(postId), v);
    }
    forall k | 0 <= k <= |s| ensures Filter(s[..k], NotId(postId)) <= r {
      FilterPrefix(s, NotId(postId), k);
    }
  }

  /** The bookmark patch changes only `isBookmarked` in the feed and the detail view; likes and reposts are kept. */
  lemma BookmarkFlipsOnly(d: Data, postId: int)
    ensures var r := BookmarkMutate(d, postId);
            && r.latest.Some? == d.latest.Some?
            && (d.latest.Some? ==>
                  |r.latest.value| == |d.latest.value|
                  && forall i :: 0 <= i < |d.latest.value| ==>
                       r.latest.value[i].(isBookmarked := d.latest.value[i].isBookmarked) == d.latest.value[i]
                       && (d.latest.value[i].id == postId ==> r.latest.value[i].isBookmarked == Some(d.latest.value[i].isBookmarked != Some(true)))
                       && (d.latest.value[i].id != postId ==> r.latest.value[i] == d.latest.value[i]))
            && DetailOf(r, postId).Some? == DetailOf(d, postId).Some?
            && (DetailOf(d, postId).Some? ==>
                  DetailOf(r, postId).value.(isBookmarked := DetailOf(d, postId).value.isBookmarked) == DetailOf(d, postId).value
                  && DetailOf(r, postId).value.isBookmarked == Some(DetailOf(d, postId).value.isBookmarked != Some(true)))
            && (forall id :: id != postId ==> DetailOf(r, id) == DetailOf(d, id))
            && r.all == d.all
  {
  }

  /** `onMutate` of `useBookmarkPost`. */
  method OnMutateBookmark(c: Cache, postId: int) returns (snap: Snapshot)
    modifies c
    ensures snap == SnapshotOf(old(c.data), postId)
    ensures c.data == BookmarkMutate(old(c.data), postId)
    ensures c.cancelled == old(c.cancelled) + [ByPostId(postId)]
    ensures c.invalidated == old(c.invalidated)
  {
    c.Cancel(ByPostId(postId));
    snap := Snapshot(DetailOf(c.data, postId), c.data.latest, c.data.bookmarked);
    c.SetLatest(FeedFlip(c.data.latest, postId));
    c.SetDetail(postId, FlipOpt(DetailOf(c.data, postId)));
    c.SetBookmarked(BookmarkListPatch(c.data.bookmarked, postId, DetailOf(c.data, postId)));
  }

  /** `onError` of `useBookmarkPost` as written: only the detail view and the feed are written back. */
  function BookmarkRollback(d: Data, snap: Snapshot, postId: int): Data {
    var d1 := if snap.post.Some? then PutDetail(d, postId, snap.post) else d;
    if snap.posts.Some? then PutLatest(d1, snap.posts) else d1
  }

  /**
   * After a failed bookmark toggle the detail view and the feed are restored but the bookmark list
   * keeps the optimistic patch: a bookmarked post stays removed from the list although the server
   * kept the bookmark.
   */
  lemma BookmarkListNotRestored(d: Data, postId: int)
    ensures var r := BookmarkRollback(BookmarkMutate(d, postId), SnapshotOf(d, postId), postId);
            && r.(bookmarked := d.bookmarked) == d
            && r.bookmarked == BookmarkMutate(d, postId).bookmarked
    ensures d.bookmarked.Some? && (exists i :: 0 <= i < |d.bookmarked.value| && d.bookmarked.value[i].id == postId) ==>
              BookmarkRollback(BookmarkMutate(d, postId), SnapshotOf(d, postId), postId).bookmarked != d.bookmarked
  {
    var r := BookmarkRollback(BookmarkMutate(d, postId), SnapshotOf(d, postId), postId);
    assert r.detail == d.detail;
    if d.bookmarked.Some? && (exists i :: 0 <= i < |d.bookmarked.value| && d.bookmarked.value[i].id == postId) {
      var s := d.bookmarked.value;
      var i :| 0 <= i < |s| && s[i].id == postId;
      BookmarkListCases(d, postId);
      assert r.bookmarked.value != s by {
        assert s[i] !in r.bookmarked.value;
      }
    }
  }

  /** `onError` with the bookmark list written back as well. */
  function BookmarkRollbackFixed(d: Data, snap: Snapshot, postId: int): Data {
    var d2 := BookmarkRollback(d, snap, postId);
    if snap.bookmarkPosts.Some? then PutBookmarked(d2, snap.bookmarkPosts) else d2
  }

  /** With the list written back too, a failed bookmark toggle is rolled back exactly. */
  lemma BookmarkRollbackFixedRestores(d: Data, postId: int)
    ensures BookmarkRollbackFixed(BookmarkMutate(d, postId), SnapshotOf(d, postId), postId) == d
  {
    var r := BookmarkRollbackFixed(BookmarkMutate(d, postId), SnapshotOf(d, postId), postId);
    assert r.detail == d.detail;
  }

  /** `onError` of `useBookmarkPost` as written (the toast is not modelled). */
  method OnErrorBookmark(c: Cache, postId: int, snap: Snapshot)
    modifies c
    ensures c.data == BookmarkRollback(old(c.data), snap, postId)
    ensures c.cancelled == old(c.cancelled) && c.invalidated == old(c.invalidated)
  {
    if snap.post.Some? {
      c.SetDetail(postId, snap.post);
    }
    if snap.posts.Some? {
      c.SetLatest(snap.posts);
    }
  }

  /** The corrected `onError`, which also writes back the bookmark list. */
  method OnErrorBookmarkFixed(c: Cache, postId: int, snap: Snapshot)
    modifies c
    ensures c.data == BookmarkRollbackFixed(old(c.data), snap, postId)
    ensures c.cancelled == old(c.cancelled) && c.invalidated == old(c.invalidated)
  {
    OnErrorBookmark(c, postId, snap);
    if snap.bookmarkPosts.Some? {
      c.SetBookmarked(snap.bookmarkPosts);
    }
  }

  /** A whole bookmark toggle with the corrected `onError`: a failure leaves the cache as it was. */
  method BookmarkFlow(c: Cache, postId: int, succeeded: bool)
    modifies c
    ensures c.data == if succeeded then BookmarkMutate(old(c.data), postId) else old(c.data)
    ensures c.cancelled == old(c.cancelled) + [ByPostId(postId)]
    ensures c.invalidated == old(c.invalidated) + Settles(postId)
  {
    var snap := OnMutateBookmark(c, postId);
    if !succeeded {
      BookmarkRollbackFixedRestores(old(c.data), postId);
      OnErrorBookmarkFixed(c, postId, snap);
    }
    OnSettled(c, postId);
  }
}
