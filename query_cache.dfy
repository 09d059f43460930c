/**
 * The client query cache the hooks read and patch: the detail view per post id, the `getLatest`
 * feed, the bookmark list and the older app's `getAll` feed. An absent detail entry or a `None` list
 * is `undefined`. `cancel` and `invalidate` are recorded as marks on keys.
 */
module QueryCache {
  import opened Wrappers
  import opened Views

  /** `getByPostId` for one post, `getLatest`, `getBookmarkedPosts`, the older `getAll`, and every older `getById`. */
  datatype Key = ByPostId(postId: int) | Latest | Bookmarked | All | EveryById

  datatype Data = Data(detail: map<int, PostView>, latest: Option<seq<PostView>>,
                       bookmarked: Option<seq<PostView>>, all: Option<seq<PostView>>)

  /** `getData({ postId })` on the detail query. */
  function DetailOf(d: Data, postId: int): Option<PostView> {
    if postId in d.detail then Some(d.detail[postId]) else None
  }

  /**
   * `setData({ postId }, value)` on the detail query. The query library ignores an `undefined`
   * new value, so `None` leaves the cache as it was.
   */
  function PutDetail(d: Data, postId: int, v: Option<PostView>): (r: Data)
    ensures v.None? ==> r == d
    ensures v.Some? ==> DetailOf(r, postId) == v && r.(detail := d.detail) == d
    ensures forall id :: id != postId ==> DetailOf(r, id) == DetailOf(d, id)
  {
    if v.Some? then d.(detail := d.detail[postId := v.value]) else d
  }

  /** `setData(undefined, value)` on `getLatest`; `undefined` is ignored. */
  function PutLatest(d: Data, v: Option<seq<PostView>>): (r: Data)
    ensures r.latest == (if v.Some? then v else d.latest) && r.(latest := d.latest) == d
  {
    if v.Some? then d.(latest := v) else d
  }

  /** `setData(undefined, value)` on `getBookmarkedPosts`; `undefined` is ignored. */
  function PutBookmarked(d: Data, v: Option<seq<PostView>>): (r: Data)
    ensures r.bookmarked == (if v.Some? then v else d.bookmarked) && r.(bookmarked := d.bookmarked) == d
  {
    if v.Some? then d.(bookmarked := v) else d
  }

  /** `setData(undefined, value)` on `getAll`; `undefined` is ignored. */
  function PutAll(d: Data, v: Option<seq<PostView>>): (r: Data)
    ensures r.all == (if v.Some? then v else d.all) && r.(all := d.all) == d
  {
    if v.Some? then d.(all := v) else d
  }

  /** Writing back what a key held restores it, whether it held a value or nothing. */
  lemma PutDetailBack(d: Data, postId: int, v: Option<PostView>)
    ensures PutDetail(PutDetail(d, postId, v), postId, DetailOf(d, postId)) == d
            || (DetailOf(d, postId).None? && v.Some?)
  {
    if DetailOf(d, postId).Some? && v.Some? {
      var r := PutDetail(PutDetail(d, postId, v), postId, DetailOf(d, postId));
      assert r.detail == d.detail;
    }
  }

  class Cache {
    var data: Data
    var cancelled: seq<Key>
    var invalidated: seq<Key>

    constructor (d: Data)
      ensures data == d && cancelled == [] && invalidated == []
    {
      data := d;
      cancelled := [];
      invalidated := [];
    }

    method SetDetail(postId: int, v: Option<PostView>)
      modifies this
      ensures data == PutDetail(old(data), postId, v)
      ensures cancelled == old(cancelled) && invalidated == old(invalidated)
    {
      data := PutDetail(data, postId, v);
    }

    method SetLatest(v: Option<seq<PostView>>)
      modifies this
      ensures data == PutLatest(old(data), v)
      ensures cancelled == old(cancelled) && invalidated == old(invalidated)
    {
      data := PutLatest(data, v);
    }

    method SetBookmarked(v: Option<seq<PostView>>)
      modifies this
      ensures data == PutBookmarked(old(data), v)
      ensures cancelled == old(cancelled) && invalidated == old(invalidated)
    {
      data := PutBookmarked(data, v);
    }

    method SetAll(v: Option<seq<PostView>>)
      modifies this
      ensures data == PutAll(old(data), v)
      ensures cancelled == old(cancelled) && invalidated == old(invalidated)
    {
      data := PutAll(data, v);
    }

    /** `cancel`: outgoing fetches of the key are dropped; the cached value stays. */
    method Cancel(k: Key)
      modifies this
      ensures cancelled == old(cancelled) + [k]
      ensures data == old(data) && invalidated == old(invalidated)
    {
      cancelled := cancelled + [k];
    }

    /** `invalidate`: the key is marked stale and will be fetched again. */
    method Invalidate(k: Key)
      modifies this
      ensures invalidated == old(invalidated) + [k]
      ensures data == old(data) && cancelled == old(cancelled)
    {
      invalidated := invalidated + [k];
    }
  }
}
