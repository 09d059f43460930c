/**
 * The part of a returned post that the read procedures compute: the post's id, content, author and
 * time, the counts derived from the joined rows, and the caller-relative flags. `isBookmarked` and
 * `hashtags` are `None` where a procedure does not compute them (the JavaScript value is then
 * `undefined`). The other spread columns, the joined author and the relation arrays are not kept.
 */
module Views {
  import opened Wrappers
  import opened Rows
  import opened Schema
  import opened Pagination

  datatype PostView = PostView(
    id: int, content: string, authorId: UserId, createdAt: int,
    likes: int, reposts: int, commentsCount: int,
    hasLiked: bool, hasReposted: bool,
    isBookmarked: Option<bool>, hashtags: Option<seq<string>>)

  /** `post.postComments`: every comment of the post, replies included. */
  function CommentsOfPost(comments: seq<Comment>, postId: int): (r: seq<Comment>)
    ensures forall i :: 0 <= i < |r| ==> r[i].postId == postId
  {
    Filter(comments, (c: Comment) => c.postId == postId)
  }

  /**
   * The projection of `getLatest` and `getByPostId`: `likes` / `reposts` / `commentsCount` are
   * row counts, and a flag holds iff a row of the caller exists (never without a session).
   */
  function ProjectBasic(t: Tables, p: Post, caller: Option<UserId>): (v: PostView)
    ensures v.id == p.id && v.authorId == p.createdById && v.createdAt == p.createdAt
    ensures v.hasLiked <==> caller.Some? && exists i :: 0 <= i < |t.likes| && t.likes[i].postId == p.id && t.likes[i].userId == caller.value
    ensures v.hasReposted <==> caller.Some? && exists i :: 0 <= i < |t.reposts| && t.reposts[i].postId == p.id && t.reposts[i].userId == caller.value
    ensures v.hasLiked ==> v.likes >= 1
    ensures v.hasReposted ==> v.reposts >= 1
    ensures v.likes <= |t.likes| && v.reposts <= |t.reposts| && v.commentsCount <= |t.comments|
    ensures v.isBookmarked.None? && v.hashtags.None?
  {
    var v := PostView(p.id, p.content, p.createdById, p.createdAt,
                      CountOf(t.likes, p.id), CountOf(t.reposts, p.id), |CommentsOfPost(t.comments, p.id)|,
                      FlagFor(t.likes, p.id, caller), FlagFor(t.reposts, p.id, caller), None, None);
    CountedWhenFlagged(t.likes, p.id, caller);
    CountedWhenFlagged(t.reposts, p.id, caller);
    v
  }

  /**
   * The projection of `getBookmarkedPosts`, `explore` and `getPostsByTag`, which also compute
   * `isBookmarked` and the post's tag names in join-row order.
   */
  function ProjectFull(t: Tables, p: Post, caller: Option<UserId>): (v: PostView)
    ensures v.id == p.id
    ensures v.isBookmarked.Some? && (v.isBookmarked.value <==> caller.Some? && exists i :: 0 <= i < |t.bookmarks| && t.bookmarks[i].postId == p.id && t.bookmarks[i].userId == caller.value)
    ensures v.hashtags == Some(TagNames(t, p.id))
    ensures v.(isBookmarked := None, hashtags := None) == ProjectBasic(t, p, caller)
  {
    ProjectBasic(t, p, caller).(isBookmarked := Some(FlagFor(t.bookmarks, p.id, caller)),
                                hashtags := Some(TagNames(t, p.id)))
  }

  /** A flagged row is also counted. */
  lemma CountedWhenFlagged(rows: seq<Reaction>, postId: int, caller: Option<UserId>)
    ensures FlagFor(rows, postId, caller) ==> CountOf(rows, postId) >= 1
  {
    if FlagFor(rows, postId, caller) {
      var i :| 0 <= i < |rows| && rows[i].postId == postId && rows[i].userId == caller.value;
      assert OfPost(postId)(rows[i]);
      assert rows[i] in Filter(rows, OfPost(postId));
    }
  }

  // ---------------------------------------------------------------------------------------------
  // Hashtag counts and membership

  /** A hashtag's name with the number of distinct posts linked to it. */
  datatype TagCount = TagCount(name: string, count: nat)

  /** `COUNT(DISTINCT post_hashtags.post_id)` over the tag's join rows (0 when the left join finds none). */
  function DistinctPosts(links: seq<PostHashtag>, hashtagId: int): set<int> {
    set i | 0 <= i < |links| && links[i].hashtagId == hashtagId :: links[i].postId
  }

  function PostCount(t: Tables): Hashtag -> int {
    (h: Hashtag) => |DistinctPosts(t.postHashtags, h.id)|
  }

  function CountOfTag(t: Tables): Hashtag -> TagCount {
    (h: Hashtag) => TagCount(h.name, |DistinctPosts(t.postHashtags, h.id)|)
  }

  /**
   * The top `n` matching tags by distinct-post count, with their counts: by non-increasing count,
   * and a matching tag left out counts no more posts than any listed, the list then being full.
   */
  lemma TopCounts(t: Tables, where: Hashtag -> bool, n: nat, h: Hashtag)
    requires h in t.hashtags && where(h)
    ensures var r := Map(Fetch(t.hashtags, where, PostCount(t), n), CountOfTag(t));
            && (forall i, j :: 0 <= i < j < |r| ==> r[i].count >= r[j].count)
            && (CountOfTag(t)(h) in r || (|r| == n && forall i :: 0 <= i < |r| ==> r[i].count >= PostCount(t)(h)))
  {
    var tags := Fetch(t.hashtags, where, PostCount(t), n);
    var r := Map(tags, CountOfTag(t));
    FetchTop(t.hashtags, where, PostCount(t), n, h);
    forall i, j | 0 <= i < j < |r| ensures r[i].count >= r[j].count {
      assert PostCount(t)(tags[i]) >= PostCount(t)(tags[j]);
    }
    if h in tags {
      var k :| 0 <= k < |tags| && tags[k] == h;
      assert r[k] == CountOfTag(t)(h);
    } else {
      forall i | 0 <= i < |r| ensures r[i].count >= PostCount(t)(h) {
        assert r[i].count == PostCount(t)(tags[i]);
      }
    }
  }

  /** The post has a `post_hashtags` row joined to a hashtag whose name is listed. */
  predicate Tagged(t: Tables, p: Post, names: seq<string>) {
    exists i :: 0 <= i < |t.postHashtags| && t.postHashtags[i].postId == p.id
      && exists j :: 0 <= j < |t.hashtags| && t.hashtags[j].id == t.postHashtags[i].hashtagId && t.hashtags[j].name in names
  }
}
