/**
 * The database as in-memory tables. Each record carries the columns of one table declaration
 * (users, posts, comments, post_likes / reposts / bookmarks, hashtags, post_hashtags, notifications);
 * `createdAt` is a plain integer timestamp. `Tables` holds every table plus the next value of each
 * serial id sequence.
 */
module Schema {
  import opened Wrappers
  import opened Rows
  import opened Ordering

  /** Users are identified by the opaque string id the auth provider issues. */
  type UserId = string

  datatype User = User(id: UserId, name: string, email: string, image: Option<string>,
                       username: Option<string>, bio: Option<string>)

  datatype Post = Post(id: int, content: string, commentCount: int, likesCount: int,
                       createdById: UserId, createdAt: int)

  /**
   * A comment. `depth` and `commentCounts` are not columns of the comments table's schema
   * (packages/database/src/schema/comments.ts): they are the fields the comment router reads and
   * writes (apps/web/src/server/api/routers/comments.ts, lines 20, 37 and 61), kept here so that
   * the router's updates can be modelled as it states them.
   */
  datatype Comment = Comment(id: int, postId: int, userId: UserId, parentCommentId: Option<int>,
                             content: string, createdAt: int, depth: int, commentCounts: int)

  /** A row of post_likes, reposts or bookmarks: the three tables have the same columns. */
  datatype Reaction = Reaction(id: int, postId: int, userId: UserId, createdAt: int)

  datatype Hashtag = Hashtag(id: int, name: string)

  datatype PostHashtag = PostHashtag(postId: int, hashtagId: int)

  datatype NotificationType = LikeEvent | CommentEvent | FollowEvent | MentionEvent | RepostEvent

  datatype Notification = Notification(id: int, userId: UserId, actorId: UserId, kind: NotificationType,
                                       postId: Option<int>, commentId: Option<int>, read: bool, createdAt: int)

  datatype Tables = Tables(
    users: seq<User>,
    posts: seq<Post>, nextPostId: int,
    comments: seq<Comment>, nextCommentId: int,
    likes: seq<Reaction>, nextLikeId: int,
    reposts: seq<Reaction>, nextRepostId: int,
    bookmarks: seq<Reaction>, nextBookmarkId: int,
    hashtags: seq<Hashtag>, nextHashtagId: int,
    postHashtags: seq<PostHashtag>,
    notifications: seq<Notification>, nextNotificationId: int)

  /** A fresh database: no rows, and every serial sequence starts at 1. */
  function EmptyTables(): (t: Tables)
    ensures Valid(t)
  {
    Tables([], [], 1, [], 1, [], 1, [], 1, [], 1, [], 1, [], [], 1)
  }

  /** `posts.content` is `varchar(256)`: the database rejects longer text. */
  const PostContentLength := 256

  /** `comments.content` is `varchar(256)`. */
  const CommentContentLength := 256

  /** `hashtags.name` is `varchar(50)`. */
  const TagNameLength := 50

  /** `ORDER BY posts.created_at` */
  function CreatedAtKey(): Post -> int { (p: Post) => p.createdAt }

  // ---------------------------------------------------------------------------------------------
  // Keys

  /** Every key is below the next value of its serial sequence. */
  ghost predicate KeysBelow<T>(s: seq<T>, key: T -> int, next: int) {
    forall i :: 0 <= i < |s| ==> key(s[i]) < next
  }

  /** A serial primary key: unique and below the sequence's next value. */
  ghost predicate Serial<T>(s: seq<T>, key: T -> int, next: int) {
    UniqueKeys(s, key) && KeysBelow(s, key, next)
  }

  function PostKey(): Post -> int { (p: Post) => p.id }
  function CommentKey(): Comment -> int { (c: Comment) => c.id }
  function ReactionKey(): Reaction -> int { (r: Reaction) => r.id }
  function HashtagKey(): Hashtag -> int { (h: Hashtag) => h.id }
  function NotificationKey(): Notification -> int { (n: Notification) => n.id }

  ghost predicate UniqueUserIds(users: seq<User>) {
    forall i, j :: 0 <= i < |users| && 0 <= j < |users| && users[i].id == users[j].id ==> i == j
  }

  /** users.username is a unique column (NULLs do not clash). */
  ghost predicate UniqueUsernames(users: seq<User>) {
    forall i, j :: 0 <= i < |users| && 0 <= j < |users| && users[i].username.Some? && users[i].username == users[j].username ==> i == j
  }

  /** hashtags.name is a unique column. */
  ghost predicate UniqueTagNames(tags: seq<Hashtag>) {
    forall i, j :: 0 <= i < |tags| && 0 <= j < |tags| && tags[i].name == tags[j].name ==> i == j
  }

  /** A post with that id exists: the target of a `references(() => posts.id)` column. */
  function PostExists(posts: seq<Post>, id: int): (b: bool)
    ensures b <==> exists i :: 0 <= i < |posts| && posts[i].id == id
  {
    Any(posts, PostWithId(id))
  }

  function CommentExists(comments: seq<Comment>, id: int): (b: bool)
    ensures b <==> exists i :: 0 <= i < |comments| && comments[i].id == id
  {
    Any(comments, CommentWithId(id))
  }

  function HashtagExists(tags: seq<Hashtag>, id: int): (b: bool)
    ensures b <==> exists i :: 0 <= i < |tags| && tags[i].id == id
  {
    Any(tags, (h: Hashtag) => h.id == id)
  }

  /** The schema's key constraints. */
  ghost predicate Keys(t: Tables) {
    && UniqueUserIds(t.users) && UniqueUsernames(t.users)
    && Serial(t.posts, PostKey(), t.nextPostId)
    && Serial(t.comments, CommentKey(), t.nextCommentId)
    && Serial(t.likes, ReactionKey(), t.nextLikeId)
    && Serial(t.reposts, ReactionKey(), t.nextRepostId)
    && Serial(t.bookmarks, ReactionKey(), t.nextBookmarkId)
    && Serial(t.hashtags, HashtagKey(), t.nextHashtagId) && UniqueTagNames(t.hashtags)
    && Serial(t.notifications, NotificationKey(), t.nextNotificationId)
  }

  ghost predicate ReactionsRefer(rows: seq<Reaction>, posts: seq<Post>) {
    forall i :: 0 <= i < |rows| ==> PostExists(posts, rows[i].postId)
  }

  /**
   * The schema's foreign keys to posts, comments and hashtags. (The references to users hold because
   * every session belongs to an existing user row.)
   */
  ghost predicate Refs(t: Tables) {
    && ReactionsRefer(t.likes, t.posts) && ReactionsRefer(t.reposts, t.posts) && ReactionsRefer(t.bookmarks, t.posts)
    && (forall i :: 0 <= i < |t.comments| ==> PostExists(t.posts, t.comments[i].postId))
    && (forall i :: 0 <= i < |t.postHashtags| ==>
          PostExists(t.posts, t.postHashtags[i].postId) && HashtagExists(t.hashtags, t.postHashtags[i].hashtagId))
    && (forall i :: 0 <= i < |t.notifications| ==>
          (t.notifications[i].postId.Some? ==> PostExists(t.posts, t.notifications[i].postId.value))
          && (t.notifications[i].commentId.Some? ==> CommentExists(t.comments, t.notifications[i].commentId.value)))
  }

  /** The constraints the schema declares: keys and foreign keys. */
  ghost predicate Valid(t: Tables) {
    Keys(t) && Refs(t)
  }

  /** Every post id, comment id and hashtag id of `t` is still present in `t'`. */
  ghost predicate KeepsIds(t: Tables, t': Tables) {
    && (forall id :: PostExists(t.posts, id) ==> PostExists(t'.posts, id))
    && (forall id :: CommentExists(t.comments, id) ==> CommentExists(t'.comments, id))
    && (forall id :: HashtagExists(t.hashtags, id) ==> HashtagExists(t'.hashtags, id))
  }

  /** Changing rows that keeps every referenced id keeps the foreign keys of the unchanged referencing tables. */
  lemma KeepsIdsKeepsRefs(t: Tables, t': Tables)
    requires Refs(t) && KeepsIds(t, t')
    requires t'.likes == t.likes && t'.reposts == t.reposts && t'.bookmarks == t.bookmarks
    requires t'.comments == t.comments || forall i :: 0 <= i < |t'.comments| ==> PostExists(t'.posts, t'.comments[i].postId)
    requires t'.postHashtags == t.postHashtags && t'.notifications == t.notifications
    ensures Refs(t')
  {
    forall i | 0 <= i < |t'.comments| ensures PostExists(t'.posts, t'.comments[i].postId) {
      if t'.comments == t.comments {
        assert PostExists(t.posts, t.comments[i].postId);
      }
    }
    forall i | 0 <= i < |t'.likes| ensures PostExists(t'.posts, t'.likes[i].postId) {
      assert PostExists(t.posts, t.likes[i].postId);
    }
    forall i | 0 <= i < |t'.reposts| ensures PostExists(t'.posts, t'.reposts[i].postId) {
      assert PostExists(t.posts, t.reposts[i].postId);
    }
    forall i | 0 <= i < |t'.bookmarks| ensures PostExists(t'.posts, t'.bookmarks[i].postId) {
      assert PostExists(t.posts, t.bookmarks[i].postId);
    }
    forall i | 0 <= i < |t'.postHashtags|
      ensures PostExists(t'.posts, t'.postHashtags[i].postId) && HashtagExists(t'.hashtags, t'.postHashtags[i].hashtagId)
    {
      assert PostExists(t.posts, t.postHashtags[i].postId) && HashtagExists(t.hashtags, t.postHashtags[i].hashtagId);
    }
    forall i | 0 <= i < |t'.notifications|
      ensures (t'.notifications[i].postId.Some? ==> PostExists(t'.posts, t'.notifications[i].postId.value))
           && (t'.notifications[i].commentId.Some? ==> CommentExists(t'.comments, t'.notifications[i].commentId.value))
    {
      var n := t.notifications[i];
      assert n.postId.Some? ==> PostExists(t.posts, n.postId.value);
      assert n.commentId.Some? ==> CommentExists(t.comments, n.commentId.value);
    }
  }

  /**
   * Inserting comment `c` with the next comment id on an existing post, after updates that keep every
   * post's id and every comment's id and post, keeps the constraints.
   */
  lemma CommentInsertValid(t: Tables, posts': seq<Post>, comments': seq<Comment>, c: Comment)
    requires Valid(t)
    requires |posts'| == |t.posts| && forall i :: 0 <= i < |t.posts| ==> posts'[i].id == t.posts[i].id
    requires |comments'| == |t.comments|
    requires forall i :: 0 <= i < |t.comments| ==> comments'[i].id == t.comments[i].id && comments'[i].postId == t.comments[i].postId
    requires c.id == t.nextCommentId && PostExists(t.posts, c.postId)
    ensures Valid(t.(posts := posts', comments := comments' + [c], nextCommentId := t.nextCommentId + 1))
  {
    var t' := t.(posts := posts', comments := comments' + [c], nextCommentId := t.nextCommentId + 1);
    SameKeysSerial(t.posts, posts', PostKey(), t.nextPostId);
    SameKeysSerial(t.comments, comments', CommentKey(), t.nextCommentId);
    AppendKeepsSerial(comments', CommentKey(), t.nextCommentId, c);
    assert Keys(t');
    SamePostIds(t.posts, posts');
    SameCommentIds(t.comments, t'.comments);
    forall i | 0 <= i < |t'.comments| ensures PostExists(t'.posts, t'.comments[i].postId) {
      if i < |t.comments| {
        assert t'.comments[i].postId == t.comments[i].postId;
        assert PostExists(t.posts, t.comments[i].postId);
      } else {
        assert t'.comments[i] == c;
      }
    }
    assert KeepsIds(t, t');
    KeepsIdsKeepsRefs(t, t');
  }

  /** Rows whose keys are those of a serial table, position by position, form a serial table too. */
  lemma SameKeysSerial<T>(s: seq<T>, s': seq<T>, key: T -> int, next: int)
    requires Serial(s, key, next)
    requires |s'| == |s| && forall i :: 0 <= i < |s| ==> key(s'[i]) == key(s[i])
    ensures Serial(s', key, next)
  {
  }

  /** Posts whose ids repeat those of `posts`, position by position, keep every post id present. */
  lemma SamePostIds(posts: seq<Post>, posts': seq<Post>)
    requires |posts| <= |posts'| && forall i :: 0 <= i < |posts| ==> posts'[i].id == posts[i].id
    ensures forall id :: PostExists(posts, id) ==> PostExists(posts', id)
  {
    forall id | PostExists(posts, id) ensures PostExists(posts', id) {
      var i :| 0 <= i < |posts| && posts[i].id == id;
      assert posts'[i].id == id;
    }
  }

  /** Comments whose ids repeat those of `comments`, position by position, keep every comment id present. */
  lemma SameCommentIds(comments: seq<Comment>, comments': seq<Comment>)
    requires |comments| <= |comments'| && forall i :: 0 <= i < |comments| ==> comments'[i].id == comments[i].id
    ensures forall id :: CommentExists(comments, id) ==> CommentExists(comments', id)
  {
    forall id | CommentExists(comments, id) ensures CommentExists(comments', id) {
      var i :| 0 <= i < |comments| && comments[i].id == id;
      assert comments'[i].id == id;
    }
  }

  /** An update that leaves every id in place keeps the ids. */
  lemma UpdateKeepsIds<T>(s: seq<T>, key: T -> int, f: T -> bool, g: T -> T, id: int)
    requires forall i :: 0 <= i < |s| ==> key(g(s[i])) == key(s[i])
    requires exists i :: 0 <= i < |s| && key(s[i]) == id
    ensures exists i :: 0 <= i < |UpdateWhere(s, f, g)| && key(UpdateWhere(s, f, g)[i]) == id
  {
    var i :| 0 <= i < |s| && key(s[i]) == id;
    assert key(UpdateWhere(s, f, g)[i]) == id;
  }

  /** Appending a row whose key is the sequence's next value keeps the key serial. */
  lemma AppendKeepsSerial<T>(s: seq<T>, key: T -> int, next: int, x: T)
    requires Serial(s, key, next) && key(x) == next
    ensures Serial(s + [x], key, next + 1)
  {
  }

  /** Deleting rows keeps a key unique. */
  lemma {:induction false} FilterKeepsUnique<T>(s: seq<T>, key: T -> int, f: T -> bool)
    requires UniqueKeys(s, key)
    ensures UniqueKeys(Filter(s, f), key)
  {
    if s != [] {
      assert UniqueKeys(s[1..], key) by {
        forall i, j | 0 <= i < |s[1..]| && 0 <= j < |s[1..]| && key(s[1..][i]) == key(s[1..][j]) ensures i == j {
          assert s[1..][i] == s[i + 1] && s[1..][j] == s[j + 1];
        }
      }
      FilterKeepsUnique(s[1..], key, f);
      var tail := Filter(s[1..], f);
      assert forall i :: 0 <= i < |tail| ==> key(tail[i]) != key(s[0]) by {
        forall i | 0 <= i < |tail| ensures key(tail[i]) != key(s[0]) {
          var k :| 0 <= k < |s[1..]| && s[1..][k] == tail[i];
          assert s[k + 1] == tail[i];
        }
      }
    }
  }

  /** Deleting rows keeps a key serial. */
  lemma FilterKeepsSerial<T>(s: seq<T>, key: T -> int, next: int, f: T -> bool)
    requires Serial(s, key, next)
    ensures Serial(Filter(s, f), key, next)
  {
    FilterKeepsUnique(s, key, f);
  }

  /** Updating rows without touching their keys keeps a key serial. */
  lemma UpdateKeepsSerial<T>(s: seq<T>, key: T -> int, next: int, f: T -> bool, g: T -> T)
    requires Serial(s, key, next)
    requires forall i :: 0 <= i < |s| ==> key(g(s[i])) == key(s[i])
    ensures Serial(UpdateWhere(s, f, g), key, next)
  {
    var r := UpdateWhere(s, f, g);
    assert forall i :: 0 <= i < |r| ==> key(r[i]) == key(s[i]);
  }

  // ---------------------------------------------------------------------------------------------
  // The (postId, userId) rows of likes, reposts and bookmarks

  /** The rows of one post and one user: what the toggles look up and delete. */
  function PairOf(postId: int, userId: UserId): Reaction -> bool {
    (r: Reaction) => r.postId == postId && r.userId == userId
  }

  /** Every row except those of one post and one user. */
  function NotPairOf(postId: int, userId: UserId): Reaction -> bool {
    (r: Reaction) => !(r.postId == postId && r.userId == userId)
  }

  /** The rows of one post: the `postLikes` / `reposts` / `bookmarks` relations of a post. */
  function OfPost(postId: int): Reaction -> bool {
    (r: Reaction) => r.postId == postId
  }

  /** A row for the pair exists. */
  function HasPair(rows: seq<Reaction>, postId: int, userId: UserId): (b: bool)
    ensures b <==> exists i :: 0 <= i < |rows| && rows[i].postId == postId && rows[i].userId == userId
  {
    Any(rows, PairOf(postId, userId))
  }

  /** How many rows the pair has (the schema declares no uniqueness on the pair). */
  function PairCount(rows: seq<Reaction>, postId: int, userId: UserId): nat {
    |Filter(rows, PairOf(postId, userId))|
  }

  /** How many rows a post has: `post.postLikes.length` and the like. */
  function CountOf(rows: seq<Reaction>, postId: int): nat {
    |Filter(rows, OfPost(postId))|
  }

  /** `rows.some(r => r.userId === session?.user?.id)` over a post's rows: false without a session. */
  function FlagFor(rows: seq<Reaction>, postId: int, caller: Option<UserId>): (b: bool)
    ensures b <==> caller.Some? && HasPair(rows, postId, caller.value)
  {
    match caller
    case None => false
    case Some(u) => Any(Filter(rows, OfPost(postId)), (r: Reaction) => r.userId == u)
  }

  // ---------------------------------------------------------------------------------------------
  // Other lookups

  function PostWithId(id: int): Post -> bool { (p: Post) => p.id == id }
  function CommentWithId(id: int): Comment -> bool { (c: Comment) => c.id == id }

  /** `findFirst({ where: eq(posts.id, id) })` */
  function FindPost(posts: seq<Post>, id: int): (r: Option<Post>)
    ensures r.Some? ==> r.value in posts && r.value.id == id
    ensures r.None? <==> forall i :: 0 <= i < |posts| ==> posts[i].id != id
  {
    FindFirst(posts, PostWithId(id))
  }

  /** `select ... from comments where id = ... limit 1` */
  function FindComment(comments: seq<Comment>, id: int): (r: Option<Comment>)
    ensures r.Some? ==> r.value in comments && r.value.id == id
    ensures r.None? <==> forall i :: 0 <= i < |comments| ==> comments[i].id != id
  {
    FindFirst(comments, CommentWithId(id))
  }

  /** The `childComments` of a comment: the comments whose `parentCommentId` is its id, in table order. */
  function ChildrenOf(comments: seq<Comment>, parentId: int): (r: seq<Comment>)
    ensures forall i :: 0 <= i < |r| ==> r[i] in comments && r[i].parentCommentId == Some(parentId)
    ensures forall i :: 0 <= i < |comments| && comments[i].parentCommentId == Some(parentId) ==> comments[i] in r
  {
    Filter(comments, (c: Comment) => c.parentCommentId == Some(parentId))
  }

  /** The name of the hashtag with that id, if the row exists. */
  function HashtagName(tags: seq<Hashtag>, id: int): (r: Option<string>)
    ensures r.Some? ==> exists i :: 0 <= i < |tags| && tags[i].id == id && tags[i].name == r.value
  {
    match FindFirst(tags, (h: Hashtag) => h.id == id)
    case None => None
    case Some(h) => Some(h.name)
  }

  /** `post.postHashtags.map(ph => ph.hashtag.name)`: the post's tag names in join-row order. */
  function TagNames(t: Tables, postId: int): seq<string> {
    TagNamesOf(t.postHashtags, t.hashtags, postId)
  }

  function TagNamesOf(links: seq<PostHashtag>, tags: seq<Hashtag>, postId: int): seq<string> {
    if links == [] then []
    else
      var rest := TagNamesOf(links[1..], tags, postId);
      if links[0].postId == postId then
        match HashtagName(tags, links[0].hashtagId)
        case Some(n) => [n] + rest
        case None => rest
      else rest
  }
}
