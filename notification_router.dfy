/**
 * The notification router: the caller's notifications since a time, marking some or all as read,
 * the unread count, deletion, and the inserts (`createNotification` by receiver username, and the
 * five `create*Notification` helpers of a fixed type).
 */
module NotificationRouter {
  import opened Wrappers
  import opened Rows
  import opened Ordering
  import opened Schema
  import opened Store

  function NotificationCreatedAt(): Notification -> int {
    (n: Notification) => n.createdAt
  }

  function Owned(caller: UserId): Notification -> bool {
    (n: Notification) => n.userId == caller
  }

  // ---------------------------------------------------------------------------------------------
  // Reads

  /** `since` defaults to `new Date(0)`, the epoch. */
  function SinceOf(since: Option<int>): int {
    if since.Some? then since.value else 0
  }

  function OwnedSince(caller: UserId, since: int): Notification -> bool {
    (n: Notification) => n.userId == caller && n.createdAt > since
  }

  /** `getNotifications`: the caller's notifications created after `since`, newest first. */
  function GetNotifications(t: Tables, caller: UserId, since: Option<int>): (r: seq<Notification>)
    ensures SortedDesc(r, NotificationCreatedAt())
  {
    SortDesc(Filter(t.notifications, OwnedSince(caller, SinceOf(since))), NotificationCreatedAt())
  }

  /**
   * `getNotifications` lists exactly the caller's rows created after `since` (the epoch by default):
   * each listed row is one, and each one is listed.
   */
  lemma NotificationsExact(t: Tables, caller: UserId, since: Option<int>, n: Notification)
    ensures var r := GetNotifications(t, caller, since);
            forall i :: 0 <= i < |r| ==> r[i] in t.notifications && r[i].userId == caller && r[i].createdAt > SinceOf(since)
    ensures n in GetNotifications(t, caller, since) <==> n in t.notifications && n.userId == caller && n.createdAt > SinceOf(since)
  {
    var keep := OwnedSince(caller, SinceOf(since));
    var matching := Filter(t.notifications, keep);
    var r := GetNotifications(t, caller, since);
    forall i | 0 <= i < |r| ensures r[i] in t.notifications && r[i].userId == caller && r[i].createdAt > SinceOf(since) {
      SortDescSameRows(matching, NotificationCreatedAt(), r[i]);
      assert keep(r[i]);
    }
    SortDescSameRows(matching, NotificationCreatedAt(), n);
    if n in t.notifications && keep(n) {
      var k :| 0 <= k < |t.notifications| && t.notifications[k] == n;
    }
  }

  function Unread(caller: UserId): Notification -> bool {
    (n: Notification) => n.userId == caller && !n.read
  }

  /** `getUnreadCount`: the number of the caller's unread rows. */
  function GetUnreadCount(t: Tables, caller: UserId): (r: nat)
    ensures r <= |t.notifications|
  {
    |Filter(t.notifications, Unread(caller))|
  }

  /** The unread count is zero exactly when the caller has no unread row. */
  lemma UnreadCountZero(t: Tables, caller: UserId)
    ensures GetUnreadCount(t, caller) == 0 <==>
            forall i :: 0 <= i < |t.notifications| ==> !(t.notifications[i].userId == caller && !t.notifications[i].read)
  {
    var unread := Filter(t.notifications, Unread(caller));
    if |unread| > 0 {
      assert unread[0] in t.notifications && Unread(caller)(unread[0]);
    }
  }

  // ---------------------------------------------------------------------------------------------
  // Updates and deletion

  function SetRead(): Notification -> Notification {
    (n: Notification) => n.(read := true)
  }

  function OwnedListed(caller: UserId, ids: seq<int>): Notification -> bool {
    (n: Notification) => n.userId == caller && n.id in ids
  }

  /** The notifications' references to posts and comments hold. */
  ghost predicate NotificationsRefer(t: Tables, notifications: seq<Notification>) {
    forall i :: 0 <= i < |notifications| ==>
      (notifications[i].postId.Some? ==> PostExists(t.posts, notifications[i].postId.value))
      && (notifications[i].commentId.Some? ==> CommentExists(t.comments, notifications[i].commentId.value))
  }

  /** Replacing the notifications by rows whose references hold keeps the constraints. */
  lemma NotificationsValid(t: Tables, notifications: seq<Notification>, next: int)
    requires Valid(t) && Serial(notifications, NotificationKey(), next) && NotificationsRefer(t, notifications)
    ensures Valid(t.(notifications := notifications, nextNotificationId := next))
  {
  }

  /** An update that keeps every row's id and references keeps the constraints. */
  lemma UpdateValid(t: Tables, f: Notification -> bool, g: Notification -> Notification)
    requires Valid(t)
    requires forall n :: g(n).id == n.id && g(n).postId == n.postId && g(n).commentId == n.commentId
    ensures Valid(t.(notifications := UpdateWhere(t.notifications, f, g)))
  {
    var s := UpdateWhere(t.notifications, f, g);
    UpdateKeepsSerial(t.notifications, NotificationKey(), t.nextNotificationId, f, g);
    assert NotificationsRefer(t, s) by {
      forall i | 0 <= i < |s|
        ensures (s[i].postId.Some? ==> PostExists(t.posts, s[i].postId.value))
             && (s[i].commentId.Some? ==> CommentExists(t.comments, s[i].commentId.value))
      {
        assert s[i].postId == t.notifications[i].postId && s[i].commentId == t.notifications[i].commentId;
      }
    }
    NotificationsValid(t, s, t.nextNotificationId);
  }

  /**
   * `markAsRead`: `read` becomes true on exactly the caller's rows whose id is listed; every other
   * row, and every other column, is unchanged.
   */
  lemma MarkAsReadEffect(t: Tables, caller: UserId, ids: seq<int>)
    ensures var s := UpdateWhere(t.notifications, OwnedListed(caller, ids), SetRead());
            && |s| == |t.notifications|
            && forall i :: 0 <= i < |s| ==>
                 s[i] == (if t.notifications[i].userId == caller && t.notifications[i].id in ids
                          then t.notifications[i].(read := true) else t.notifications[i])
  {
  }

  method MarkAsRead(db: Database, caller: UserId, ids: seq<int>) returns (success: bool)
    requires Valid(db.tables)
    modifies db
    ensures db.tables == old(db.tables).(notifications := UpdateWhere(old(db.tables).notifications, OwnedListed(caller, ids), SetRead()))
    ensures success
    ensures Valid(db.tables)
  {
    UpdateValid(db.tables, OwnedListed(caller, ids), SetRead());
    db.tables := db.tables.(notifications := UpdateWhere(db.tables.notifications, OwnedListed(caller, ids), SetRead()));
    return true;
  }

  /** After `markAllAsRead` the caller has no unread row, and every other user's row is unchanged. */
  lemma MarkAllAsReadEffect(t: Tables, caller: UserId)
    ensures var t' := t.(notifications := UpdateWhere(t.notifications, Unread(caller), SetRead()));
            && GetUnreadCount(t', caller) == 0
            && |t'.notifications| == |t.notifications|
            && (forall i :: 0 <= i < |t.notifications| && t.notifications[i].userId != caller ==> t'.notifications[i] == t.notifications[i])
            && (forall i :: 0 <= i < |t.notifications| ==> t'.notifications[i] == t.notifications[i].(read := t'.notifications[i].read))
  {
    var t' := t.(notifications := UpdateWhere(t.notifications, Unread(caller), SetRead()));
    UnreadCountZero(t', caller);
  }

  method MarkAllAsRead(db: Database, caller: UserId) returns (success: bool)
    requires Valid(db.tables)
    modifies db
    ensures db.tables == old(db.tables).(notifications := UpdateWhere(old(db.tables).notifications, Unread(caller), SetRead()))
    ensures success
    ensures Valid(db.tables)
  {
    UpdateValid(db.tables, Unread(caller), SetRead());
    db.tables := db.tables.(notifications := UpdateWhere(db.tables.notifications, Unread(caller), SetRead()));
    return true;
  }

  function Kept(caller: UserId, id: int): Notification -> bool {
    (n: Notification) => !(n.id == id && n.userId == caller)
  }

  /**
   * `deleteNotification` removes a row exactly when both its id and its owner match; every other row
   * stays, in order.
   */
  lemma DeleteEffect(t: Tables, caller: UserId, id: int, n: Notification)
    requires n in t.notifications
    ensures n in Filter(t.notifications, Kept(caller, id)) <==> !(n.id == id && n.userId == caller)
    ensures (forall i :: 0 <= i < |t.notifications| ==> !(t.notifications[i].id == id && t.notifications[i].userId == caller))
              ==> Filter(t.notifications, Kept(caller, id)) == t.notifications
  {
    var k :| 0 <= k < |t.notifications| && t.notifications[k] == n;
    if forall i :: 0 <= i < |t.notifications| ==> !(t.notifications[i].id == id && t.notifications[i].userId == caller) {
      FilterKeepsAll(t.notifications, Kept(caller, id));
    }
  }

  method DeleteNotification(db: Database, caller: UserId, id: int) returns (success: bool)
    requires Valid(db.tables)
    modifies db
    ensures db.tables == old(db.tables).(notifications := Filter(old(db.tables).notifications, Kept(caller, id)))
    ensures success
    ensures Valid(db.tables)
  {
    var t := db.tables;
    var s := Filter(t.notifications, Kept(caller, id));
    FilterKeepsSerial(t.notifications, NotificationKey(), t.nextNotificationId, Kept(caller, id));
    assert NotificationsRefer(t, s) by {
      forall i | 0 <= i < |s|
        ensures (s[i].postId.Some? ==> PostExists(t.posts, s[i].postId.value))
             && (s[i].commentId.Some? ==> CommentExists(t.comments, s[i].commentId.value))
      {
        var k :| 0 <= k < |t.notifications| && t.notifications[k] == s[i];
      }
    }
    NotificationsValid(t, s, t.nextNotificationId);
    db.tables := t.(notifications := s);
    return true;
  }

  // ---------------------------------------------------------------------------------------------
  // Inserts

  /** What an insert commits: the new tables and the inserted row, which the procedure returns. */
  datatype Notified = Notified(tables: Tables, notification: Notification)

  /**
   * The insert of one unread row; a `post_id` or `comment_id` naming no row breaks its foreign key
   * and the database refuses it.
   */
  function InsertSpec(t: Tables, userId: UserId, actorId: UserId, kind: NotificationType,
                      postId: Option<int>, commentId: Option<int>, now: int): Result<Notified> {
    if postId.Some? && !PostExists(t.posts, postId.value) then Err(InternalError)
    else if commentId.Some? && !CommentExists(t.comments, commentId.value) then Err(InternalError)
    else
      var n := Notification(t.nextNotificationId, userId, actorId, kind, postId, commentId, false, now);
      Ok(Notified(t.(notifications := t.notifications + [n], nextNotificationId := t.nextNotificationId + 1), n))
  }

  /** The insert keeps the constraints. */
  lemma InsertValid(t: Tables, userId: UserId, actorId: UserId, kind: NotificationType,
                    postId: Option<int>, commentId: Option<int>, now: int)
    requires Valid(t)
    ensures var r := InsertSpec(t, userId, actorId, kind, postId, commentId, now);
            r.Ok? ==> Valid(r.value.tables)
  {
    var r := InsertSpec(t, userId, actorId, kind, postId, commentId, now);
    if r.Ok? {
      var n := r.value.notification;
      AppendKeepsSerial(t.notifications, NotificationKey(), t.nextNotificationId, n);
      var s := t.notifications + [n];
      assert NotificationsRefer(t, s) by {
        forall i | 0 <= i < |s|
          ensures (s[i].postId.Some? ==> PostExists(t.posts, s[i].postId.value))
               && (s[i].commentId.Some? ==> CommentExists(t.comments, s[i].commentId.value))
        {
          if i < |t.notifications| { assert s[i] == t.notifications[i]; }
        }
      }
      NotificationsValid(t, s, t.nextNotificationId + 1);
    }
  }

  function HasUsername(name: string): User -> bool {
    (u: User) => u.username == Some(name)
  }

  /** `createNotification`: the receiver by username (NOT_FOUND when none), then one unread row from the caller. */
  function CreateNotificationSpec(t: Tables, caller: UserId, receiverUsername: string, kind: NotificationType,
                                  postId: Option<int>, commentId: Option<int>, now: int): Result<Notified> {
    match FindFirst(t.users, HasUsername(receiverUsername))
    case None => Err(NotFound)
    case Some(receiver) => InsertSpec(t, receiver.id, caller, kind, postId, commentId, now)
  }

  /**
   * `createNotification` raises NOT_FOUND when no user has the receiver's username; otherwise it
   * inserts (unless a reference fails) exactly one row, addressed to that user, from the caller, of
   * the given type, unread, with the next id, and changes nothing else.
   */
  lemma CreateNotificationEffect(t: Tables, caller: UserId, receiverUsername: string, kind: NotificationType,
                                 postId: Option<int>, commentId: Option<int>, now: int)
    ensures var r := CreateNotificationSpec(t, caller, receiverUsername, kind, postId, commentId, now);
            && ((forall i :: 0 <= i < |t.users| ==> t.users[i].username != Some(receiverUsername)) ==> r == Err(NotFound))
            && (r.Ok? ==>
                  var n := r.value.notification;
                  && (exists u :: u in t.users && u.username == Some(receiverUsername) && n.userId == u.id)
                  && n == Notification(t.nextNotificationId, n.userId, caller, kind, postId, commentId, false, now)
                  && r.value.tables == t.(notifications := t.notifications + [n], nextNotificationId := t.nextNotificationId + 1))
  {
    var found := FindFirst(t.users, HasUsername(receiverUsername));
    if forall i :: 0 <= i < |t.users| ==> t.users[i].username != Some(receiverUsername) {
      assert !Any(t.users, HasUsername(receiverUsername));
    }
  }

  method CreateNotification(db: Database, caller: UserId, receiverUsername: string, kind: NotificationType,
                            postId: Option<int>, commentId: Option<int>, now: int) returns (r: Result<Notification>)
    requires Valid(db.tables)
    modifies db
    ensures var spec := CreateNotificationSpec(old(db.tables), caller, receiverUsername, kind, postId, commentId, now);
            && (spec.Ok? ==> r == Ok(spec.value.notification) && db.tables == spec.value.tables)
            && (spec.Err? ==> r == Err(spec.code) && db.tables == old(db.tables))
    ensures Valid(db.tables)
  {
    var receiver := FindFirst(db.tables.users, HasUsername(receiverUsername));
    if receiver.None? {
      return Err(NotFound);
    }
    r := Insert(db, receiver.value.id, caller, kind, postId, commentId, now);
  }

  /** The `insert(notifications).values(…).returning()` step. */
  method Insert(db: Database, userId: UserId, actorId: UserId, kind: NotificationType,
                postId: Option<int>, commentId: Option<int>, now: int) returns (r: Result<Notification>)
    requires Valid(db.tables)
    modifies db
    ensures var spec := InsertSpec(old(db.tables), userId, actorId, kind, postId, commentId, now);
            && (spec.Ok? ==> r == Ok(spec.value.notification) && db.tables == spec.value.tables)
            && (spec.Err? ==> r == Err(spec.code) && db.tables == old(db.tables))
    ensures Valid(db.tables)
  {
    var t := db.tables;
    if postId.Some? && !PostExists(t.posts, postId.value) {
      return Err(InternalError);
    }
    if commentId.Some? && !CommentExists(t.comments, commentId.value) {
      return Err(InternalError);
    }
    var n := Notification(t.nextNotificationId, userId, actorId, kind, postId, commentId, false, now);
    InsertValid(t, userId, actorId, kind, postId, commentId, now);
    db.tables := t.(notifications := t.notifications + [n], nextNotificationId := t.nextNotificationId + 1);
    return Ok(n);
  }

  /**
   * A `create*Notification` helper: UNAUTHORIZED without a session; otherwise the insert of one
   * unread row of the helper's type from the session's user.
   */
  function HelperSpec(t: Tables, session: Option<UserId>, userId: UserId, kind: NotificationType,
                      postId: Option<int>, commentId: Option<int>, now: int): Result<Notified> {
    if session.None? then Err(Unauthorized)
    else InsertSpec(t, userId, session.value, kind, postId, commentId, now)
  }

  /**
   * The helpers raise UNAUTHORIZED without a session and then change nothing; with one, they insert
   * exactly one unread row of their type addressed to `userId` with the session's user as actor.
   */
  lemma HelperEffect(t: Tables, session: Option<UserId>, userId: UserId, kind: NotificationType,
                     postId: Option<int>, commentId: Option<int>, now: int)
    ensures session.None? ==> HelperSpec(t, session, userId, kind, postId, commentId, now) == Err(Unauthorized)
    ensures var r := HelperSpec(t, session, userId, kind, postId, commentId, now);
            r.Ok? ==>
              && session.Some?
              && r.value.notification == Notification(t.nextNotificationId, userId, session.value, kind, postId, commentId, false, now)
              && r.value.tables.notifications == t.notifications + [r.value.notification]
              && r.value.tables == t.(notifications := r.value.tables.notifications, nextNotificationId := t.nextNotificationId + 1)
    ensures (session.Some? && (postId.None? || PostExists(t.posts, postId.value)) && (commentId.None? || CommentExists(t.comments, commentId.value)))
              ==> HelperSpec(t, session, userId, kind, postId, commentId, now).Ok?
  {
  }

  method Helper(db: Database, session: Option<UserId>, userId: UserId, kind: NotificationType,
                postId: Option<int>, commentId: Option<int>, now: int) returns (r: Result<Notification>)
    requires Valid(db.tables)
    modifies db
    ensures var spec := HelperSpec(old(db.tables), session, userId, kind, postId, commentId, now);
            && (spec.Ok? ==> r == Ok(spec.value.notification) && db.tables == spec.value.tables)
            && (spec.Err? ==> r == Err(spec.code) && db.tables == old(db.tables))
    ensures Valid(db.tables)
  {
    if session.None? {
      return Err(Unauthorized);
    }
    r := Insert(db, userId, session.value, kind, postId, commentId, now);
  }

  method CreateLikeNotification(db: Database, session: Option<UserId>, userId: UserId, postId: int, now: int) returns (r: Result<Notification>)
    requires Valid(db.tables)
    modifies db
    ensures var spec := HelperSpec(old(db.tables), session, userId, LikeEvent, Some(postId), None, now);
            && (spec.Ok? ==> r == Ok(spec.value.notification) && db.tables == spec.value.tables)
            && (spec.Err? ==> r == Err(spec.code) && db.tables == old(db.tables))
    ensures Valid(db.tables)
  {
    r := Helper(db, session, userId, LikeEvent, Some(postId), None, now);
  }

  method CreateCommentNotification(db: Database, session: Option<UserId>, userId: UserId, postId: int, commentId: int, now: int)
      returns (r: Result<Notification>)
    requires Valid(db.tables)
    modifies db
    ensures var spec := HelperSpec(old(db.tables), session, userId, CommentEvent, Some(postId), Some(commentId), now);
            && (spec.Ok? ==> r == Ok(spec.value.notification) && db.tables == spec.value.tables)
            && (spec.Err? ==> r == Err(spec.code) && db.tables == old(db.tables))
    ensures Valid(db.tables)
  {
    r := Helper(db, session, userId, CommentEvent, Some(postId), Some(commentId), now);
  }

  method CreateFollowNotification(db: Database, session: Option<UserId>, userId: UserId, now: int) returns (r: Result<Notification>)
    requires Valid(db.tables)
    modifies db
    ensures var spec := HelperSpec(old(db.tables), session, userId, FollowEvent, None, None, now);
            && (spec.Ok? ==> r == Ok(spec.value.notification) && db.tables == spec.value.tables)
            && (spec.Err? ==> r == Err(spec.code) && db.tables == old(db.tables))
    ensures Valid(db.tables)
  {
    r := Helper(db, session, userId, FollowEvent, None, None, now);
  }

  method CreateMentionNotification(db: Database, session: Option<UserId>, userId: UserId, postId: int, now: int) returns (r: Result<Notification>)
    requires Valid(db.tables)
    modifies db
    ensures var spec := HelperSpec(old(db.tables), session, userId, MentionEvent, Some(postId), None, now);
            && (spec.Ok? ==> r == Ok(spec.value.notification) && db.tables == spec.value.tables)
            && (spec.Err? ==> r == Err(spec.code) && db.tables == old(db.tables))
    ensures Valid(db.tables)
  {
    r := Helper(db, session, userId, MentionEvent, Some(postId), None, now);
  }

  method CreateRepostNotification(db: Database, session: Option<UserId>, userId: UserId, postId: int, now: int) returns (r: Result<Notification>)
    requires Valid(db.tables)
    modifies db
    ensures var spec := HelperSpec(old(db.tables), session, userId, RepostEvent, Some(postId), None, now);
            && (spec.Ok? ==> r == Ok(spec.value.notification) && db.tables == spec.value.tables)
            && (spec.Err? ==> r == Err(spec.code) && db.tables == old(db.tables))
    ensures Valid(db.tables)
  {
    r := Helper(db, session, userId, RepostEvent, Some(postId), None, now);
  }
}
