/**
 * The rule shared by `toggleLike`, `toggleRepost` and the bookmark `toggle`: look for a row of
 * the (postId, userId) pair; if there is one, delete every row of the pair, otherwise insert one.
 * The tables declare no uniqueness on the pair, so a pair may have several rows.
 */
module ToggleRule {
  import opened Wrappers
  import opened Rows
  import opened Schema
  import opened Ordering

  /** The table after one toggle; `id` and `now` are the new row's serial id and timestamp. */
  function Toggle(rows: seq<Reaction>, postId: int, userId: UserId, id: int, now: int): seq<Reaction> {
    if HasPair(rows, postId, userId) then Filter(rows, NotPairOf(postId, userId))
    else rows + [Reaction(id, postId, userId, now)]
  }

  /** The pair's presence flips. */
  lemma ToggleFlips(rows: seq<Reaction>, postId: int, userId: UserId, id: int, now: int)
    ensures HasPair(Toggle(rows, postId, userId, id, now), postId, userId) <==> !HasPair(rows, postId, userId)
  {
    var r := Toggle(rows, postId, userId, id, now);
    if HasPair(rows, postId, userId) {
      forall i | 0 <= i < |r| ensures !(r[i].postId == postId && r[i].userId == userId) {
        assert NotPairOf(postId, userId)(r[i]);
      }
    } else {
      assert r[|rows|].postId == postId && r[|rows|].userId == userId;
    }
  }

  /** Deleting the pair's rows is idempotent: filtering the pair out twice is filtering it out once. */
  lemma {:induction false} DeletePairKeepsOthers(rows: seq<Reaction>, postId: int, userId: UserId)
    ensures Filter(Filter(rows, NotPairOf(postId, userId)), NotPairOf(postId, userId)) == Filter(rows, NotPairOf(postId, userId))
  {
    var d := Filter(rows, NotPairOf(postId, userId));
    FilterKeepsAll(d, NotPairOf(postId, userId));
  }

  /** Every row of another pair is kept, in order: a toggle touches only its own pair. */
  lemma ToggleKeepsOthers(rows: seq<Reaction>, postId: int, userId: UserId, id: int, now: int)
    ensures Filter(Toggle(rows, postId, userId, id, now), NotPairOf(postId, userId)) == Filter(rows, NotPairOf(postId, userId))
  {
    if HasPair(rows, postId, userId) {
      DeletePairKeepsOthers(rows, postId, userId);
    } else {
      var added := Reaction(id, postId, userId, now);
      FilterAppend(rows, [added], NotPairOf(postId, userId));
      assert Filter([added], NotPairOf(postId, userId)) == [] by {
        assert [added][1..] == [];
      }
    }
  }

  /** The presence of every other pair is kept. */
  lemma ToggleKeepsOtherPairs(rows: seq<Reaction>, postId: int, userId: UserId, id: int, now: int, post: int, user: UserId)
    requires post != postId || user != userId
    ensures HasPair(Toggle(rows, postId, userId, id, now), post, user) == HasPair(rows, post, user)
  {
    var r := Toggle(rows, postId, userId, id, now);
    if HasPair(rows, post, user) {
      var i :| 0 <= i < |rows| && rows[i].postId == post && rows[i].userId == user;
      if HasPair(rows, postId, userId) {
        assert NotPairOf(postId, userId)(rows[i]);
        var k :| 0 <= k < |r| && r[k] == rows[i];
      } else {
        assert r[i] == rows[i];
      }
    }
    if HasPair(r, post, user) {
      var i :| 0 <= i < |r| && r[i].postId == post && r[i].userId == user;
      if HasPair(rows, postId, userId) {
        var k :| 0 <= k < |rows| && rows[k] == r[i];
      } else {
        assert i < |rows| && rows[i] == r[i];
      }
    }
  }

  /** A post's rows split into the pair's rows and the others. */
  lemma {:induction false} CountSplits(rows: seq<Reaction>, postId: int, userId: UserId)
    ensures CountOf(rows, postId) == PairCount(rows, postId, userId) + CountOf(Filter(rows, NotPairOf(postId, userId)), postId)
  {
    if rows != [] {
      CountSplits(rows[1..], postId, userId);
      var x := rows[0];
      var rest := Filter(rows[1..], NotPairOf(postId, userId));
      assert Filter(rows, NotPairOf(postId, userId)) == (if NotPairOf(postId, userId)(x) then [x] else []) + rest;
      FilterAppend(if NotPairOf(postId, userId)(x) then [x] else [], rest, OfPost(postId));
      if NotPairOf(postId, userId)(x) {
        assert Filter([x], OfPost(postId)) == (if OfPost(postId)(x) then [x] else []) by {
          assert [x][1..] == [];
        }
      }
    }
  }

  /**
   * The post's row count: one more when the pair had no row, and `PairCount` fewer when it had
   * some (one fewer when the pair had exactly one row).
   */
  lemma ToggleCount(rows: seq<Reaction>, postId: int, userId: UserId, id: int, now: int)
    ensures CountOf(Toggle(rows, postId, userId, id, now), postId)
         == if HasPair(rows, postId, userId) then CountOf(rows, postId) - PairCount(rows, postId, userId)
            else CountOf(rows, postId) + 1
  {
    if HasPair(rows, postId, userId) {
      CountSplits(rows, postId, userId);
    } else {
      var added := Reaction(id, postId, userId, now);
      FilterAppend(rows, [added], OfPost(postId));
      assert Filter([added], OfPost(postId)) == [added] by {
        assert [added][1..] == [];
      }
    }
  }

  /** Other posts' counts are unchanged. */
  lemma ToggleKeepsOtherPosts(rows: seq<Reaction>, postId: int, userId: UserId, id: int, now: int, other: int)
    requires other != postId
    ensures CountOf(Toggle(rows, postId, userId, id, now), other) == CountOf(rows, other)
  {
    if HasPair(rows, postId, userId) {
      CountSplits(rows, other, userId);
      OtherPostUnaffected(rows, postId, userId, other);
    } else {
      var added := Reaction(id, postId, userId, now);
      FilterAppend(rows, [added], OfPost(other));
      assert Filter([added], OfPost(other)) == [] by {
        assert [added][1..] == [];
      }
    }
  }

  /** Deleting one post's pair removes none of another post's rows. */
  lemma {:induction false} OtherPostUnaffected(rows: seq<Reaction>, postId: int, userId: UserId, other: int)
    requires other != postId
    ensures Filter(Filter(rows, NotPairOf(postId, userId)), OfPost(other)) == Filter(rows, OfPost(other))
  {
    if rows != [] {
      OtherPostUnaffected(rows[1..], postId, userId, other);
      var x := rows[0];
      var rest := Filter(rows[1..], NotPairOf(postId, userId));
      assert Filter(rows, NotPairOf(postId, userId)) == (if NotPairOf(postId, userId)(x) then [x] else []) + rest;
      FilterAppend(if NotPairOf(postId, userId)(x) then [x] else [], rest, OfPost(other));
      if NotPairOf(postId, userId)(x) {
        assert Filter([x], OfPost(other)) == (if OfPost(other)(x) then [x] else []) by {
          assert [x][1..] == [];
        }
      }
    }
  }

  /** From a pair with no row, two toggles give back the original table. */
  lemma ToggleTwiceRestores(rows: seq<Reaction>, postId: int, userId: UserId, id1: int, now1: int, id2: int, now2: int)
    requires !HasPair(rows, postId, userId)
    ensures Toggle(Toggle(rows, postId, userId, id1, now1), postId, userId, id2, now2) == rows
  {
    var added := Reaction(id1, postId, userId, now1);
    var once := rows + [added];
    assert once[|rows|] == added;
    assert HasPair(once, postId, userId);
    FilterAppend(rows, [added], NotPairOf(postId, userId));
    assert Filter([added], NotPairOf(postId, userId)) == [] by {
      assert [added][1..] == [];
    }
    FilterKeepsAll(rows, NotPairOf(postId, userId));
  }

  /** The caller's flag on a post flips and the post's count moves by one insert or by the deleted rows. */
  lemma ToggleFlagAndCount(rows: seq<Reaction>, postId: int, caller: UserId, id: int, now: int)
    ensures FlagFor(Toggle(rows, postId, caller, id, now), postId, Some(caller)) == !FlagFor(rows, postId, Some(caller))
    ensures CountOf(Toggle(rows, postId, caller, id, now), postId)
         == if FlagFor(rows, postId, Some(caller)) then CountOf(rows, postId) - PairCount(rows, postId, caller)
            else CountOf(rows, postId) + 1
  {
    ToggleFlips(rows, postId, caller, id, now);
    ToggleCount(rows, postId, caller, id, now);
  }

  /** Toggling keeps a reaction table's serial id. */
  lemma ToggleKeepsSerial(rows: seq<Reaction>, next: int, postId: int, caller: UserId, now: int)
    requires Serial(rows, ReactionKey(), next)
    ensures Serial(Toggle(rows, postId, caller, next, now), ReactionKey(),
                   if HasPair(rows, postId, caller) then next else next + 1)
  {
    if HasPair(rows, postId, caller) {
      FilterKeepsSerial(rows, ReactionKey(), next, NotPairOf(postId, caller));
    } else {
      AppendKeepsSerial(rows, ReactionKey(), next, Reaction(next, postId, caller, now));
    }
  }

  /** A toggle keeps every row of the table referring to an existing post, given that an insert does. */
  lemma ToggleKeepsRefs(rows: seq<Reaction>, posts: seq<Post>, postId: int, caller: UserId, id: int, now: int)
    requires ReactionsRefer(rows, posts)
    requires HasPair(rows, postId, caller) || PostExists(posts, postId)
    ensures ReactionsRefer(Toggle(rows, postId, caller, id, now), posts)
  {
    var r := Toggle(rows, postId, caller, id, now);
    forall i | 0 <= i < |r| ensures PostExists(posts, r[i].postId) {
      if HasPair(rows, postId, caller) {
        var k :| 0 <= k < |rows| && rows[k] == r[i];
      } else if i < |rows| {
        assert r[i] == rows[i];
      }
    }
  }

  // ---------------------------------------------------------------------------------------------
  // The three reaction tables of the database

  datatype ReactionTable = Likes | Reposts | Bookmarks

  function RowsOf(t: Tables, w: ReactionTable): seq<Reaction> {
    match w
    case Likes => t.likes
    case Reposts => t.reposts
    case Bookmarks => t.bookmarks
  }

  function NextIdOf(t: Tables, w: ReactionTable): int {
    match w
    case Likes => t.nextLikeId
    case Reposts => t.nextRepostId
    case Bookmarks => t.nextBookmarkId
  }

  /** The tables with table `w` replaced by `rows` and its id sequence at `next`. */
  function WithRows(t: Tables, w: ReactionTable, rows: seq<Reaction>, next: int): (r: Tables)
    ensures RowsOf(r, w) == rows && NextIdOf(r, w) == next
    ensures forall o :: o != w ==> RowsOf(r, o) == RowsOf(t, o) && NextIdOf(r, o) == NextIdOf(t, o)
    ensures r.posts == t.posts && r.comments == t.comments && r.users == t.users && r.hashtags == t.hashtags
         && r.postHashtags == t.postHashtags && r.notifications == t.notifications
  {
    match w
    case Likes => t.(likes := rows, nextLikeId := next)
    case Reposts => t.(reposts := rows, nextRepostId := next)
    case Bookmarks => t.(bookmarks := rows, nextBookmarkId := next)
  }

  /**
   * A toggle on table `w` by `caller`: the toggle rule, except that inserting a row for a post that does
   * not exist violates the `post_id` foreign key and fails.
   */
  function ToggleSpec(t: Tables, w: ReactionTable, caller: UserId, postId: int, now: int): Result<Tables> {
    var rows := RowsOf(t, w);
    var present := HasPair(rows, postId, caller);
    if !present && !PostExists(t.posts, postId) then Err(InternalError)
    else Ok(WithRows(t, w, Toggle(rows, postId, caller, NextIdOf(t, w), now),
                     if present then NextIdOf(t, w) else NextIdOf(t, w) + 1))
  }

  /** The key and foreign-key constraints hold on the tables just as the schema declares them. */
  lemma ReactionTableValid(t: Tables, w: ReactionTable)
    requires Valid(t)
    ensures Serial(RowsOf(t, w), ReactionKey(), NextIdOf(t, w)) && ReactionsRefer(RowsOf(t, w), t.posts)
  {
  }

  /** Replacing one reaction table by rows with serial ids that refer to existing posts keeps the constraints. */
  lemma WithRowsValid(t: Tables, w: ReactionTable, rows: seq<Reaction>, next: int)
    requires Valid(t)
    requires Serial(rows, ReactionKey(), next) && ReactionsRefer(rows, t.posts)
    ensures Valid(WithRows(t, w, rows, next))
  {
    var t' := WithRows(t, w, rows, next);
    assert RowsOf(t', Likes) == t'.likes && RowsOf(t', Reposts) == t'.reposts && RowsOf(t', Bookmarks) == t'.bookmarks;
    assert RowsOf(t, Likes) == t.likes && RowsOf(t, Reposts) == t.reposts && RowsOf(t, Bookmarks) == t.bookmarks;
  }

  /** A toggle fails only on the foreign key, and what it commits satisfies the schema's constraints. */
  lemma ToggleSpecValid(t: Tables, w: ReactionTable, caller: UserId, postId: int, now: int)
    requires Valid(t)
    ensures ToggleSpec(t, w, caller, postId, now).Err? <==>
              !HasPair(RowsOf(t, w), postId, caller) && !PostExists(t.posts, postId)
    ensures ToggleSpec(t, w, caller, postId, now).Ok? ==> Valid(ToggleSpec(t, w, caller, postId, now).value)
  {
    var rows := RowsOf(t, w);
    ReactionTableValid(t, w);
    if ToggleSpec(t, w, caller, postId, now).Ok? {
      ToggleKeepsSerial(rows, NextIdOf(t, w), postId, caller, now);
      ToggleKeepsRefs(rows, t.posts, postId, caller, NextIdOf(t, w), now);
      WithRowsValid(t, w, Toggle(rows, postId, caller, NextIdOf(t, w), now),
                    if HasPair(rows, postId, caller) then NextIdOf(t, w) else NextIdOf(t, w) + 1);
    }
  }
}
