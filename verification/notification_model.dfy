/**
 Notification: a user's notifications, newest first, their unread subset,
 marking one or all of them read, and creating one. `is_read` is a BOOLEAN
 column; the statements compare it with the literal FALSE and set it to
 TRUE. ORDER BY is not applied (see Sql.Run), so listings come back in
 storage order.
 */
module NotificationModel {
  import opened Php
  import opened Wrappers
  import opened Rows
  import opened Sql
  import opened BaseModel

  /** The defaults of createNotification's optional arguments. */
  const DEFAULT_TYPE: string := "info"
  const DEFAULT_CATEGORY: string := "system"

  /** The default LIMIT of getUnreadByUser and of getByUser. */
  const UNREAD_LIMIT: nat := 10
  const BY_USER_LIMIT: nat := 20

  /** `user_id = ?`. */
  predicate OfUser(userId: Val, row: Row) {
    Holds(Get(row, "user_id"), Eq, userId)
  }

  function OfUserBy(userId: Val): Row -> bool {
    row => OfUser(userId, row)
  }

  /** `is_read = FALSE`: any value MySQL compares equal to 0. */
  predicate IsUnread(row: Row) {
    Holds(Get(row, "is_read"), Eq, Bool(false))
  }

  /** `user_id = ? AND is_read = FALSE`. */
  predicate UnreadOf(userId: Val, row: Row) {
    OfUser(userId, row) && IsUnread(row)
  }

  function UnreadOfBy(userId: Val): Row -> bool {
    row => UnreadOf(userId, row)
  }

  /** `id = ? AND user_id = ?`: the notification with that id, when it is that user's. */
  predicate Owns(id: Val, userId: Val, row: Row) {
    HasKey(id)(row) && OfUser(userId, row)
  }

  /**
   A row markAsRead changes: that user's notification with that id, not
   already holding TRUE (MySQL's affected rows leave out a row the UPDATE
   does not change).
   */
  predicate NewlyRead(id: Val, userId: Val, row: Row) {
    Owns(id, userId, row) && Get(row, "is_read") != Bool(true)
  }

  function NewlyReadBy(id: Val, userId: Val): Row -> bool {
    row => NewlyRead(id, userId, row)
  }

  /** Every stored `is_read` is a boolean, as createNotification and the updates write it. */
  predicate Flagged(t: Table) {
    forall i :: 0 <= i < |t.rows| ==> Get(t.rows[i], "is_read").Bool?
  }

  /** `SET is_read = TRUE`. */
  const READ: Row := map["is_read" := Bool(true)]

  /** The WHERE clause `user_id = ?`. */
  function UserWhere(): (w: seq<Cond>)
    ensures Holes(w) == 1
    ensures forall row: Row, userId: Val :: Satisfies(row, w, [userId]) <==> OfUser(userId, row)
  {
    var w := [Bound("user_id", Eq)];
    assert w[1..] == [];
    forall row: Row, userId: Val ensures Satisfies(row, w, [userId]) <==> OfUser(userId, row) {
      assert [userId][..1] == [userId] && [userId][1..] == [];
    }
    w
  }

  /** The WHERE clause `user_id = ? AND is_read = FALSE`. */
  function UnreadWhere(): (w: seq<Cond>)
    ensures Holes(w) == 1
    ensures forall row: Row, userId: Val :: Satisfies(row, w, [userId]) <==> UnreadOf(userId, row)
  {
    var w := [Bound("user_id", Eq), Fixed("is_read", Eq, Bool(false))];
    assert w[1..] == [Fixed("is_read", Eq, Bool(false))] && w[1..][1..] == [];
    forall row: Row, userId: Val ensures Satisfies(row, w, [userId]) <==> UnreadOf(userId, row) {
      assert [userId][..1] == [userId] && [userId][1..] == [];
    }
    w
  }

  /** The WHERE clause `id = ? AND user_id = ?`. */
  function OwnedWhere(): (w: seq<Cond>)
    ensures Holes(w) == 2
    ensures forall row: Row, id: Val, userId: Val :: Satisfies(row, w, [id, userId]) <==> Owns(id, userId, row)
  {
    var w := [Bound(PRIMARY_KEY, Eq), Bound("user_id", Eq)];
    assert w[1..] == [Bound("user_id", Eq)] && w[1..][1..] == [];
    assert Holes(w[1..]) == 1;
    assert Holes(w) == 2;
    forall row: Row, id: Val, userId: Val ensures Satisfies(row, w, [id, userId]) <==> Owns(id, userId, row) {
      var args := [id, userId];
      assert args[..1] == [id] && args[1..] == [userId] && [userId][..1] == [userId] && [userId][1..] == [];
      assert Satisfies(row, w[1..], [userId]) <==> CondHolds(row, w[1], [userId]);
      assert Satisfies(row, w, args) <==> CondHolds(row, w[0], [id]) && CondHolds(row, w[1], [userId]);
    }
    w
  }

  /** Notification::getUnreadByUser: that user's unread notifications, at most `limit` of them. */
  function GetUnreadByUser(t: Table, userId: Val, limit: nat := UNREAD_LIMIT): (r: seq<Row>)
    ensures r == Page(Filter(t.rows, UnreadOfBy(userId)), limit, 0)
    ensures |r| <= limit && forall x :: x in r ==> x in t.rows && UnreadOf(userId, x)
  {
    var q := Select(UnreadWhere(), [Sort("created_at", "DESC")], true, false, [userId, Int(limit)]);
    assert q.params[..1] == [userId];
    FilterAgree(t.rows, Matching(UnreadWhere(), [userId]), UnreadOfBy(userId));
    Run(q, t.rows).value
  }

  /** Notification::getByUser: one page of that user's notifications. */
  function GetByUser(t: Table, userId: Val, limit: nat := BY_USER_LIMIT, offset: nat := 0): (r: seq<Row>)
    ensures r == Page(Filter(t.rows, OfUserBy(userId)), limit, offset)
    ensures |r| <= limit && forall x :: x in r ==> x in t.rows && OfUser(userId, x)
  {
    var q := Select(UserWhere(), [Sort("created_at", "DESC")], true, true, [userId, Int(limit), Int(offset)]);
    assert q.params[..1] == [userId];
    FilterAgree(t.rows, Matching(UserWhere(), [userId]), OfUserBy(userId));
    Run(q, t.rows).value
  }

  /** Notification::countUnreadByUser. */
  function CountUnreadByUser(t: Table, userId: Val): (n: nat)
    ensures n == |Filter(t.rows, UnreadOfBy(userId))|
  {
    var q := Select(UnreadWhere(), [], false, false, [userId]);
    assert q.params[..1] == [userId];
    FilterAgree(t.rows, Matching(UnreadWhere(), [userId]), UnreadOfBy(userId));
    CountRows(q, t.rows).value
  }

  /** Setting `is_read` to TRUE changes a row exactly when it did not already hold TRUE. */
  lemma MarkingChanges(row: Row)
    ensures Assign(READ)(row) == row["is_read" := Bool(true)]
    ensures Assign(READ)(row) != row <==> Get(row, "is_read") != Bool(true)
  {
    assert Assign(READ)(row) == row["is_read" := Bool(true)];
    if Get(row, "is_read") == Bool(true) {
      assert row["is_read" := Bool(true)] == row;
    } else {
      assert row["is_read" := Bool(true)]["is_read"] != Get(row, "is_read");
    }
  }

  /**
   Notification::markAsRead: that user's notification with that id is
   marked read, every other row is left as it was; the count is the number
   of rows that changed, so an already read notification counts 0.
   */
  function MarkAsRead(t: Table, id: Val, userId: Val): (r: (Table, nat))
    ensures r.0.nextId == t.nextId && |r.0.rows| == |t.rows|
    ensures forall i :: 0 <= i < |t.rows| ==>
              r.0.rows[i] == if Owns(id, userId, t.rows[i]) then t.rows[i]["is_read" := Bool(true)] else t.rows[i]
    ensures r.1 == |Filter(t.rows, NewlyReadBy(id, userId))|
  {
    var p := Matching(OwnedWhere(), [id, userId]);
    var (rows, n) := UpdateWhere(t.rows, p, Assign(READ));
    forall i | 0 <= i < |t.rows|
      ensures ChangedBy(p, Assign(READ))(t.rows[i]) == NewlyReadBy(id, userId)(t.rows[i])
      ensures rows[i] == if Owns(id, userId, t.rows[i]) then t.rows[i]["is_read" := Bool(true)] else t.rows[i] {
      MarkingChanges(t.rows[i]);
    }
    FilterAgree(t.rows, ChangedBy(p, Assign(READ)), NewlyReadBy(id, userId));
    (Table(rows, t.nextId), n)
  }

  /**
   Notification::markAllAsRead: exactly that user's unread notifications are
   marked read; each of them changes, so the count is their number.
   */
  function MarkAllAsRead(t: Table, userId: Val): (r: (Table, nat))
    ensures r.0.nextId == t.nextId && |r.0.rows| == |t.rows|
    ensures forall i :: 0 <= i < |t.rows| ==>
              r.0.rows[i] == if UnreadOf(userId, t.rows[i]) then t.rows[i]["is_read" := Bool(true)] else t.rows[i]
    ensures r.1 == |Filter(t.rows, UnreadOfBy(userId))|
  {
    var p := Matching(UnreadWhere(), [userId]);
    var (rows, n) := UpdateWhere(t.rows, p, Assign(READ));
    forall i | 0 <= i < |t.rows|
      ensures ChangedBy(p, Assign(READ))(t.rows[i]) == UnreadOfBy(userId)(t.rows[i])
      ensures rows[i] == if UnreadOf(userId, t.rows[i]) then t.rows[i]["is_read" := Bool(true)] else t.rows[i] {
      MarkingChanges(t.rows[i]);
    }
    FilterAgree(t.rows, ChangedBy(p, Assign(READ)), UnreadOfBy(userId));
    (Table(rows, t.nextId), n)
  }

  /** createNotification's fields, in the order it lists them. */
  function NotificationData(userId: Val, title: Val, message: Val, kind: Val, category: Val, actionUrl: Val): (a: Assoc)
    ensures |a| == 7 && a[0] == ("user_id", userId) && a[6] == ("is_read", Bool(false))
    ensures DistinctKeys(a)
  {
    [("user_id", userId), ("title", title), ("message", message), ("type", kind), ("category", category),
     ("action_url", actionUrl), ("is_read", Bool(false))]
  }

  /** Notification::createNotification: BaseModel::create with the given fields, unread. */
  function CreateNotification(t: Table, userId: Val, title: Val, message: Val, kind: Val := Str(DEFAULT_TYPE),
                              category: Val := Str(DEFAULT_CATEGORY), actionUrl: Val := Null): (r: (Table, int))
    ensures r.1 == t.nextId && r.0.nextId == t.nextId + 1
    ensures |r.0.rows| == |t.rows| + 1 && r.0.rows[..|t.rows|] == t.rows
    ensures Get(r.0.rows[|t.rows|], "is_read") == Bool(false) && Get(r.0.rows[|t.rows|], "user_id") == userId
    ensures Get(r.0.rows[|t.rows|], PRIMARY_KEY) == Int(r.1)
    ensures Keyed(t) ==> Keyed(r.0)
  {
    var a := NotificationData(userId, title, message, kind, category, actionUrl);
    var row := ToRow(a);
    assert row[a[0].0] == userId && row[a[6].0] == Bool(false);
    var r := Create(t, a);
    assert r.0.rows == t.rows + [row[PRIMARY_KEY := Int(t.nextId)]];
    assert r.0.rows[..|t.rows|] == t.rows;
    r
  }

  /**
   Two row sequences of one length, row for row: a row satisfies `p`
   afterwards exactly when it did before and was not a `q` row, and every
   `q` row satisfied `p`. Then the `p` count drops by the number of `q`
   rows.
   */
  lemma {:induction false} CountDrops(a: seq<Row>, b: seq<Row>, p: Row -> bool, q: Row -> bool)
    requires |a| == |b|
    requires forall i :: 0 <= i < |a| ==> (p(b[i]) <==> p(a[i]) && !q(a[i]))
    requires forall i :: 0 <= i < |a| ==> q(a[i]) ==> p(a[i])
    ensures |Filter(b, p)| + |Filter(a, q)| == |Filter(a, p)|
    decreases |a|
  {
    if |a| > 0 {
      assert forall i :: 0 <= i < |a| - 1 ==> a[1..][i] == a[i + 1] && b[1..][i] == b[i + 1];
      CountDrops(a[1..], b[1..], p, q);
    }
  }

  /** On a table whose flags are booleans, markAsRead's count is exactly how far the user's unread count drops. */
  lemma {:induction false} MarkAsReadCountsNewlyRead(t: Table, id: Val, userId: Val)
    requires Flagged(t)
    ensures CountUnreadByUser(MarkAsRead(t, id, userId).0, userId) + MarkAsRead(t, id, userId).1
            == CountUnreadByUser(t, userId)
  {
    var t' := MarkAsRead(t, id, userId).0;
    var p := UnreadOfBy(userId);
    var q := NewlyReadBy(id, userId);
    forall i | 0 <= i < |t.rows| ensures q(t.rows[i]) ==> p(t.rows[i]) {
      assert Get(t.rows[i], "is_read").Bool?;
    }
    forall i | 0 <= i < |t.rows| ensures p(t'.rows[i]) <==> p(t.rows[i]) && !q(t.rows[i]) {
      if Owns(id, userId, t.rows[i]) {
        assert Get(t'.rows[i], "is_read") == Bool(true);
      }
    }
    CountDrops(t.rows, t'.rows, p, q);
  }

  /**
   markAsRead counts 0 exactly when the user has no notification with that
   id that is not already read, and then it leaves the table as it was.
   */
  lemma {:induction false} NothingMarkedNothingChanged(t: Table, id: Val, userId: Val)
    ensures MarkAsRead(t, id, userId).1 == 0 <==>
              forall i :: 0 <= i < |t.rows| ==> !(Owns(id, userId, t.rows[i]) && Get(t.rows[i], "is_read") != Bool(true))
    ensures MarkAsRead(t, id, userId).1 == 0 ==> MarkAsRead(t, id, userId).0 == t
  {
    var t' := MarkAsRead(t, id, userId).0;
    FilterEmpty(t.rows, NewlyReadBy(id, userId));
    if MarkAsRead(t, id, userId).1 == 0 {
      forall i | 0 <= i < |t.rows| ensures t'.rows[i] == t.rows[i] {
        if Owns(id, userId, t.rows[i]) {
          assert !NewlyReadBy(id, userId)(t.rows[i]);
          MarkingChanges(t.rows[i]);
        }
      }
      assert t'.rows == t.rows;
    }
  }

  /** In a keyed table markAsRead marks at most one notification. */
  lemma {:induction false} MarkAsReadAtMostOne(t: Table, id: int, userId: Val)
    requires Keyed(t)
    ensures MarkAsRead(t, Int(id), userId).1 <= 1
  {
    KeyedHasAtMostOne(t, id);
    FilterWeaker(t.rows, NewlyReadBy(Int(id), userId), HasKey(Int(id)));
  }

  /** After markAllAsRead the user has no unread notification left, and the count was how many there were. */
  lemma {:induction false} MarkAllLeavesNoneUnread(t: Table, userId: Val)
    ensures CountUnreadByUser(MarkAllAsRead(t, userId).0, userId) == 0
    ensures MarkAllAsRead(t, userId).1 == CountUnreadByUser(t, userId)
  {
    var t' := MarkAllAsRead(t, userId).0;
    forall i | 0 <= i < |t'.rows| ensures !UnreadOfBy(userId)(t'.rows[i]) {
      if UnreadOf(userId, t.rows[i]) {
        assert Get(t'.rows[i], "is_read") == Bool(true);
      }
    }
    FilterNone(t'.rows, UnreadOfBy(userId));
  }

  /** A new notification is unread: the user's unread count grows by one, and find() returns it. */
  lemma {:induction false} CreatedIsUnread(t: Table, userId: Val, title: Val, message: Val, kind: Val, category: Val, actionUrl: Val)
    requires Keyed(t) && Comparable(userId)
    ensures var (t', id) := CreateNotification(t, userId, title, message, kind, category, actionUrl);
            && Find(t', Int(id)).Some? && UnreadOf(userId, Find(t', Int(id)).value)
            && CountUnreadByUser(t', userId) == CountUnreadByUser(t, userId) + 1
  {
    var (t', id) := CreateNotification(t, userId, title, message, kind, category, actionUrl);
    var added := t'.rows[|t.rows|];
    assert t'.rows == t.rows + [added];
    assert UnreadOf(userId, added);
    assert t' == Add(t, ToRow(NotificationData(userId, title, message, kind, category, actionUrl))).0;
    AddThenFind(t, ToRow(NotificationData(userId, title, message, kind, category, actionUrl)));
    FilterAppend(t.rows, [added], UnreadOfBy(userId));
  }

  /** A user's unread notifications are among their notifications. */
  lemma {:induction false} UnreadWithinAll(t: Table, userId: Val)
    ensures CountUnreadByUser(t, userId) <= |Filter(t.rows, OfUserBy(userId))|
  {
    FilterWeaker(t.rows, UnreadOfBy(userId), OfUserBy(userId));
  }
}
