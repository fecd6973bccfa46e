/**
 NotificationController: the caller's notifications with their unread
 count, marking one or all of them read, and the unread count alone. Every
 endpoint authenticates first and works on the notifications of the token's
 `sub` only. index calls BaseModel::countAll, which BaseModel does not
 define; the count it was meant to return is a parameter here, with the
 meaning the code expects of it stated as a hypothesis.
 */
module NotificationController {
  import opened Php
  import opened Wrappers
  import opened Http
  import opened Store
  import opened Rows
  import opened BaseModel
  import opened Validate
  import AuthMiddleware
  import NotificationModel

  function NotFoundOrRead(): Outcome {
    Error("Notification not found or already read", "NOT_FOUND", Arr(map[]), 404)
  }

  /** What `countAll($conditions)` would count: the rows agreeing with every condition, as findAll selects them. */
  ghost predicate CountsLikeFindAll(countAll: (Table, Assoc) -> nat) {
    forall t: Table, conditions: Assoc :: countAll(t, conditions) == |Filter(t.rows, MatchingAll(conditions))|
  }

  /** The condition list index hands to countAll: `['user_id' => sub]`. */
  function OwnerCondition(claims: Row): Assoc {
    [("user_id", Get(claims, "sub"))]
  }

  /** index once authenticated: the caller's page of notifications, their unread count, and the pagination. */
  function ListingAnswer(db: Db, claims: Row, query: Row, countAll: (Table, Assoc) -> nat): (o: Outcome)
    ensures var p := Paginate(query);
            var sub := Get(claims, "sub");
            && IsSuccess(o)
            && Carries(o, "notifications", RowsVal(NotificationModel.GetByUser(db.notifications, sub, p.limit, p.offset)))
            && Carries(o, "unread_count", Int(NotificationModel.CountUnreadByUser(db.notifications, sub)))
            && Carries(o, "pagination", PaginationVal(p, countAll(db.notifications, OwnerCondition(claims))))
  {
    var p := Paginate(query);
    var sub := Get(claims, "sub");
    var total := countAll(db.notifications, OwnerCondition(claims));
    Listing(RowsVal(NotificationModel.GetByUser(db.notifications, sub, p.limit, p.offset)),
            Int(NotificationModel.CountUnreadByUser(db.notifications, sub)),
            PaginationVal(p, total))
  }

  /** The success envelope of index, carrying its three entries. */
  function Listing(notifications: Val, unread: Val, pagination: Val): (o: Outcome)
    ensures IsSuccess(o) && Carries(o, "notifications", notifications)
    ensures Carries(o, "unread_count", unread) && Carries(o, "pagination", pagination)
  {
    Ok(map["notifications" := notifications, "unread_count" := unread, "pagination" := pagination])
  }

  /** NotificationController::index. */
  function Index(db: Db, req: AuthMiddleware.Request, query: Row, countAll: (Table, Assoc) -> nat): (o: Outcome)
    ensures AuthMiddleware.Handle(req).Halt? ==> o == AuthMiddleware.Handle(req).out
    ensures AuthMiddleware.Handle(req).Next? ==> o == ListingAnswer(db, AuthMiddleware.Handle(req).value.1, query, countAll)
  {
    var auth := AuthMiddleware.Handle(req);
    if auth.Halt? then auth.out else ListingAnswer(db, auth.value.1, query, countAll)
  }

  /**
   The listing is the caller's own: every notification on the page is
   theirs, the page holds at most `limit` of them, and (with countAll
   counting as findAll would) the total is the number of the caller's
   notifications and at least the unread count.
   */
  lemma {:induction false} ListingIsCallersOwn(db: Db, claims: Row, query: Row, countAll: (Table, Assoc) -> nat)
    requires CountsLikeFindAll(countAll)
    ensures var p := Paginate(query);
            var sub := Get(claims, "sub");
            var page := NotificationModel.GetByUser(db.notifications, sub, p.limit, p.offset);
            var total := countAll(db.notifications, OwnerCondition(claims));
            && |page| <= p.limit
            && (forall x :: x in page ==> x in db.notifications.rows && NotificationModel.OfUser(sub, x))
            && total == |Filter(db.notifications.rows, NotificationModel.OfUserBy(sub))|
            && NotificationModel.CountUnreadByUser(db.notifications, sub) <= total
  {
    var sub := Get(claims, "sub");
    var rows := db.notifications.rows;
    forall i | 0 <= i < |rows|
      ensures MatchingAll(OwnerCondition(claims))(rows[i]) == NotificationModel.OfUserBy(sub)(rows[i]) {
      assert OwnerCondition(claims)[0] == ("user_id", sub);
    }
    FilterAgree(rows, MatchingAll(OwnerCondition(claims)), NotificationModel.OfUserBy(sub));
    NotificationModel.UnreadWithinAll(db.notifications, sub);
  }

  /** markAsRead once authenticated: 404 when nothing changed, success otherwise. */
  function MarkAnswer(db: Db, claims: Row, id: Val): (r: Served)
    ensures var (t, n) := NotificationModel.MarkAsRead(db.notifications, id, Get(claims, "sub"));
            && r.db == db.(notifications := t)
            && (n == 0 ==> r.out == NotFoundOrRead())
            && (n != 0 ==> IsSuccess(r.out))
  {
    var (t, n) := NotificationModel.MarkAsRead(db.notifications, id, Get(claims, "sub"));
    if n == 0 then Served(db.(notifications := t), NotFoundOrRead())
    else Served(db.(notifications := t), Ok(map[], Some("Notification marked as read")))
  }

  /** NotificationController::markAsRead. */
  function MarkAsRead(db: Db, req: AuthMiddleware.Request, id: Val): (r: Served)
    ensures AuthMiddleware.Handle(req).Halt? ==> r == Served(db, AuthMiddleware.Handle(req).out)
    ensures AuthMiddleware.Handle(req).Next? ==> r == MarkAnswer(db, AuthMiddleware.Handle(req).value.1, id)
  {
    var auth := AuthMiddleware.Handle(req);
    if auth.Halt? then Served(db, auth.out) else MarkAnswer(db, auth.value.1, id)
  }

  /**
   markAsRead answers 404 exactly when the caller has no notification with
   that id still unread, and then writes nothing; on success it marks that
   one notification of the caller's and nothing else, and the caller's
   unread count drops by one.
   */
  lemma {:induction false} MarkAnswerMeaning(db: Db, claims: Row, id: int)
    requires Keyed(db.notifications) && NotificationModel.Flagged(db.notifications)
    ensures var sub := Get(claims, "sub");
            var rows := db.notifications.rows;
            MarkAnswer(db, claims, Int(id)).out == NotFoundOrRead() <==>
              forall i :: 0 <= i < |rows| ==> !(NotificationModel.Owns(Int(id), sub, rows[i]) && NotificationModel.IsUnread(rows[i]))
    ensures MarkAnswer(db, claims, Int(id)).out == NotFoundOrRead() ==> MarkAnswer(db, claims, Int(id)).db == db
    ensures IsSuccess(MarkAnswer(db, claims, Int(id)).out) ==>
              NotificationModel.CountUnreadByUser(MarkAnswer(db, claims, Int(id)).db.notifications, Get(claims, "sub")) + 1
              == NotificationModel.CountUnreadByUser(db.notifications, Get(claims, "sub"))
  {
    var sub := Get(claims, "sub");
    var rows := db.notifications.rows;
    var n := NotificationModel.MarkAsRead(db.notifications, Int(id), sub).1;
    NotificationModel.NothingMarkedNothingChanged(db.notifications, Int(id), sub);
    NotificationModel.MarkAsReadAtMostOne(db.notifications, id, sub);
    NotificationModel.MarkAsReadCountsNewlyRead(db.notifications, Int(id), sub);
    NothingMarkedIffNoneUnread(db.notifications, Int(id), sub);
    MarkAnswerFailsIffNothingMarked(db, claims, Int(id));
  }

  /** With boolean flags, markAsRead marks nothing exactly when the caller has no unread notification with that id. */
  lemma NothingMarkedIffNoneUnread(t: Table, id: Val, sub: Val)
    requires NotificationModel.Flagged(t)
    ensures NotificationModel.MarkAsRead(t, id, sub).1 == 0 <==>
              forall i :: 0 <= i < |t.rows| ==> !(NotificationModel.Owns(id, sub, t.rows[i]) && NotificationModel.IsUnread(t.rows[i]))
  {
    NotificationModel.NothingMarkedNothingChanged(t, id, sub);
    forall i | 0 <= i < |t.rows|
      ensures (NotificationModel.Owns(id, sub, t.rows[i]) && Get(t.rows[i], "is_read") != Bool(true))
              <==> NotificationModel.Owns(id, sub, t.rows[i]) && NotificationModel.IsUnread(t.rows[i]) {
      assert Get(t.rows[i], "is_read").Bool?;
    }
  }

  /** markAsRead's answer is the 404 exactly when no row was marked. */
  lemma MarkAnswerFailsIffNothingMarked(db: Db, claims: Row, id: Val)
    ensures MarkAnswer(db, claims, id).out == NotFoundOrRead() <==>
              NotificationModel.MarkAsRead(db.notifications, id, Get(claims, "sub")).1 == 0
  {
    ErrorIsError("Notification not found or already read", "NOT_FOUND", Arr(map[]), 404);
  }

  /** markAllAsRead once authenticated: the caller's unread notifications marked, their number reported. */
  function MarkAllAnswer(db: Db, claims: Row): (r: Served)
    ensures var (t, n) := NotificationModel.MarkAllAsRead(db.notifications, Get(claims, "sub"));
            && r.db == db.(notifications := t)
            && IsSuccess(r.out) && Carries(r.out, "marked_count", Int(n))
  {
    var (t, n) := NotificationModel.MarkAllAsRead(db.notifications, Get(claims, "sub"));
    Served(db.(notifications := t), Ok(map["marked_count" := Int(n)], Some("All notifications marked as read")))
  }

  /** NotificationController::markAllAsRead. */
  function MarkAllAsRead(db: Db, req: AuthMiddleware.Request): (r: Served)
    ensures AuthMiddleware.Handle(req).Halt? ==> r == Served(db, AuthMiddleware.Handle(req).out)
    ensures AuthMiddleware.Handle(req).Next? ==> r == MarkAllAnswer(db, AuthMiddleware.Handle(req).value.1)
  {
    var auth := AuthMiddleware.Handle(req);
    if auth.Halt? then Served(db, auth.out) else MarkAllAnswer(db, auth.value.1)
  }

  /**
   The reported `marked_count` is the caller's unread count before the
   call, afterwards it is 0, and no other user's notification changes.
   */
  lemma {:induction false} MarkAllMeaning(db: Db, claims: Row)
    ensures var sub := Get(claims, "sub");
            var r := MarkAllAnswer(db, claims);
            && Carries(r.out, "marked_count", Int(NotificationModel.CountUnreadByUser(db.notifications, sub)))
            && NotificationModel.CountUnreadByUser(r.db.notifications, sub) == 0
            && |r.db.notifications.rows| == |db.notifications.rows|
            && forall i :: 0 <= i < |db.notifications.rows| && !NotificationModel.OfUser(sub, db.notifications.rows[i]) ==>
                 r.db.notifications.rows[i] == db.notifications.rows[i]
  {
    NotificationModel.MarkAllLeavesNoneUnread(db.notifications, Get(claims, "sub"));
  }

  /** unreadCount once authenticated. */
  function UnreadAnswer(db: Db, claims: Row): (o: Outcome)
    ensures IsSuccess(o) && Carries(o, "unread_count", Int(NotificationModel.CountUnreadByUser(db.notifications, Get(claims, "sub"))))
  {
    Ok(map["unread_count" := Int(NotificationModel.CountUnreadByUser(db.notifications, Get(claims, "sub")))])
  }

  /** NotificationController::unreadCount. */
  function UnreadCount(db: Db, req: AuthMiddleware.Request): (o: Outcome)
    ensures AuthMiddleware.Handle(req).Halt? ==> o == AuthMiddleware.Handle(req).out
    ensures AuthMiddleware.Handle(req).Next? ==> o == UnreadAnswer(db, AuthMiddleware.Handle(req).value.1)
  {
    var auth := AuthMiddleware.Handle(req);
    if auth.Halt? then auth.out else UnreadAnswer(db, auth.value.1)
  }
}
