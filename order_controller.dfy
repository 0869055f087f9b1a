/** The order handlers: creation, the read and the listing with their
    per-role restrictions, and the status machine (accept, prepared, sent,
    delivered, paid, cancel). Each state-changing handler is a method on
    the store proved equal to a specification function, about which the
    lemmas below are stated. */
module OrderController {
  import opened Common
  import Json
  import opened Tables
  import opened Entities
  import opened OrderSchema
  import opened OrderRepository
  import opened OrderPricing
  import opened OrderWrite

  // ---------------------------------------------------------------- create

  /** POST /orders, with the clock reading `now`, the public id the column
      default generates, and the statement the store rejects, if any. The
      HTTP path keeps no idempotency entry. */
  function CreateOrderOutcome(db: Db, user: Principal, body: Json.JsonValue, now: Time, publicId: string,
                              fault: Option<WriteStep>): (r: (Result<Created>, Db))
    requires Valid(db)
    ensures r.0.Err? ==> r.1 == db
    ensures Valid(r.1)
  {
    match ParseCreateOrder(body)
    case Err(e) => (Err(e), db)
    case Ok(req) => PlaceOrder(db, user.userId, req, "", now, publicId, fault)
  }

  method CreateOrder(s: Store, user: Principal, body: Json.JsonValue, now: Time, publicId: string,
                     fault: Option<WriteStep>) returns (r: Result<Created>)
    requires Valid(s.db)
    modifies s
    ensures (r, s.db) == CreateOrderOutcome(old(s.db), user, body, now, publicId, fault)
  {
    var parsed := ParseCreateOrder(body);
    if parsed.Err? {
      return Err(parsed.error);
    }
    r := PlaceOrderTx(s, user.userId, parsed.value, "", now, publicId, fault);
  }

  /** A body that does not match the schema is refused by validation with
      the store untouched; a missing branch is reported as not found. */
  lemma CreateOrderRejects(db: Db, user: Principal, body: Json.JsonValue, now: Time, publicId: string,
                           fault: Option<WriteStep>)
    requires Valid(db)
    ensures var (r, d) := CreateOrderOutcome(db, user, body, now, publicId, fault);
            && (!CreateOrderConforms(body) ==> r.Err? && r.error.zod && d == db)
            && (CreateOrderConforms(body) && GetBranchInfo(db, ParseCreateOrder(body).value.branchId).None? ==>
                  r == Err(NotFoundError("Branch not found")) && d == db)
            && ((exists k :: k in db.orders.rows && db.orders.rows[k].publicId == publicId) ==> r.Err? && d == db)
  {
    if CreateOrderConforms(body) {
      PlaceOrderRejects(db, user.userId, ParseCreateOrder(body).value, "", now, publicId, fault);
    }
  }

  /** A created order belongs to the caller, is `preparing`, totals the
      stored prices, reads back by its public id with its items, and the
      HTTP path leaves the idempotency entries alone. */
  lemma CreateOrderOk(db: Db, user: Principal, body: Json.JsonValue, now: Time, publicId: string,
                      fault: Option<WriteStep>)
    requires Valid(db) && CreateOrderOutcome(db, user, body, now, publicId, fault).0.Ok?
    ensures CreateOrderConforms(body)
    ensures var req := ParseCreateOrder(body).value;
            var (r, d) := CreateOrderOutcome(db, user, body, now, publicId, fault);
            && (forall i :: 0 <= i < |req.items| ==> req.items[i].menuItemId in db.menuItems.rows)
            && r.value.order.customerId == user.userId && r.value.order.status == Preparing
            && r.value.order.branchId == req.branchId
            && r.value.order.total == StoredTotal(db, req.items)
            && |r.value.items| == |req.items|
            && GetOrderById(d, publicId) == Some(OrderWithItems(r.value.order, r.value.items))
            && d.idempotency == db.idempotency
  {
    var req := ParseCreateOrder(body).value;
    assert CreateOrderOutcome(db, user, body, now, publicId, fault) == PlaceOrder(db, user.userId, req, "", now, publicId, fault);
    PlacedWithoutKey(db, user.userId, req, now, publicId, fault);
  }

  /** What `CreateOrderOk` states, for the placement the HTTP path runs. */
  lemma PlacedWithoutKey(db: Db, customerId: int, req: CreateOrderRequest, now: Time, publicId: string,
                         fault: Option<WriteStep>)
    requires Valid(db) && PlaceOrder(db, customerId, req, "", now, publicId, fault).0.Ok?
    ensures var (r, d) := PlaceOrder(db, customerId, req, "", now, publicId, fault);
            && (forall i :: 0 <= i < |req.items| ==> req.items[i].menuItemId in db.menuItems.rows)
            && r.value.order.customerId == customerId && r.value.order.status == Preparing
            && r.value.order.branchId == req.branchId
            && r.value.order.total == StoredTotal(db, req.items)
            && |r.value.items| == |req.items|
            && GetOrderById(d, publicId) == Some(OrderWithItems(r.value.order, r.value.items))
            && d.idempotency == db.idempotency
  {
    PlaceOrderOk(db, customerId, req, "", now, publicId, fault);
    PlaceOrderPrice(db, customerId, req, "", now, publicId, fault);
    PlaceOrderItems(db, customerId, req, "", now, publicId, fault);
    PlaceOrderFootprint(db, customerId, req, "", now, publicId, fault);
  }

  // ------------------------------------------------------------------- read

  /** GET /orders/:id: a customer sees only their own orders, a restaurant
      owner only orders of a branch they own, and anyone else every order. */
  function GetOrder(db: Db, publicId: string, user: Principal): (r: Result<OrderWithItems>)
    ensures GetOrderById(db, publicId).None? ==> r == Err(NotFoundError("Order not found"))
    ensures r.Ok? ==> GetOrderById(db, publicId) == Some(r.value)
    ensures GetOrderById(db, publicId).Some? ==>
              var o := GetOrderById(db, publicId).value.order;
              && (user.role == Customer ==> (r.Ok? <==> o.customerId == user.userId))
              && (user.role == Customer && o.customerId != user.userId ==> r == Err(ForbiddenError()))
              && (user.role == RestaurantOwner && GetBranchInfo(db, o.branchId).None? ==>
                    r == Err(NotFoundError("The order branch is not available.")))
              && (user.role == RestaurantOwner && GetBranchInfo(db, o.branchId).Some? && GetBranchInfo(db, o.branchId).value.ownerId != user.userId ==>
                    r == Err(ForbiddenError()))
              && (user.role == RestaurantOwner ==>
                    (r.Ok? <==> GetBranchInfo(db, o.branchId).Some? && GetBranchInfo(db, o.branchId).value.ownerId == user.userId))
              && (user.role == Admin || user.role == OtherRole ==> r.Ok?)
  {
    match GetOrderById(db, publicId)
    case None => Err(NotFoundError("Order not found"))
    case Some(data) =>
      if user.role == Customer && user.userId != data.order.customerId then Err(ForbiddenError())
      else if user.role == RestaurantOwner then
        (match GetBranchInfo(db, data.order.branchId)
         case None => Err(NotFoundError("The order branch is not available."))
         case Some(info) => if info.ownerId != user.userId then Err(ForbiddenError()) else Ok(data))
      else Ok(data)
  }

  // ---------------------------------------------------------------- listing

  /** The query string of GET /orders: each parameter absent or a number. */
  datatype ListQuery = ListQuery(customerId: Option<int>, branchId: Option<int>, limit: Option<int>, offset: Option<int>)

  const DefaultLimit := 50
  const DefaultOffset := 0

  function QueryFilters(q: ListQuery): (f: OrderFilters)
    ensures f.customerId == q.customerId && f.branchId == q.branchId
    ensures f.limit == q.limit.GetOr(DefaultLimit) && f.offset == q.offset.GetOr(DefaultOffset)
  {
    OrderFilters(q.customerId, q.branchId, q.limit.GetOr(DefaultLimit), q.offset.GetOr(DefaultOffset))
  }

  /** GET /orders: a customer's filter is forced to their own id; a
      restaurant owner must name a branch they own; anyone else lists what
      the query asks for. */
  function ListOrdersFor(db: Db, q: ListQuery, user: Principal): (r: Result<seq<OrderSummary>>)
    ensures user.role == Customer ==> r == ListOrders(db, QueryFilters(q).(customerId := Some(user.userId)))
    ensures user.role == RestaurantOwner && !OrderRepository.Truthy(q.branchId) ==>
              r == Err(PlainAppError("Must provide a branch id to look for its orders"))
    ensures user.role == RestaurantOwner && OrderRepository.Truthy(q.branchId) && GetBranchInfo(db, q.branchId.value).None? ==>
              r == Err(NotFoundError("Branch not found"))
    ensures user.role == RestaurantOwner && OrderRepository.Truthy(q.branchId) && GetBranchInfo(db, q.branchId.value).Some? ==>
              r == if GetBranchInfo(db, q.branchId.value).value.ownerId != user.userId then Err(ForbiddenError())
                   else ListOrders(db, QueryFilters(q))
    ensures user.role == Admin || user.role == OtherRole ==> r == ListOrders(db, QueryFilters(q))
  {
    var f := QueryFilters(q);
    if user.role == Customer then ListOrders(db, f.(customerId := Some(user.userId)))
    else if user.role == RestaurantOwner then
      if OrderRepository.Truthy(f.branchId) then
        (match GetBranchInfo(db, f.branchId.value)
         case None => Err(NotFoundError("Branch not found"))
         case Some(info) => if info.ownerId != user.userId then Err(ForbiddenError()) else ListOrders(db, f))
      else Err(PlainAppError("Must provide a branch id to look for its orders"))
    else ListOrders(db, f)
  }

  /** What each role can see through the listing: a customer (whose id,
      being a serial key, is non-zero) only their own orders; an owner only
      orders of the branch they own; and at most 50 rows without a limit. */
  lemma ListOrdersScope(db: Db, q: ListQuery, user: Principal)
    requires Valid(db) && ListOrdersFor(db, q, user).Ok?
    ensures user.role == Customer && user.userId != 0 ==>
              forall i :: 0 <= i < |ListOrdersFor(db, q, user).value| ==>
                ListOrdersFor(db, q, user).value[i].customerId == user.userId
    ensures user.role == RestaurantOwner ==>
              && OrderRepository.Truthy(q.branchId)
              && GetBranchInfo(db, q.branchId.value).Some? && GetBranchInfo(db, q.branchId.value).value.ownerId == user.userId
              && forall i :: 0 <= i < |ListOrdersFor(db, q, user).value| ==>
                   ListOrdersFor(db, q, user).value[i].branchId == q.branchId.value
    ensures q.limit.None? ==> |ListOrdersFor(db, q, user).value| <= DefaultLimit
  {
    var f := if user.role == Customer then QueryFilters(q).(customerId := Some(user.userId)) else QueryFilters(q);
    ListOrdersSound(db, f);
    var out := ListOrdersFor(db, q, user).value;
    forall i | 0 <= i < |out|
      ensures user.role == Customer && user.userId != 0 ==> out[i].customerId == user.userId
      ensures user.role == RestaurantOwner ==> out[i].branchId == q.branchId.value
    {
      assert SummarisesMatch(db, f, out[i]);
    }
  }

  // ------------------------------------------------------------ transitions

  /** The parameters of `changeStatusIfAllowed`: the statuses the order may
      be in, the status it moves to and the timestamp column it sets. */
  datatype Transition = Transition(from: seq<OrderStatus>, to: OrderStatus, column: StampColumn)

  const AcceptTransition := Transition([Pending], Preparing, AcceptedAt)
  const PreparedTransition := Transition([Preparing], OnTheWay, PreparedAt)
  const SentTransition := Transition([Preparing, OnTheWay], OnTheWay, SentAt)
  const DeliveredTransition := Transition([OnTheWay], Delivered, DeliveredAt)
  const PaidTransition := Transition([Delivered], Delivered, PaidAt)

  function InvalidTransition(from: OrderStatus, to: OrderStatus): Thrown {
    AppError("Invalid transition from " + StatusName(from) + " to " + StatusName(to), 400, State)
  }

  /** The fields a transition writes: the new status and one timestamp. */
  function TransitionFields(t: Transition, now: Time): seq<OrderField> {
    [StatusField(t.to), StampField(t.column, now)]
  }

  /** `changeStatusIfAllowed`: the order must exist; a restaurant owner
      must own its branch; only then is the current status checked; and
      the update writes the status and the timestamp column. */
  function ChangeStatus(db: Db, publicId: string, actor: Principal, t: Transition, now: Time): (r: (Result<Option<Order>>, Db))
    requires Valid(db)
    ensures r.0.Err? ==> r.1 == db
    ensures Valid(r.1)
  {
    match GetOrderById(db, publicId)
    case None => (Err(NotFoundError("Order not found")), db)
    case Some(data) =>
      match TransitionRefusal(db, data.order, actor, t)
      case Some(e) => (Err(e), db)
      case None =>
        var (updated, d) := UpdateEffect(db, publicId, TransitionFields(t, now));
        (Ok(updated), d)
  }

  /** The checks of a transition on a found order, in their order: the
      error it is refused with, or None when it may go ahead. */
  function TransitionRefusal(db: Db, o: Order, actor: Principal, t: Transition): Option<Thrown> {
    if actor.role == RestaurantOwner && GetBranchInfo(db, o.branchId).None? then Some(NotFoundError("Branch not found"))
    else if actor.role == RestaurantOwner && GetBranchInfo(db, o.branchId).value.ownerId != actor.userId then
      Some(ForbiddenError())
    else if o.status !in t.from then Some(InvalidTransition(o.status, t.to))
    else None
  }

  /** The checks of a transition, in their order. */
  lemma ChangeStatusChecks(db: Db, publicId: string, actor: Principal, t: Transition, now: Time)
    requires Valid(db)
    ensures GetOrderById(db, publicId).None? ==> ChangeStatus(db, publicId, actor, t, now).0 == Err(NotFoundError("Order not found"))
    ensures GetOrderById(db, publicId).Some? && actor.role == RestaurantOwner ==>
              var o := GetOrderById(db, publicId).value.order;
              && (GetBranchInfo(db, o.branchId).None? ==> ChangeStatus(db, publicId, actor, t, now).0 == Err(NotFoundError("Branch not found")))
              && (GetBranchInfo(db, o.branchId).Some? && GetBranchInfo(db, o.branchId).value.ownerId != actor.userId ==>
                    ChangeStatus(db, publicId, actor, t, now).0 == Err(ForbiddenError()))
    ensures GetOrderById(db, publicId).Some? ==>
              var o := GetOrderById(db, publicId).value.order;
              (actor.role != RestaurantOwner || (GetBranchInfo(db, o.branchId).Some? && GetBranchInfo(db, o.branchId).value.ownerId == actor.userId)) ==>
                (o.status !in t.from <==> ChangeStatus(db, publicId, actor, t, now).0 == Err(InvalidTransition(o.status, t.to)))
                && (o.status in t.from <==> ChangeStatus(db, publicId, actor, t, now).0.Ok?)
  {
  }

  /** A successful transition gives the order the target status and sets
      its timestamp column to now; every other column, every other order
      and every other table is unchanged. */
  lemma ChangeStatusOk(db: Db, publicId: string, actor: Principal, t: Transition, now: Time)
    requires Valid(db) && ChangeStatus(db, publicId, actor, t, now).0.Ok?
    ensures GetOrderById(db, publicId).Some?
    ensures var o := GetOrderById(db, publicId).value.order;
            var (r, d) := ChangeStatus(db, publicId, actor, t, now);
            && o.status in t.from
            && (actor.role == RestaurantOwner ==>
                  GetBranchInfo(db, o.branchId).Some? && GetBranchInfo(db, o.branchId).value.ownerId == actor.userId)
            && r.value.Some?
            && var o' := r.value.value;
               && o'.status == t.to && Stamp(o'.stamps, t.column) == Some(now)
               && (forall c :: c != t.column ==> Stamp(o'.stamps, c) == Stamp(o.stamps, c))
               && o'.paid == o.paid && o'.id == o.id && o'.publicId == o.publicId && o'.customerId == o.customerId
               && o'.branchId == o.branchId && o'.total == o.total && o'.deliveryAddress == o.deliveryAddress
               && o'.createdAt == o.createdAt && o'.estimatedReadyAt == o.estimatedReadyAt
               && d.orders == db.orders.Put(o.id, o')
               && d.(orders := db.orders) == db
  {
    TransitionApplied(GetOrderById(db, publicId).value.order, t, now);
  }

  /** The fields of a transition set the status and the one timestamp. */
  lemma TransitionApplied(o: Order, t: Transition, now: Time)
    ensures var o' := ApplyFields(o, TransitionFields(t, now));
            && o'.status == t.to && Stamp(o'.stamps, t.column) == Some(now) && o'.paid == o.paid
            && (forall c :: c != t.column ==> Stamp(o'.stamps, c) == Stamp(o.stamps, c))
  {
    var fields := TransitionFields(t, now);
    assert DistinctColumns(fields);
    ApplyFieldsStatus(o, fields);
    ApplyFieldsPaid(o, fields);
    forall c ensures c != t.column ==> Stamp(ApplyFields(o, fields).stamps, c) == Stamp(o.stamps, c) {
      ApplyFieldsStamps(o, fields, c);
    }
    ApplyFieldsStamps(o, fields, t.column);
  }

  /** After a successful transition the order reads back with the new
      status, and its branch and owner are unchanged. */
  lemma ReadAfterTransition(db: Db, publicId: string, actor: Principal, t: Transition, now: Time)
    requires Valid(db) && ChangeStatus(db, publicId, actor, t, now).0.Ok?
    ensures var d := ChangeStatus(db, publicId, actor, t, now).1;
            && GetOrderById(d, publicId).Some?
            && GetOrderById(d, publicId).value.order == ChangeStatus(db, publicId, actor, t, now).0.value.value
            && GetOrderById(d, publicId).value.order.status == t.to
            && GetBranchInfo(d, GetOrderById(d, publicId).value.order.branchId)
               == GetBranchInfo(db, GetOrderById(db, publicId).value.order.branchId)
  {
    ChangeStatusOk(db, publicId, actor, t, now);
    var o := GetOrderById(db, publicId).value.order;
    var o' := ChangeStatus(db, publicId, actor, t, now).0.value.value;
    FindFromPut(db.orders, o.id, o', PublicIdIs(publicId), 1);
  }

  /** A transition whose target is not among its source statuses (accept,
      prepared and delivered, by `TransitionLoops`) cannot be applied
      twice. */
  lemma ReapplyFails(db: Db, publicId: string, actor: Principal, t: Transition, now: Time, later: Time)
    requires Valid(db) && ChangeStatus(db, publicId, actor, t, now).0.Ok?
    requires t.to !in t.from
    ensures var d := ChangeStatus(db, publicId, actor, t, now).1;
            ChangeStatus(d, publicId, actor, t, later).0 == Err(InvalidTransition(t.to, t.to))
  {
    MayMoveAgain(db, publicId, actor, t, now);
    StatusRejected(ChangeStatus(db, publicId, actor, t, now).1, publicId, actor, t, later);
  }

  /** Which transitions lead back into their own source statuses: sent
      and paid do, accept, prepared and delivered do not. */
  lemma TransitionLoops()
    ensures AcceptTransition.to !in AcceptTransition.from
    ensures PreparedTransition.to !in PreparedTransition.from
    ensures DeliveredTransition.to !in DeliveredTransition.from
    ensures SentTransition.to in SentTransition.from
    ensures PaidTransition.to in PaidTransition.from
  {
  }

  /** After a successful transition the order has the target status and
      the actor still passes the owner check. */
  lemma MayMoveAgain(db: Db, publicId: string, actor: Principal, t: Transition, now: Time)
    requires Valid(db) && ChangeStatus(db, publicId, actor, t, now).0.Ok?
    ensures var d := ChangeStatus(db, publicId, actor, t, now).1;
            && Valid(d) && GetOrderById(d, publicId).Some?
            && var o2 := GetOrderById(d, publicId).value.order;
               && o2.status == t.to
               && (actor.role == RestaurantOwner ==>
                     GetBranchInfo(d, o2.branchId).Some? && GetBranchInfo(d, o2.branchId).value.ownerId == actor.userId)
  {
    ReadAfterTransition(db, publicId, actor, t, now);
    ChangeStatusPassed(db, publicId, actor, t, now);
  }

  /** A successful transition found the order and passed the owner check. */
  lemma ChangeStatusPassed(db: Db, publicId: string, actor: Principal, t: Transition, now: Time)
    requires Valid(db) && ChangeStatus(db, publicId, actor, t, now).0.Ok?
    ensures GetOrderById(db, publicId).Some?
    ensures var o := GetOrderById(db, publicId).value.order;
            actor.role == RestaurantOwner ==>
              GetBranchInfo(db, o.branchId).Some? && GetBranchInfo(db, o.branchId).value.ownerId == actor.userId
  {
  }

  /** An order the actor may move whose status is not a source of the
      transition is rejected with the status it has. */
  lemma StatusRejected(db: Db, publicId: string, actor: Principal, t: Transition, now: Time)
    requires Valid(db) && GetOrderById(db, publicId).Some?
    requires var o := GetOrderById(db, publicId).value.order;
             && (actor.role == RestaurantOwner ==>
                   GetBranchInfo(db, o.branchId).Some? && GetBranchInfo(db, o.branchId).value.ownerId == actor.userId)
             && o.status !in t.from
    ensures ChangeStatus(db, publicId, actor, t, now).0 == Err(InvalidTransition(GetOrderById(db, publicId).value.order.status, t.to))
  {
  }

  /** A transition whose target is one of its source statuses (sent,
      on_the_way to on_the_way, and paid, delivered to delivered) succeeds
      when applied again. */
  lemma ReapplySelfLoop(db: Db, publicId: string, actor: Principal, t: Transition, now: Time, later: Time)
    requires Valid(db) && ChangeStatus(db, publicId, actor, t, now).0.Ok?
    requires t.to in t.from
    ensures var d := ChangeStatus(db, publicId, actor, t, now).1;
            ChangeStatus(d, publicId, actor, t, later).0.Ok?
  {
    MayMoveAgain(db, publicId, actor, t, now);
    var d := ChangeStatus(db, publicId, actor, t, now).1;
    ChangeStatusChecks(d, publicId, actor, t, later);
  }

  method ChangeStatusIfAllowed(s: Store, publicId: string, actor: Principal, t: Transition, now: Time)
    returns (r: Result<Option<Order>>)
    requires Valid(s.db)
    modifies s
    ensures (r, s.db) == ChangeStatus(old(s.db), publicId, actor, t, now)
  {
    var data := GetOrderById(s.db, publicId);
    if data.None? {
      return Err(NotFoundError("Order not found"));
    }
    var o := data.value.order;
    if actor.role == RestaurantOwner {
      var info := GetBranchInfo(s.db, o.branchId);
      if info.None? {
        return Err(NotFoundError("Branch not found"));
      }
      if info.value.ownerId != actor.userId {
        return Err(ForbiddenError());
      }
    }
    if o.status !in t.from {
      return Err(InvalidTransition(o.status, t.to));
    }
    var updated := UpdateOrderTimestampsAndStatus(s, publicId, TransitionFields(t, now));
    r := Ok(updated);
  }

  method AcceptOrder(s: Store, publicId: string, actor: Principal, now: Time) returns (r: Result<Option<Order>>)
    requires Valid(s.db)
    modifies s
    ensures (r, s.db) == ChangeStatus(old(s.db), publicId, actor, AcceptTransition, now)
  {
    r := ChangeStatusIfAllowed(s, publicId, actor, AcceptTransition, now);
  }

  method MarkPrepared(s: Store, publicId: string, actor: Principal, now: Time) returns (r: Result<Option<Order>>)
    requires Valid(s.db)
    modifies s
    ensures (r, s.db) == ChangeStatus(old(s.db), publicId, actor, PreparedTransition, now)
  {
    r := ChangeStatusIfAllowed(s, publicId, actor, PreparedTransition, now);
  }

  method MarkSent(s: Store, publicId: string, actor: Principal, now: Time) returns (r: Result<Option<Order>>)
    requires Valid(s.db)
    modifies s
    ensures (r, s.db) == ChangeStatus(old(s.db), publicId, actor, SentTransition, now)
  {
    r := ChangeStatusIfAllowed(s, publicId, actor, SentTransition, now);
  }

  method MarkDelivered(s: Store, publicId: string, actor: Principal, now: Time) returns (r: Result<Option<Order>>)
    requires Valid(s.db)
    modifies s
    ensures (r, s.db) == ChangeStatus(old(s.db), publicId, actor, DeliveredTransition, now)
  {
    r := ChangeStatusIfAllowed(s, publicId, actor, DeliveredTransition, now);
  }

  /** PATCH /orders/:id/paid: the paid transition, then a second update of
      `paid` and `paid_at`, then the order read back with its items. */
  function MarkPaidOutcome(db: Db, publicId: string, actor: Principal, now: Time): (r: (Result<Option<OrderWithItems>>, Db))
    requires Valid(db)
    ensures r.0.Err? ==> r.1 == db
    ensures Valid(r.1)
  {
    var (first, d1) := ChangeStatus(db, publicId, actor, PaidTransition, now);
    if first.Err? then (Err(first.error), d1)
    else
      var (_, d2) := UpdateEffect(d1, publicId, [PaidField(true), StampField(PaidAt, now)]);
      (Ok(GetOrderById(d2, publicId)), d2)
  }

  /** A successful paid action is the paid transition followed by the
      update of `paid` and `paid_at`. */
  lemma MarkPaidUnfold(db: Db, publicId: string, actor: Principal, now: Time)
    requires Valid(db) && MarkPaidOutcome(db, publicId, actor, now).0.Ok?
    ensures ChangeStatus(db, publicId, actor, PaidTransition, now).0.Ok?
    ensures var d1 := ChangeStatus(db, publicId, actor, PaidTransition, now).1;
            var d2 := UpdateEffect(d1, publicId, [PaidField(true), StampField(PaidAt, now)]).1;
            MarkPaidOutcome(db, publicId, actor, now) == (Ok(GetOrderById(d2, publicId)), d2)
  {
  }

  /** The second update of the paid action marks the order paid at `now`
      and keeps its status; the order still reads back by its public id. */
  lemma PaidUpdate(d1: Db, publicId: string, now: Time)
    requires Valid(d1) && GetOrderById(d1, publicId).Some?
    ensures var o1 := GetOrderById(d1, publicId).value.order;
            var d2 := UpdateEffect(d1, publicId, [PaidField(true), StampField(PaidAt, now)]).1;
            && GetOrderById(d2, publicId).Some?
            && GetOrderById(d2, publicId).value.order.paid
            && GetOrderById(d2, publicId).value.order.status == o1.status
            && Stamp(GetOrderById(d2, publicId).value.order.stamps, PaidAt) == Some(now)
  {
    var o1 := GetOrderById(d1, publicId).value.order;
    var fields := [PaidField(true), StampField(PaidAt, now)];
    PaidApplied(o1, now);
    var o2 := ApplyFields(o1, fields);
    FindFromPut(d1.orders, o1.id, o2, PublicIdIs(publicId), 1);
  }

  /** The paid fields set `paid` and `paid_at` and keep the status. */
  lemma PaidApplied(o: Order, now: Time)
    ensures var o' := ApplyFields(o, [PaidField(true), StampField(PaidAt, now)]);
            o'.paid && o'.status == o.status && Stamp(o'.stamps, PaidAt) == Some(now)
  {
    var fields := [PaidField(true), StampField(PaidAt, now)];
    assert DistinctColumns(fields);
    ApplyFieldsPaid(o, fields);
    ApplyFieldsStatus(o, fields);
    ApplyFieldsStamps(o, fields, PaidAt);
  }

  /** A successful paid action leaves the order delivered, paid, with
      `paid_at` set, and returns it. */
  lemma MarkPaidOk(db: Db, publicId: string, actor: Principal, now: Time)
    requires Valid(db) && MarkPaidOutcome(db, publicId, actor, now).0.Ok?
    ensures GetOrderById(db, publicId).Some? && GetOrderById(db, publicId).value.order.status == Delivered
    ensures var r := MarkPaidOutcome(db, publicId, actor, now).0.value;
            && r.Some? && r.value.order.status == Delivered && r.value.order.paid
            && Stamp(r.value.order.stamps, PaidAt) == Some(now)
            && r.value.order.publicId == publicId
  {
    MarkPaidUnfold(db, publicId, actor, now);
    ChangeStatusOk(db, publicId, actor, PaidTransition, now);
    ReadAfterTransition(db, publicId, actor, PaidTransition, now);
    PaidUpdate(ChangeStatus(db, publicId, actor, PaidTransition, now).1, publicId, now);
  }

  method MarkPaid(s: Store, publicId: string, actor: Principal, now: Time) returns (r: Result<Option<OrderWithItems>>)
    requires Valid(s.db)
    modifies s
    ensures (r, s.db) == MarkPaidOutcome(old(s.db), publicId, actor, now)
  {
    var first := ChangeStatusIfAllowed(s, publicId, actor, PaidTransition, now);
    if first.Err? {
      return Err(first.error);
    }
    var _ := UpdateOrderTimestampsAndStatus(s, publicId, [PaidField(true), StampField(PaidAt, now)]);
    return Ok(GetOrderById(s.db, publicId));
  }

  // ----------------------------------------------------------------- cancel

  function CancelFields(now: Time): seq<OrderField> {
    [StatusField(Cancelled), StampField(CancelledAt, now)]
  }

  /** PATCH /orders/:id/cancel: a customer may cancel a pending order (of
      any customer); a restaurant owner a pending or preparing order of a
      branch they own; an admin any order; every other role is Forbidden. */
  function CancelOutcome(db: Db, publicId: string, actor: Principal, now: Time): (r: (Result<Option<Order>>, Db))
    requires Valid(db)
    ensures r.0.Err? ==> r.1 == db
    ensures Valid(r.1)
  {
    match GetOrderById(db, publicId)
    case None => (Err(NotFoundError("Order not found")), db)
    case Some(data) =>
      match CancelRefusal(db, data.order, actor)
      case Some(e) => (Err(e), db)
      case None =>
        var (updated, d) := UpdateEffect(db, publicId, CancelFields(now));
        (Ok(updated), d)
  }

  /** The role checks of a cancel, in their order: the error it is refused
      with, or None when it may go ahead. */
  function CancelRefusal(db: Db, o: Order, actor: Principal): Option<Thrown> {
    match actor.role
    case Customer =>
      if o.status != Pending then Some(AppError("Customer can cancel only pending orders", 400, State)) else None
    case RestaurantOwner =>
      (match GetBranchInfo(db, o.branchId)
       case None => Some(NotFoundError("Branch not found"))
       case Some(info) =>
         if info.ownerId != actor.userId then Some(ForbiddenError())
         else if o.status !in [Preparing, Pending] then
           Some(AppError("Branch can cancel only pending or preparing orders", 400, State))
         else None)
    case Admin => None
    case OtherRole => Some(ForbiddenError())
  }

  /** When a cancel succeeds, exactly per role. */
  lemma CancelAllowed(db: Db, publicId: string, actor: Principal, now: Time)
    requires Valid(db)
    ensures GetOrderById(db, publicId).None? ==> CancelOutcome(db, publicId, actor, now).0 == Err(NotFoundError("Order not found"))
    ensures GetOrderById(db, publicId).Some? ==>
              var o := GetOrderById(db, publicId).value.order;
              var info := GetBranchInfo(db, o.branchId);
              CancelOutcome(db, publicId, actor, now).0.Ok? <==>
                match actor.role
                case Customer => o.status == Pending
                case RestaurantOwner => info.Some? && info.value.ownerId == actor.userId && o.status in {Pending, Preparing}
                case Admin => true
                case OtherRole => false
  {
    if GetOrderById(db, publicId).Some? {
      var o := GetOrderById(db, publicId).value.order;
      assert CancelOutcome(db, publicId, actor, now).0.Ok? <==> CancelRefusal(db, o, actor).None?;
      RefusalByRole(db, o, actor);
    }
  }

  lemma RefusalByRole(db: Db, o: Order, actor: Principal)
    ensures var info := GetBranchInfo(db, o.branchId);
            CancelRefusal(db, o, actor).None? <==>
              match actor.role
              case Customer => o.status == Pending
              case RestaurantOwner => info.Some? && info.value.ownerId == actor.userId && o.status in {Pending, Preparing}
              case Admin => true
              case OtherRole => false
  {
  }

  /** A successful cancel is the update of the status and `cancelled_at`. */
  lemma CancelUnfold(db: Db, publicId: string, actor: Principal, now: Time)
    requires Valid(db) && CancelOutcome(db, publicId, actor, now).0.Ok?
    ensures GetOrderById(db, publicId).Some?
    ensures var u := UpdateEffect(db, publicId, CancelFields(now));
            CancelOutcome(db, publicId, actor, now) == (Ok(u.0), u.1)
  {
  }

  /** A successful cancel sets `cancelled` and `cancelled_at`, and nothing
      else of the order. */
  lemma CancelOk(db: Db, publicId: string, actor: Principal, now: Time)
    requires Valid(db) && CancelOutcome(db, publicId, actor, now).0.Ok?
    ensures GetOrderById(db, publicId).Some?
    ensures var o := GetOrderById(db, publicId).value.order;
            var (r, d) := CancelOutcome(db, publicId, actor, now);
            && r.value.Some?
            && r.value.value.status == Cancelled && Stamp(r.value.value.stamps, CancelledAt) == Some(now)
            && (forall c :: c != CancelledAt ==> Stamp(r.value.value.stamps, c) == Stamp(o.stamps, c))
            && r.value.value.paid == o.paid && r.value.value.customerId == o.customerId && r.value.value.total == o.total
            && d.orders == db.orders.Put(o.id, r.value.value)
  {
    CancelUnfold(db, publicId, actor, now);
    var cancel := Transition([], Cancelled, CancelledAt);
    assert CancelFields(now) == TransitionFields(cancel, now);
    TransitionApplied(GetOrderById(db, publicId).value.order, cancel, now);
  }

  method CancelOrder(s: Store, publicId: string, actor: Principal, now: Time) returns (r: Result<Option<Order>>)
    requires Valid(s.db)
    modifies s
    ensures (r, s.db) == CancelOutcome(old(s.db), publicId, actor, now)
  {
    var data := GetOrderById(s.db, publicId);
    if data.None? {
      return Err(NotFoundError("Order not found"));
    }
    var o := data.value.order;
    if actor.role == Customer {
      if o.status != Pending {
        return Err(AppError("Customer can cancel only pending orders", 400, State));
      }
      var updated := UpdateOrderTimestampsAndStatus(s, publicId, CancelFields(now));
      return Ok(updated);
    }
    if actor.role == RestaurantOwner {
      var info := GetBranchInfo(s.db, o.branchId);
      if info.None? {
        return Err(NotFoundError("Branch not found"));
      }
      if info.value.ownerId != actor.userId {
        return Err(ForbiddenError());
      }
      if o.status !in [Preparing, Pending] {
        return Err(AppError("Branch can cancel only pending or preparing orders", 400, State));
      }
      var updated := UpdateOrderTimestampsAndStatus(s, publicId, CancelFields(now));
      return Ok(updated);
    }
    if actor.role == Admin {
      var updated := UpdateOrderTimestampsAndStatus(s, publicId, CancelFields(now));
      return Ok(updated);
    }
    return Err(ForbiddenError());
  }
}
