/** The transactional write both creation paths perform after pricing:
    the order row, its line items and, for the worker, the idempotency
    entry, all inside one transaction. Any failing statement aborts the
    transaction and the store keeps the state it had at BEGIN. */
module OrderWrite {
  import opened Common
  import opened Tables
  import opened Entities
  import opened OrderSchema
  import opened OrderRepository
  import opened OrderPricing

  /** A statement of the transaction that the store can reject for reasons
      outside the model (a lost connection, a server shutdown). */
  datatype WriteStep = InsertOrderStep | InsertItemsStep | SaveLedgerStep | CommitStep

  function StoreFailure(): Thrown {
    StoreError("XX000", "the store rejected the statement")
  }

  /** `{ order, items }` as the handler and the worker return it. */
  datatype Created = Created(order: Order, items: seq<OrderItem>)

  /** The order row to insert: status `preparing` (creation accepts
      automatically) and ready at `now` plus the priced interval. */
  function NewOrderFor(publicId: string, customerId: int, req: CreateOrderRequest, p: Pricing, now: Time): (n: NewOrder)
    ensures n.status == Preparing && n.publicId == publicId && n.customerId == customerId
    ensures n.branchId == req.branchId && n.deliveryAddress == req.deliveryAddress && n.total == p.total
    ensures n.estimatedReadyAt == now + p.readyMinutes * MinuteMs
  {
    NewOrder(publicId, customerId, req.branchId, req.deliveryAddress, now + p.readyMinutes * MinuteMs, p.total, Preparing)
  }

  /** The response kept with an idempotency key: the order without its
      serial id, and the created items. */
  function LedgerResponse(c: Created): IdempotencyResponse {
    IdempotencyResponse(WithoutSerialId(c.order), c.items)
  }

  /** The statements of the transaction run in order against `db`; the
      first one that fails decides the error. An empty `ledgerKey` skips
      the idempotency entry. */
  function WriteOrder(db: Db, n: NewOrder, lines: seq<PricedLine>, ledgerKey: string, now: Time,
                      fault: Option<WriteStep>): (r: Result<(Created, Db)>)
    requires Valid(db)
    ensures r.Ok? ==> Valid(r.value.1)
  {
    if fault == Some(InsertOrderStep) then Err(StoreFailure())
    else match InsertOrder(db, n, now)
      case Err(e) => Err(e)
      case Ok((order, d1)) =>
        if fault == Some(InsertItemsStep) then Err(StoreFailure())
        else match InsertOrderItems(d1, order.id, lines)
          case Err(e) => Err(e)
          case Ok((items, d2)) =>
            var c := Created(order, items);
            if ledgerKey != "" && fault == Some(SaveLedgerStep) then Err(StoreFailure())
            else
              var d3 := Upsert(d2, IdempotencyRecord(ledgerKey, None, order.id, LedgerResponse(c)));
              UpsertValid(d2, IdempotencyRecord(ledgerKey, None, order.id, LedgerResponse(c)));
              if fault == Some(CommitStep) then Err(StoreFailure()) else Ok((c, d3))
  }

  /** A successful write is the three statements applied in order. */
  lemma WriteOrderSteps(db: Db, n: NewOrder, lines: seq<PricedLine>, ledgerKey: string, now: Time,
                        fault: Option<WriteStep>)
    requires Valid(db) && WriteOrder(db, n, lines, ledgerKey, now, fault).Ok?
    ensures InsertOrder(db, n, now).Ok?
    ensures var (order, d1) := InsertOrder(db, n, now).value;
            && InsertOrderItems(d1, order.id, lines).Ok?
            && var (items, d2) := InsertOrderItems(d1, order.id, lines).value;
               WriteOrder(db, n, lines, ledgerKey, now, fault).value
               == (Created(order, items), Upsert(d2, IdempotencyRecord(ledgerKey, None, order.id, LedgerResponse(Created(order, items)))))
  {
    var io := InsertOrder(db, n, now);
    assert fault != Some(InsertOrderStep) && io.Ok?;
    var ii := InsertOrderItems(io.value.1, io.value.0.id, lines);
    assert fault != Some(InsertItemsStep) && ii.Ok?;
    var c := Created(io.value.0, ii.value.0);
    assert WriteOrder(db, n, lines, ledgerKey, now, fault)
           == Ok((c, Upsert(ii.value.1, IdempotencyRecord(ledgerKey, None, io.value.0.id, LedgerResponse(c)))));
  }

  /** A successful write adds exactly the new order under the next serial
      key, one item per line linked to it with the line's price snapshot,
      and the idempotency entry when a key is given, and leaves every other
      table as it was. */
  lemma WriteOrderOk(db: Db, n: NewOrder, lines: seq<PricedLine>, ledgerKey: string, now: Time,
                     fault: Option<WriteStep>)
    requires Valid(db) && WriteOrder(db, n, lines, ledgerKey, now, fault).Ok?
    ensures var (c, d) := WriteOrder(db, n, lines, ledgerKey, now, fault).value;
            && c.order == OrderRow(db.orders.next, n, now)
            && d.orders == db.orders.Insert(c.order)
            && |c.items| == |lines|
            && (forall i :: 0 <= i < |lines| ==>
                  c.items[i].orderId == c.order.id && c.items[i].menuItemId == lines[i].menuItemId
                  && c.items[i].quantity == lines[i].quantity && c.items[i].unitPrice == lines[i].unitPrice)
            && d.users == db.users && d.restaurants == db.restaurants && d.branches == db.branches
            && d.menus == db.menus && d.menuItems == db.menuItems
            && (ledgerKey == "" ==> d.idempotency == db.idempotency)
            && (ledgerKey != "" ==> d.idempotency == db.idempotency[ledgerKey := IdempotencyRecord(ledgerKey, None, c.order.id, LedgerResponse(c))])
  {
    WriteOrderSteps(db, n, lines, ledgerKey, now, fault);
  }

  /** The order a successful write creates is the row for the next key. */
  lemma WriteOrderRow(db: Db, n: NewOrder, lines: seq<PricedLine>, ledgerKey: string, now: Time,
                      fault: Option<WriteStep>)
    requires Valid(db) && WriteOrder(db, n, lines, ledgerKey, now, fault).Ok?
    ensures WriteOrder(db, n, lines, ledgerKey, now, fault).value.0.order == OrderRow(db.orders.next, n, now)
  {
    WriteOrderSteps(db, n, lines, ledgerKey, now, fault);
  }

  /** After a successful write the order reads back by its public id with
      exactly the created items. */
  lemma WriteOrderReadBack(db: Db, n: NewOrder, lines: seq<PricedLine>, ledgerKey: string, now: Time,
                           fault: Option<WriteStep>)
    requires Valid(db) && WriteOrder(db, n, lines, ledgerKey, now, fault).Ok?
    ensures var (c, d) := WriteOrder(db, n, lines, ledgerKey, now, fault).value;
            GetOrderById(d, n.publicId) == Some(OrderWithItems(c.order, c.items))
  {
    WriteOrderSteps(db, n, lines, ledgerKey, now, fault);
    var (order, d1) := InsertOrder(db, n, now).value;
    var (items, d2) := InsertOrderItems(d1, order.id, lines).value;
    var d := WriteOrder(db, n, lines, ledgerKey, now, fault).value.1;
    assert d.orders == d1.orders && d.orderItems == d2.orderItems;
    ItemsOfNewOrder(d1, order.id, lines);
    assert d.orders.rows[order.id] == order;
    var k := Find(d.orders, PublicIdIs(n.publicId));
    assert k.Some? && k.value == order.id;
  }

  /** The items of an order that had none are exactly the ones inserted for it. */
  lemma ItemsOfNewOrder(d1: Db, orderId: int, lines: seq<PricedLine>)
    requires Valid(d1) && orderId in d1.orders.rows && InsertOrderItems(d1, orderId, lines).Ok?
    requires forall k :: k in d1.orderItems.rows ==> d1.orderItems.rows[k].orderId != orderId
    ensures Select(InsertOrderItems(d1, orderId, lines).value.1.orderItems, OrderIdIs(orderId))
            == InsertOrderItems(d1, orderId, lines).value.0
  {
    SelectFromNone(d1.orderItems, OrderIdIs(orderId), 1);
    if lines != [] {
      SelectInsertItems(d1.orderItems, orderId, lines, OrderIdIs(orderId));
    }
  }

  /** A failed write reports a store error: the public id was taken, the
      order reference was missing, or a statement was rejected. */
  lemma WriteOrderFails(db: Db, n: NewOrder, lines: seq<PricedLine>, ledgerKey: string, now: Time,
                        fault: Option<WriteStep>)
    requires Valid(db)
    ensures (exists k :: k in db.orders.rows && db.orders.rows[k].publicId == n.publicId) ==>
              WriteOrder(db, n, lines, ledgerKey, now, fault).Err?
    ensures fault == Some(CommitStep) ==> WriteOrder(db, n, lines, ledgerKey, now, fault).Err?
    ensures WriteOrder(db, n, lines, ledgerKey, now, fault).Err? ==>
              WriteOrder(db, n, lines, ledgerKey, now, fault).error.code != ""
  {
    if exists k :: k in db.orders.rows && db.orders.rows[k].publicId == n.publicId {
      DuplicateFails(db, n, lines, ledgerKey, now, fault);
    }
    if fault == Some(CommitStep) {
      CommitFaultFails(db, n, lines, ledgerKey, now, fault);
    }
    if WriteOrder(db, n, lines, ledgerKey, now, fault).Err? {
      FailureCodes(db, n, lines, ledgerKey, now, fault);
    }
  }

  lemma DuplicateFails(db: Db, n: NewOrder, lines: seq<PricedLine>, ledgerKey: string, now: Time,
                       fault: Option<WriteStep>)
    requires Valid(db) && exists k :: k in db.orders.rows && db.orders.rows[k].publicId == n.publicId
    ensures WriteOrder(db, n, lines, ledgerKey, now, fault).Err?
  {
    assert InsertOrder(db, n, now).Err?;
  }

  lemma CommitFaultFails(db: Db, n: NewOrder, lines: seq<PricedLine>, ledgerKey: string, now: Time,
                         fault: Option<WriteStep>)
    requires Valid(db) && fault == Some(CommitStep)
    ensures WriteOrder(db, n, lines, ledgerKey, now, fault).Err?
  {
  }

  lemma FailureCodes(db: Db, n: NewOrder, lines: seq<PricedLine>, ledgerKey: string, now: Time,
                     fault: Option<WriteStep>)
    requires Valid(db) && WriteOrder(db, n, lines, ledgerKey, now, fault).Err?
    ensures WriteOrder(db, n, lines, ledgerKey, now, fault).error.code != ""
  {
  }

  /** The write as the transaction runs it: BEGIN takes a snapshot, each
      statement goes to the store, and ROLLBACK puts the snapshot back. */
  method RunWrite(s: Store, n: NewOrder, lines: seq<PricedLine>, ledgerKey: string, now: Time,
                  fault: Option<WriteStep>) returns (r: Result<Created>)
    requires Valid(s.db)
    modifies s
    ensures WriteOrder(old(s.db), n, lines, ledgerKey, now, fault).Err? ==>
              r == Err(WriteOrder(old(s.db), n, lines, ledgerKey, now, fault).error) && s.db == old(s.db)
    ensures WriteOrder(old(s.db), n, lines, ledgerKey, now, fault).Ok? ==>
              r == Ok(WriteOrder(old(s.db), n, lines, ledgerKey, now, fault).value.0)
              && s.db == WriteOrder(old(s.db), n, lines, ledgerKey, now, fault).value.1
  {
    var snapshot := s.db;
    if fault == Some(InsertOrderStep) {
      return Err(StoreFailure());
    }
    var order := CreateOrder(s, n, now);
    if order.Err? {
      s.db := snapshot;
      return Err(order.error);
    }
    if fault == Some(InsertItemsStep) {
      s.db := snapshot;
      return Err(StoreFailure());
    }
    var items := CreateOrderItems(s, order.value.id, lines);
    if items.Err? {
      // The order that was just inserted exists, so its items cannot
      // violate the order reference.
      assert false;
    }
    var c := Created(order.value, items.value);
    if ledgerKey != "" {
      if fault == Some(SaveLedgerStep) {
        s.db := snapshot;
        return Err(StoreFailure());
      }
      SaveIdempotency(s, ledgerKey, None, order.value.id, LedgerResponse(c));
    }
    if fault == Some(CommitStep) {
      s.db := snapshot;
      return Err(StoreFailure());
    }
    return Ok(c);
  }

  // ------------------------------------------------------- pricing + write

  /** Both creation paths after the body is parsed: price the request
      against the catalogue, then run the write for `customerId`. Nothing
      changes unless every step succeeds. */
  function PlaceOrder(db: Db, customerId: int, req: CreateOrderRequest, ledgerKey: string, now: Time,
                      publicId: string, fault: Option<WriteStep>): (r: (Result<Created>, Db))
    requires Valid(db)
    ensures r.0.Err? ==> r.1 == db
    ensures Valid(r.1)
  {
    match PriceSpec(db, req)
    case Err(e) => (Err(e), db)
    case Ok(p) =>
      var w := WriteOrder(db, NewOrderFor(publicId, customerId, req, p, now), p.lines, ledgerKey, now, fault);
      if w.Err? then (Err(w.error), db) else (Ok(w.value.0), w.value.1)
  }

  /** A missing branch, a repeated or unresolved id, an unavailable item or
      a taken public id each fail without changing the store. */
  lemma PlaceOrderRejects(db: Db, customerId: int, req: CreateOrderRequest, ledgerKey: string, now: Time,
                          publicId: string, fault: Option<WriteStep>)
    requires Valid(db)
    ensures var (r, d) := PlaceOrder(db, customerId, req, ledgerKey, now, publicId, fault);
            && (GetBranchInfo(db, req.branchId).None? ==> r == Err(NotFoundError("Branch not found")) && d == db)
            && (!DistinctIds(req.items) ==> r.Err? && d == db)
            && ((exists i :: 0 <= i < |req.items| && req.items[i].menuItemId !in db.menuItems.rows) ==> r.Err? && d == db)
            && ((exists i :: 0 <= i < |req.items| && req.items[i].menuItemId in db.menuItems.rows
                   && !db.menuItems.rows[req.items[i].menuItemId].available) ==> r.Err? && d == db)
            && ((exists k :: k in db.orders.rows && db.orders.rows[k].publicId == publicId) ==> r.Err? && d == db)
  {
    PriceSucceeds(db, req);
    if PriceSpec(db, req).Ok? {
      var p := PriceSpec(db, req).value;
      WriteOrderFails(db, NewOrderFor(publicId, customerId, req, p, now), p.lines, ledgerKey, now, fault);
    }
  }

  /** A placed order belongs to `customerId`, is `preparing` with
      `accepted_at` set to now and no other timestamp, and is unpaid. */
  lemma PlaceOrderOk(db: Db, customerId: int, req: CreateOrderRequest, ledgerKey: string, now: Time,
                     publicId: string, fault: Option<WriteStep>)
    requires Valid(db) && PlaceOrder(db, customerId, req, ledgerKey, now, publicId, fault).0.Ok?
    ensures var o := PlaceOrder(db, customerId, req, ledgerKey, now, publicId, fault).0.value.order;
            && o.customerId == customerId && o.publicId == publicId && o.branchId == req.branchId
            && o.deliveryAddress == req.deliveryAddress
            && o.status == Preparing && o.createdAt == now && !o.paid
            && Stamp(o.stamps, AcceptedAt) == Some(now)
            && (forall c :: c != AcceptedAt ==> Stamp(o.stamps, c).None?)
  {
    var p := PriceSpec(db, req).value;
    var n := NewOrderFor(publicId, customerId, req, p, now);
    WriteOrderOk(db, n, p.lines, ledgerKey, now, fault);
  }

  /** A placed order totals the stored prices of its lines and is ready
      after the branch's waiting time plus two minutes per line. */
  lemma PlaceOrderPrice(db: Db, customerId: int, req: CreateOrderRequest, ledgerKey: string, now: Time,
                        publicId: string, fault: Option<WriteStep>)
    requires Valid(db) && PlaceOrder(db, customerId, req, ledgerKey, now, publicId, fault).0.Ok?
    ensures GetBranchInfo(db, req.branchId).Some?
    ensures forall i :: 0 <= i < |req.items| ==> req.items[i].menuItemId in db.menuItems.rows
    ensures var o := PlaceOrder(db, customerId, req, ledgerKey, now, publicId, fault).0.value.order;
            && o.total == StoredTotal(db, req.items)
            && o.estimatedReadyAt ==
                 now + (GetBranchInfo(db, req.branchId).value.avgWaitingTime.GetOr(0) + 2 * |req.items|) * MinuteMs
  {
    PriceSnapshot(db, req);
    var p := PriceSpec(db, req).value;
    var n := NewOrderFor(publicId, customerId, req, p, now);
    WriteOrderRow(db, n, p.lines, ledgerKey, now, fault);
  }

  /** A placed order has one item per requested line with the stored price
      of its menu item, and reads back by its public id with exactly those. */
  lemma PlaceOrderItems(db: Db, customerId: int, req: CreateOrderRequest, ledgerKey: string, now: Time,
                        publicId: string, fault: Option<WriteStep>)
    requires Valid(db) && PlaceOrder(db, customerId, req, ledgerKey, now, publicId, fault).0.Ok?
    ensures forall i :: 0 <= i < |req.items| ==> req.items[i].menuItemId in db.menuItems.rows
    ensures var (r, d) := PlaceOrder(db, customerId, req, ledgerKey, now, publicId, fault);
            && |r.value.items| == |req.items|
            && (forall i :: 0 <= i < |req.items| ==>
                  && r.value.items[i].orderId == r.value.order.id
                  && r.value.items[i].menuItemId == req.items[i].menuItemId
                  && r.value.items[i].quantity == req.items[i].quantity
                  && r.value.items[i].unitPrice == db.menuItems.rows[req.items[i].menuItemId].price)
            && GetOrderById(d, publicId) == Some(OrderWithItems(r.value.order, r.value.items))
  {
    PriceSnapshot(db, req);
    var p := PriceSpec(db, req).value;
    var n := NewOrderFor(publicId, customerId, req, p, now);
    WriteOrderOk(db, n, p.lines, ledgerKey, now, fault);
    WriteOrderReadBack(db, n, p.lines, ledgerKey, now, fault);
  }

  /** A placed order changes only the orders, the order items and, under a
      non-empty key, the idempotency entry for that key, which points at the
      new order and keeps it without its serial id. */
  lemma PlaceOrderFootprint(db: Db, customerId: int, req: CreateOrderRequest, ledgerKey: string, now: Time,
                            publicId: string, fault: Option<WriteStep>)
    requires Valid(db) && PlaceOrder(db, customerId, req, ledgerKey, now, publicId, fault).0.Ok?
    ensures var (r, d) := PlaceOrder(db, customerId, req, ledgerKey, now, publicId, fault);
            && d.users == db.users && d.restaurants == db.restaurants && d.branches == db.branches
            && d.menus == db.menus && d.menuItems == db.menuItems
            && d.orders == db.orders.Insert(r.value.order)
            && (ledgerKey == "" ==> d.idempotency == db.idempotency)
            && (ledgerKey != "" ==>
                  d.idempotency == db.idempotency[ledgerKey := IdempotencyRecord(ledgerKey, None, r.value.order.id, LedgerResponse(r.value))])
  {
    var p := PriceSpec(db, req).value;
    WriteOrderOk(db, NewOrderFor(publicId, customerId, req, p, now), p.lines, ledgerKey, now, fault);
  }

  /** Pricing on the store, then the transaction. */
  method PlaceOrderTx(s: Store, customerId: int, req: CreateOrderRequest, ledgerKey: string, now: Time,
                      publicId: string, fault: Option<WriteStep>) returns (r: Result<Created>)
    requires Valid(s.db)
    modifies s
    ensures (r, s.db) == PlaceOrder(old(s.db), customerId, req, ledgerKey, now, publicId, fault)
  {
    var priced := ValidateAndPrice(s, req);
    if priced.Err? {
      return Err(priced.error);
    }
    var p := priced.value;
    r := RunWrite(s, NewOrderFor(publicId, customerId, req, p, now), p.lines, ledgerKey, now, fault);
  }
}
