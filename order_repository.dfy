/** The order repository: idempotency ledger, the branch-owner join, menu
    item lookup, order and order-item inserts, the order read, the filtered
    listing and the status/timestamp update. */
module OrderRepository {
  import opened Common
  import opened Tables
  import opened Entities
  import opened Sql

  const UniqueViolation := "23505"
  const ForeignKeyViolation := "23503"

  // ---------------------------------------------------------------- ledger

  /** The columns `getIdempotency` selects: key, response and order_id. */
  datatype SavedResponse = SavedResponse(key: string, response: IdempotencyResponse, orderId: int)

  /** `getIdempotency(key)`: nothing for an empty key, otherwise the stored
      entry under that key, if any. */
  function GetIdempotency(db: Db, key: string): (r: Option<SavedResponse>)
    ensures key == "" ==> r.None?
    ensures key != "" ==> (r.Some? <==> key in db.idempotency)
    ensures r.Some? ==> && r.value.response == db.idempotency[key].response
                        && r.value.orderId == db.idempotency[key].orderId
  {
    if key == "" || key !in db.idempotency then None
    else
      var rec := db.idempotency[key];
      Some(SavedResponse(rec.key, rec.response, rec.orderId))
  }

  /** The store after `saveIdempotency`: an empty key writes nothing, any
      other key is inserted or has all its columns overwritten. */
  function Upsert(db: Db, rec: IdempotencyRecord): (d: Db)
    ensures rec.key == "" ==> d == db
    ensures rec.key != "" ==> d.idempotency == db.idempotency[rec.key := rec]
    ensures d.(idempotency := db.idempotency) == db
  {
    if rec.key == "" then db else db.(idempotency := db.idempotency[rec.key := rec])
  }

  method SaveIdempotency(s: Store, key: string, requestHash: Option<string>, orderId: int,
                         response: IdempotencyResponse)
    modifies s
    ensures s.db == Upsert(old(s.db), IdempotencyRecord(key, requestHash, orderId, response))
  {
    if key == "" {
      return;
    }
    s.db := s.db.(idempotency := s.db.idempotency[key := IdempotencyRecord(key, requestHash, orderId, response)]);
  }

  /** A read after a save returns what was saved, and other keys keep
      their entries. */
  lemma SaveThenGet(db: Db, rec: IdempotencyRecord, other: string)
    requires rec.key != ""
    ensures GetIdempotency(Upsert(db, rec), rec.key) == Some(SavedResponse(rec.key, rec.response, rec.orderId))
    ensures other != rec.key ==> GetIdempotency(Upsert(db, rec), other) == GetIdempotency(db, other)
  {
  }

  /** Two saves under one key: the second one wins entirely. */
  lemma LastWriterWins(db: Db, first: IdempotencyRecord, second: IdempotencyRecord)
    requires first.key == second.key
    ensures Upsert(Upsert(db, first), second) == Upsert(db, second)
  {
  }

  lemma UpsertValid(db: Db, rec: IdempotencyRecord)
    requires Valid(db)
    ensures Valid(Upsert(db, rec))
  {
  }

  // ---------------------------------------------------------- branch info

  /** The row `getBranchInfo` returns: the branch, the owner of its
      restaurant and its average waiting time. */
  datatype BranchInfo = BranchInfo(branchId: int, ownerId: int, avgWaitingTime: Option<int>)

  /** `getBranchInfo(branchId)`: the join branch -> restaurant -> user_id;
      nothing when the branch or its restaurant is absent. */
  function GetBranchInfo(db: Db, branchId: int): (r: Option<BranchInfo>)
    ensures r.Some? <==> branchId in db.branches.rows && db.branches.rows[branchId].restaurantId in db.restaurants.rows
    ensures r.Some? ==> && r.value.branchId == branchId
                        && r.value.ownerId == db.restaurants.rows[db.branches.rows[branchId].restaurantId].userId
                        && r.value.avgWaitingTime == db.branches.rows[branchId].avgWaitingTime
  {
    match db.branches.Get(branchId)
    case None => None
    case Some(b) =>
      match db.restaurants.Get(b.restaurantId)
      case None => None
      case Some(rest) => Some(BranchInfo(branchId, rest.userId, b.avgWaitingTime))
  }

  // ----------------------------------------------------------- menu items

  function IdIn(ids: seq<int>): MenuItem -> bool {
    (m: MenuItem) => m.id in ids
  }

  /** `getMenuItemsByIds(ids)`: `WHERE id = ANY(ids)`. */
  function GetMenuItemsByIds(db: Db, ids: seq<int>): seq<MenuItem> {
    Select(db.menuItems, IdIn(ids))
  }

  /** The lookup returns exactly the stored items whose id was asked for,
      each once (in increasing id order), so its length counts the distinct
      requested ids that exist. */
  lemma MenuItemsByIds(db: Db, ids: seq<int>)
    requires Valid(db)
    ensures forall m :: m in GetMenuItemsByIds(db, ids) <==>
              (exists k :: k in db.menuItems.rows && db.menuItems.rows[k] == m) && m.id in ids
    ensures forall i, j :: 0 <= i < j < |GetMenuItemsByIds(db, ids)| ==>
              GetMenuItemsByIds(db, ids)[i].id < GetMenuItemsByIds(db, ids)[j].id
    ensures |GetMenuItemsByIds(db, ids)| == |set k | k in db.menuItems.rows && k in ids|
  {
    var t, p := db.menuItems, IdIn(ids);
    forall m ensures m in Select(t, p) <==> (exists k :: k in t.rows && t.rows[k] == m) && m.id in ids {
      SelectMember(t, p, m);
    }
    SelectFromSorted(t, p, 1, (m: MenuItem) => m.id);
    SelectFromCount(t, p, 1);
    assert KeysFrom(t, p, 1) == set k | k in t.rows && k in ids;
  }

  // ----------------------------------------------------------------- orders

  /** What an order insert provides; every other column takes its
      default (`paid` false, no timestamps but `accepted_at`). */
  datatype NewOrder = NewOrder(publicId: string, customerId: int, branchId: int, deliveryAddress: string,
                               estimatedReadyAt: Time, total: int, status: OrderStatus)

  /** The row an insert at instant `now` creates under key `id`. */
  function OrderRow(id: int, n: NewOrder, now: Time): (o: Order)
    ensures o.id == id && o.publicId == n.publicId && o.customerId == n.customerId
    ensures o.branchId == n.branchId && o.deliveryAddress == n.deliveryAddress && o.total == n.total
    ensures o.status == n.status && !o.paid && o.createdAt == now && o.estimatedReadyAt == n.estimatedReadyAt
    ensures Stamp(o.stamps, AcceptedAt) == Some(now)
    ensures forall c :: c != AcceptedAt ==> Stamp(o.stamps, c).None?
  {
    Order(id, n.publicId, n.customerId, n.branchId, n.deliveryAddress, n.status, n.total, false,
          now, n.estimatedReadyAt, SetStamp(NoStamps, AcceptedAt, now))
  }

  function PublicIdIs(publicId: string): Order -> bool {
    (o: Order) => o.publicId == publicId
  }

  function OrderIdIs(orderId: int): OrderItem -> bool {
    (it: OrderItem) => it.orderId == orderId
  }

  /** The effect of `INSERT INTO orders ... RETURNING ...`: a public id
      already in use violates its unique constraint and writes nothing. */
  function InsertOrder(db: Db, n: NewOrder, now: Time): (r: Result<(Order, Db)>)
    requires Valid(db)
    ensures r.Err? <==> exists k :: k in db.orders.rows && db.orders.rows[k].publicId == n.publicId
    ensures r.Err? ==> r.error.code == UniqueViolation
    ensures r.Ok? ==> && r.value.0 == OrderRow(db.orders.next, n, now)
                      && r.value.1 == db.(orders := db.orders.Insert(r.value.0))
    ensures r.Ok? ==> Valid(r.value.1)
  {
    match Find(db.orders, PublicIdIs(n.publicId))
    case Some(_) => Err(StoreError(UniqueViolation, "duplicate key value violates unique constraint"))
    case None =>
      FindNone(db.orders, PublicIdIs(n.publicId));
      var o := OrderRow(db.orders.next, n, now);
      Ok((o, db.(orders := db.orders.Insert(o))))
  }

  /** `repo.createOrder`, with the instant of the statement as `now`. */
  method CreateOrder(s: Store, n: NewOrder, now: Time) returns (r: Result<Order>)
    requires Valid(s.db)
    modifies s
    ensures InsertOrder(old(s.db), n, now).Err? ==> r == Err(InsertOrder(old(s.db), n, now).error) && s.db == old(s.db)
    ensures InsertOrder(old(s.db), n, now).Ok? ==>
              r == Ok(InsertOrder(old(s.db), n, now).value.0) && s.db == InsertOrder(old(s.db), n, now).value.1
  {
    var e := InsertOrder(s.db, n, now);
    if e.Err? {
      return Err(e.error);
    }
    s.db := e.value.1;
    return Ok(e.value.0);
  }

  // ------------------------------------------------------------ order items

  /** A priced request line: the item, its quantity and the unit price
      snapshot taken from the store. */
  datatype PricedLine = PricedLine(menuItemId: int, quantity: int, unitPrice: int)

  /** The four values one line binds, in column order
      (menu_item_id, quantity, unit_price, order_id). */
  function LineValues(orderId: int, l: PricedLine): (v: seq<SqlValue>)
    ensures |v| == 4
  {
    [SInt(l.menuItemId), SInt(l.quantity), SInt(l.unitPrice), SInt(orderId)]
  }

  function LineRows(orderId: int, lines: seq<PricedLine>): (rows: seq<seq<SqlValue>>)
    ensures |rows| == |lines|
    ensures forall i :: 0 <= i < |lines| ==> rows[i] == LineValues(orderId, lines[i])
  {
    seq(|lines|, i requires 0 <= i < |lines| => LineValues(orderId, lines[i]))
  }

  /** The placeholders and parameters of the multi-row insert: line `i` is
      the tuple `$4i+1 .. $4i+4`, the parameter list holds four values per
      line, and the statement binds exactly the intended rows. */
  method BuildOrderItemsInsert(orderId: int, lines: seq<PricedLine>) returns (tuples: seq<seq<int>>, values: seq<SqlValue>)
    ensures |tuples| == |lines| && |values| == 4 * |lines|
    ensures forall i :: 0 <= i < |lines| ==> tuples[i] == TupleAt(i, 4)
    ensures values == Concat(LineRows(orderId, lines))
    ensures DecodeTuples(tuples, values) == Some(LineRows(orderId, lines))
  {
    tuples, values := [], [];
    var i := 0;
    while i < |lines|
      invariant 0 <= i <= |lines| && |tuples| == i
      invariant forall j :: 0 <= j < i ==> tuples[j] == TupleAt(j, 4)
      invariant values == Concat(LineRows(orderId, lines[..i]))
    {
      var base := i * 4;
      tuples := tuples + [[base + 1, base + 2, base + 3, base + 4]];
      ConcatSnoc(LineRows(orderId, lines[..i]), LineValues(orderId, lines[i]));
      assert LineRows(orderId, lines[..i + 1]) == LineRows(orderId, lines[..i]) + [LineValues(orderId, lines[i])];
      values := values + LineValues(orderId, lines[i]);
      i := i + 1;
    }
    assert lines[..i] == lines;
    ConcatLength(LineRows(orderId, lines), 4);
    DecodeNumberedTuples(LineRows(orderId, lines), 4, tuples, 0);
    assert LineRows(orderId, lines)[0..] == LineRows(orderId, lines);
  }

  /** The rows the insert creates, one per line, with consecutive keys. */
  function InsertItems(t: Table<OrderItem>, orderId: int, lines: seq<PricedLine>): (r: (seq<OrderItem>, Table<OrderItem>))
    requires t.Valid()
    ensures |r.0| == |lines| && Appended(t, r.0, r.1)
    ensures forall i :: 0 <= i < |lines| ==>
              r.0[i] == OrderItem(t.next + i, orderId, lines[i].menuItemId, lines[i].quantity, lines[i].unitPrice)
    decreases |lines|
  {
    if lines == [] then ([], t)
    else
      var it := OrderItem(t.next, orderId, lines[0].menuItemId, lines[0].quantity, lines[0].unitPrice);
      var rest := InsertItems(t.Insert(it), orderId, lines[1..]);
      InsertBlockCons(t, it, rest.0, rest.1);
      ([it] + rest.0, rest.1)
  }

  /** An item row's values in the insert's column order. */
  function ItemColumns(it: OrderItem): seq<SqlValue> {
    [SInt(it.menuItemId), SInt(it.quantity), SInt(it.unitPrice), SInt(it.orderId)]
  }

  /** The rows the statement binds are the rows the insert writes: row `i`
      of `LineRows` holds the columns of the `i`-th created item. */
  lemma ItemsBindLines(t: Table<OrderItem>, orderId: int, lines: seq<PricedLine>)
    requires t.Valid()
    ensures forall i :: 0 <= i < |lines| ==> LineRows(orderId, lines)[i] == ItemColumns(InsertItems(t, orderId, lines).0[i])
  {
  }

  /** The effect of `createOrderItems`: an empty list writes nothing; rows
      for an order that does not exist violate the order_id reference. */
  function InsertOrderItems(db: Db, orderId: int, lines: seq<PricedLine>): (r: Result<(seq<OrderItem>, Db)>)
    requires Valid(db)
    ensures lines == [] ==> r == Ok(([], db))
    ensures r.Err? <==> lines != [] && orderId !in db.orders.rows
    ensures r.Err? ==> r.error.code == ForeignKeyViolation
    ensures r.Ok? ==> Valid(r.value.1) && r.value.1.(orderItems := db.orderItems) == db
    ensures r.Ok? && lines != [] ==> r.value == (InsertItems(db.orderItems, orderId, lines).0,
                                                 db.(orderItems := InsertItems(db.orderItems, orderId, lines).1))
  {
    if lines == [] then Ok(([], db))
    else if orderId !in db.orders.rows then
      Err(StoreError(ForeignKeyViolation, "insert or update on table \"order_items\" violates foreign key constraint"))
    else
      var ins := InsertItems(db.orderItems, orderId, lines);
      var d := db.(orderItems := ins.1);
      ItemsOfOrderValid(db, orderId, ins.0, ins.1);
      Ok((ins.0, d))
  }

  /** Rows of an existing order appended to the order_items table, each
      under its own key, keep the store's invariant. */
  lemma ItemsOfOrderValid(db: Db, orderId: int, rows: seq<OrderItem>, t2: Table<OrderItem>)
    requires Valid(db) && orderId in db.orders.rows && Appended(db.orderItems, rows, t2)
    requires forall i :: 0 <= i < |rows| ==> rows[i].id == db.orderItems.next + i && rows[i].orderId == orderId
    ensures Valid(db.(orderItems := t2))
  {
    forall k | k in t2.rows ensures t2.rows[k].id == k && t2.rows[k].orderId in db.orders.rows {
      if k !in db.orderItems.rows {
        assert t2.rows[k] == rows[k - db.orderItems.next];
      }
    }
  }

  /** Inserted items that satisfy a query are appended to its result. */
  lemma {:induction false} SelectInsertItems(t: Table<OrderItem>, orderId: int, lines: seq<PricedLine>, p: OrderItem -> bool)
    requires t.Valid()
    requires forall i :: 0 <= i < |lines| ==> p(InsertItems(t, orderId, lines).0[i])
    ensures Select(InsertItems(t, orderId, lines).1, p) == Select(t, p) + InsertItems(t, orderId, lines).0
    decreases |lines|
  {
    if lines != [] {
      var it := OrderItem(t.next, orderId, lines[0].menuItemId, lines[0].quantity, lines[0].unitPrice);
      var t1 := t.Insert(it);
      var rest := InsertItems(t1, orderId, lines[1..]);
      var all := InsertItems(t, orderId, lines);
      assert all == ([it] + rest.0, rest.1);
      assert p(it) by {
        assert all.0[0] == it;
      }
      forall i | 0 <= i < |lines[1..]| ensures p(rest.0[i]) {
        assert rest.0[i] == all.0[i + 1];
      }
      SelectInsertItems(t1, orderId, lines[1..], p);
      SelectInsertCons(t, it, rest.0, rest.1, p);
    }
  }

  /** `createOrderItems(orderId, lines)`. */
  method CreateOrderItems(s: Store, orderId: int, lines: seq<PricedLine>) returns (r: Result<seq<OrderItem>>)
    requires Valid(s.db)
    modifies s
    ensures InsertOrderItems(old(s.db), orderId, lines).Err? ==>
              r == Err(InsertOrderItems(old(s.db), orderId, lines).error) && s.db == old(s.db)
    ensures InsertOrderItems(old(s.db), orderId, lines).Ok? ==>
              r == Ok(InsertOrderItems(old(s.db), orderId, lines).value.0)
              && s.db == InsertOrderItems(old(s.db), orderId, lines).value.1
  {
    if lines == [] {
      return Ok([]);
    }
    var tuples, values := BuildOrderItemsInsert(orderId, lines);
    ItemsBindLines(s.db.orderItems, orderId, lines);
    var e := InsertOrderItems(s.db, orderId, lines);
    if e.Err? {
      return Err(e.error);
    }
    s.db := e.value.1;
    return Ok(e.value.0);
  }

  // -------------------------------------------------------------- order read

  datatype OrderWithItems = OrderWithItems(order: Order, items: seq<OrderItem>)

  /** `getOrderById(publicId)`: the order with that public id together with
      its items, or nothing. */
  function GetOrderById(db: Db, publicId: string): (r: Option<OrderWithItems>)
    ensures r.None? <==> Find(db.orders, PublicIdIs(publicId)).None?
    ensures r.Some? ==> && Find(db.orders, PublicIdIs(publicId)).Some?
                        && r.value.order == db.orders.rows[Find(db.orders, PublicIdIs(publicId)).value]
                        && r.value.order.publicId == publicId
  {
    match Find(db.orders, PublicIdIs(publicId))
    case None => None
    case Some(k) =>
      var o := db.orders.rows[k];
      Some(OrderWithItems(o, Select(db.orderItems, OrderIdIs(o.id))))
  }

  /** The read finds an order exactly when one has that public id, and then
      returns precisely the items that reference it. */
  lemma GetOrderByIdSpec(db: Db, publicId: string)
    requires Valid(db)
    ensures GetOrderById(db, publicId).None? <==>
              forall k :: k in db.orders.rows ==> db.orders.rows[k].publicId != publicId
    ensures GetOrderById(db, publicId).Some? ==>
              && GetOrderById(db, publicId).value.order.publicId == publicId
              && forall it :: it in GetOrderById(db, publicId).value.items <==>
                   (exists k :: k in db.orderItems.rows && db.orderItems.rows[k] == it)
                   && it.orderId == GetOrderById(db, publicId).value.order.id
  {
    FindNone(db.orders, PublicIdIs(publicId));
    var r := GetOrderById(db, publicId);
    if r.Some? {
      forall it ensures it in r.value.items <==>
                          (exists k :: k in db.orderItems.rows && db.orderItems.rows[k] == it) && it.orderId == r.value.order.id {
        SelectMember(db.orderItems, OrderIdIs(r.value.order.id), it);
      }
    }
  }

  // ---------------------------------------------------------------- listing

  /** The filters `listOrders` receives; a filter counts only when truthy,
      i.e. present and not 0. */
  datatype OrderFilters = OrderFilters(customerId: Option<int>, branchId: Option<int>, limit: int, offset: int)

  predicate Truthy(v: Option<int>) {
    v.Some? && v.value != 0
  }

  /** The columns `listOrders` selects. */
  datatype OrderSummary = OrderSummary(id: int, customerId: int, branchId: int, status: OrderStatus,
                                       total: int, createdAt: Time)

  function Summary(o: Order): OrderSummary {
    OrderSummary(o.id, o.customerId, o.branchId, o.status, o.total, o.createdAt)
  }

  /** The (column, value) pairs of the WHERE clause, in the order they are added. */
  function FilterPairs(f: OrderFilters): (pairs: seq<(string, SqlValue)>)
    ensures |pairs| <= 2
  {
    (if Truthy(f.customerId) then [("customer_id", SInt(f.customerId.value))] else [])
    + (if Truthy(f.branchId) then [("branch_id", SInt(f.branchId.value))] else [])
  }

  /** The statement `listOrders` issues: its WHERE conditions, its
      parameters, and the placeholders of LIMIT and OFFSET. */
  datatype ListStatement = ListStatement(conditions: seq<Assignment>, params: seq<SqlValue>,
                                         limitParam: int, offsetParam: int)

  /** Conditions are numbered from $1 in the order customer, branch; LIMIT
      and OFFSET take the two placeholders after them and the parameter
      list is the condition values followed by limit and offset. */
  method BuildListOrders(f: OrderFilters) returns (st: ListStatement)
    ensures |st.conditions| == |FilterPairs(f)|
    ensures forall i :: 0 <= i < |st.conditions| ==> st.conditions[i] == Assignment(FilterPairs(f)[i].0, i + 1)
    ensures st.params == seq(|FilterPairs(f)|, i requires 0 <= i < |FilterPairs(f)| => FilterPairs(f)[i].1)
                         + [SInt(f.limit), SInt(f.offset)]
    ensures st.limitParam == |st.conditions| + 1 && st.offsetParam == |st.conditions| + 2
    ensures DecodeAssignments(st.conditions, st.params) == Some(FilterPairs(f))
    ensures Bound(st.params, st.limitParam) == Some(SInt(f.limit))
    ensures Bound(st.params, st.offsetParam) == Some(SInt(f.offset))
  {
    var conditions: seq<Assignment> := [];
    var vals: seq<SqlValue> := [];
    var idx := 1;
    if Truthy(f.customerId) {
      conditions := conditions + [Assignment("customer_id", idx)];
      idx := idx + 1;
      vals := vals + [SInt(f.customerId.value)];
    }
    if Truthy(f.branchId) {
      conditions := conditions + [Assignment("branch_id", idx)];
      idx := idx + 1;
      vals := vals + [SInt(f.branchId.value)];
    }
    var limitParam := idx;
    idx := idx + 1;
    var offsetParam := idx;
    st := ListStatement(conditions, vals + [SInt(f.limit), SInt(f.offset)], limitParam, offsetParam);
    var pairs := FilterPairs(f);
    assert vals == seq(|pairs|, i requires 0 <= i < |pairs| => pairs[i].1);
    DecodeNumberedAssignments(pairs, conditions, st.params, 0);
    assert pairs[0..] == pairs;
  }

  function Matches(f: OrderFilters): Order -> bool {
    (o: Order) => (!Truthy(f.customerId) || o.customerId == f.customerId.value)
               && (!Truthy(f.branchId) || o.branchId == f.branchId.value)
  }

  /** What the listing statement returns: the matching orders, newest
      first, after OFFSET and LIMIT; a negative OFFSET or LIMIT is rejected
      by the store. */
  function ListOrders(db: Db, f: OrderFilters): (r: Result<seq<OrderSummary>>)
    ensures r.Err? <==> f.offset < 0 || f.limit < 0
    ensures r.Ok? ==> |r.value| <= f.limit
  {
    if f.offset < 0 then Err(StoreError("2201X", "OFFSET must not be negative"))
    else if f.limit < 0 then Err(StoreError("2201W", "LIMIT must not be negative"))
    else
      var rows := Window(Reversed(Select(db.orders, Matches(f))), f.offset, f.limit);
      Ok(seq(|rows|, i requires 0 <= i < |rows| => Summary(rows[i])))
  }

  /** The i-th listed order is the (offset + i)-th matching order counted
      from the newest. */
  lemma ListOrdersAt(db: Db, f: OrderFilters, i: int)
    requires f.offset >= 0 && f.limit >= 0 && 0 <= i < |ListOrders(db, f).value|
    ensures var sel := Select(db.orders, Matches(f));
            0 <= |sel| - 1 - (f.offset + i) < |sel| && ListOrders(db, f).value[i] == Summary(sel[|sel| - 1 - (f.offset + i)])
  {
    var sel := Select(db.orders, Matches(f));
    var rows := Window(Reversed(sel), f.offset, f.limit);
    assert ListOrders(db, f).value[i] == Summary(rows[i]);
  }

  /** `x` summarises a stored order that matches the filters. */
  ghost predicate SummarisesMatch(db: Db, f: OrderFilters, x: OrderSummary) {
    exists k :: k in db.orders.rows && Summary(db.orders.rows[k]) == x && Matches(f)(db.orders.rows[k])
  }

  /** Every listed order is a stored order that matches the truthy filters. */
  lemma ListOrdersSound(db: Db, f: OrderFilters)
    requires f.offset >= 0 && f.limit >= 0
    ensures forall i :: 0 <= i < |ListOrders(db, f).value| ==> SummarisesMatch(db, f, ListOrders(db, f).value[i])
  {
    var sel := Select(db.orders, Matches(f));
    var out := ListOrders(db, f).value;
    forall i | 0 <= i < |out| ensures SummarisesMatch(db, f, out[i]) {
      ListOrdersAt(db, f, i);
      var o := sel[|sel| - 1 - (f.offset + i)];
      SelectFromMember(db.orders, Matches(f), 1, o);
    }
  }

  /** The list is newest first: strictly decreasing serial ids. */
  lemma ListOrdersNewestFirst(db: Db, f: OrderFilters)
    requires Valid(db) && f.offset >= 0 && f.limit >= 0
    ensures forall i, j :: 0 <= i < j < |ListOrders(db, f).value| ==>
              ListOrders(db, f).value[i].id > ListOrders(db, f).value[j].id
  {
    SelectFromSorted(db.orders, Matches(f), 1, (o: Order) => o.id);
    forall i, j | 0 <= i < j < |ListOrders(db, f).value|
      ensures ListOrders(db, f).value[i].id > ListOrders(db, f).value[j].id
    {
      ListOrdersAt(db, f, i);
      ListOrdersAt(db, f, j);
    }
  }

  /** When the window covers all of them, every matching order is listed. */
  lemma ListOrdersComplete(db: Db, f: OrderFilters)
    requires Valid(db) && f.offset == 0 && f.limit >= 0
    requires |Select(db.orders, Matches(f))| <= f.limit
    ensures forall k :: k in db.orders.rows && Matches(f)(db.orders.rows[k]) ==>
              Summary(db.orders.rows[k]) in ListOrders(db, f).value
  {
    var sel := Select(db.orders, Matches(f));
    var out := ListOrders(db, f).value;
    assert |out| == |sel|;
    forall k | k in db.orders.rows && Matches(f)(db.orders.rows[k]) ensures Summary(db.orders.rows[k]) in out {
      var o := db.orders.rows[k];
      SelectMember(db.orders, Matches(f), o);
      var i :| 0 <= i < |sel| && sel[i] == o;
      ListOrdersAt(db, f, |sel| - 1 - i);
    }
  }

  // ----------------------------------------------------------------- update

  /** One key of the `fields` object `updateOrderTimestampsAndStatus`
      receives. */
  datatype OrderField = StatusField(status: OrderStatus) | StampField(column: StampColumn, at: Time) | PaidField(paid: bool)

  function FieldColumn(f: OrderField): string {
    match f
    case StatusField(_) => "status"
    case StampField(c, _) => ColumnName(c)
    case PaidField(_) => "paid"
  }

  function FieldValue(f: OrderField): SqlValue {
    match f
    case StatusField(st) => SValue(st)
    case StampField(_, t) => STime(t)
    case PaidField(b) => SBool(b)
  }

  function SValue(st: OrderStatus): SqlValue {
    SStr(StatusName(st))
  }

  /** The keys of an object are distinct, and so are the column names of
      the stamp columns. */
  predicate DistinctColumns(fields: seq<OrderField>) {
    forall i, j :: 0 <= i < j < |fields| ==> FieldColumn(fields[i]) != FieldColumn(fields[j])
  }

  function ApplyField(o: Order, f: OrderField): Order {
    match f
    case StatusField(st) => o.(status := st)
    case StampField(c, t) => o.(stamps := SetStamp(o.stamps, c, t))
    case PaidField(b) => o.(paid := b)
  }

  /** The order after `SET k1 = v1, k2 = v2, ...`; the columns that are
      never listed keep their values. */
  function ApplyFields(o: Order, fields: seq<OrderField>): (r: Order)
    ensures r.id == o.id && r.publicId == o.publicId && r.customerId == o.customerId && r.branchId == o.branchId
    ensures r.deliveryAddress == o.deliveryAddress && r.total == o.total
    ensures r.createdAt == o.createdAt && r.estimatedReadyAt == o.estimatedReadyAt
    decreases |fields|
  {
    if fields == [] then o else ApplyFields(ApplyField(o, fields[0]), fields[1..])
  }

  lemma ColumnNameInjective(c: StampColumn, d: StampColumn)
    requires ColumnName(c) == ColumnName(d)
    ensures c == d
  {
  }

  /** With distinct keys, the status is the listed one, or unchanged when
      the status is not listed. */
  lemma {:induction false} ApplyFieldsStatus(o: Order, fields: seq<OrderField>)
    requires DistinctColumns(fields)
    ensures forall i :: 0 <= i < |fields| && fields[i].StatusField? ==> ApplyFields(o, fields).status == fields[i].status
    ensures (forall i :: 0 <= i < |fields| ==> !fields[i].StatusField?) ==> ApplyFields(o, fields).status == o.status
    decreases |fields|
  {
    if fields != [] {
      assert forall i :: 1 <= i < |fields| ==> fields[i] == fields[1..][i - 1];
      ApplyFieldsStatus(ApplyField(o, fields[0]), fields[1..]);
    }
  }

  /** With distinct keys, `paid` is the listed value, or unchanged. */
  lemma {:induction false} ApplyFieldsPaid(o: Order, fields: seq<OrderField>)
    requires DistinctColumns(fields)
    ensures forall i :: 0 <= i < |fields| && fields[i].PaidField? ==> ApplyFields(o, fields).paid == fields[i].paid
    ensures (forall i :: 0 <= i < |fields| ==> !fields[i].PaidField?) ==> ApplyFields(o, fields).paid == o.paid
    decreases |fields|
  {
    if fields != [] {
      assert forall i :: 1 <= i < |fields| ==> fields[i] == fields[1..][i - 1];
      ApplyFieldsPaid(ApplyField(o, fields[0]), fields[1..]);
    }
  }

  /** With distinct keys, each listed timestamp column holds its value and
      every timestamp column not listed is unchanged. */
  lemma {:induction false} ApplyFieldsStamps(o: Order, fields: seq<OrderField>, c: StampColumn)
    requires DistinctColumns(fields)
    ensures forall i :: 0 <= i < |fields| && fields[i].StampField? && fields[i].column == c ==>
              Stamp(ApplyFields(o, fields).stamps, c) == Some(fields[i].at)
    ensures (forall i :: 0 <= i < |fields| ==> !(fields[i].StampField? && fields[i].column == c)) ==>
              Stamp(ApplyFields(o, fields).stamps, c) == Stamp(o.stamps, c)
    decreases |fields|
  {
    if fields != [] {
      assert forall i :: 1 <= i < |fields| ==> fields[i] == fields[1..][i - 1];
      ApplyFieldsStamps(ApplyField(o, fields[0]), fields[1..], c);
      if fields[0].StampField? && fields[0].column == c {
        assert forall i :: 1 <= i < |fields| ==> !(fields[i].StampField? && fields[i].column == c);
      }
    }
  }

  /** The UPDATE statement: SET entries numbered $1..$n in key order and
      the order id bound to $(n+1). */
  datatype UpdateStatement = UpdateStatement(sets: seq<Assignment>, params: seq<SqlValue>, idParam: int)

  function FieldPairs(fields: seq<OrderField>): (pairs: seq<(string, SqlValue)>)
    ensures |pairs| == |fields|
    ensures forall i :: 0 <= i < |fields| ==> pairs[i] == (FieldColumn(fields[i]), FieldValue(fields[i]))
  {
    seq(|fields|, i requires 0 <= i < |fields| => (FieldColumn(fields[i]), FieldValue(fields[i])))
  }

  method BuildOrderUpdate(publicId: string, fields: seq<OrderField>) returns (st: UpdateStatement)
    ensures |st.sets| == |fields| && |st.params| == |fields| + 1
    ensures forall i :: 0 <= i < |fields| ==> st.sets[i] == Assignment(FieldColumn(fields[i]), i + 1)
    ensures st.idParam == |fields| + 1
    ensures DecodeAssignments(st.sets, st.params) == Some(FieldPairs(fields))
    ensures Bound(st.params, st.idParam) == Some(SStr(publicId))
  {
    var setParts, vals := NumberFields(fields);
    vals := vals + [SStr(publicId)];
    st := UpdateStatement(setParts, vals, |fields| + 1);
    NumberedStatement(FieldPairs(fields), setParts, vals, SStr(publicId));
  }

  /** The loop of `buildOrderUpdate`: field `i` becomes the assignment to
      its column from `$(i+1)`, and its value the `i`-th parameter. */
  method NumberFields(fields: seq<OrderField>) returns (setParts: seq<Assignment>, vals: seq<SqlValue>)
    ensures |setParts| == |fields| && |vals| == |fields|
    ensures forall i :: 0 <= i < |fields| ==> setParts[i] == Assignment(FieldColumn(fields[i]), i + 1)
    ensures forall i :: 0 <= i < |fields| ==> vals[i] == FieldValue(fields[i])
  {
    setParts := [];
    vals := [];
    var idx := 1;
    while idx <= |fields|
      invariant 1 <= idx <= |fields| + 1
      invariant |setParts| == idx - 1 && |vals| == idx - 1
      invariant forall i :: 0 <= i < idx - 1 ==> setParts[i] == Assignment(FieldColumn(fields[i]), i + 1)
      invariant forall i :: 0 <= i < idx - 1 ==> vals[i] == FieldValue(fields[i])
    {
      setParts := setParts + [Assignment(FieldColumn(fields[idx - 1]), idx)];
      vals := vals + [FieldValue(fields[idx - 1])];
      idx := idx + 1;
    }
  }

  /** `updateOrderTimestampsAndStatus(publicId, fields)`: no fields returns
      nothing and writes nothing; an unknown order also returns nothing;
      otherwise exactly that order gets the listed columns and the updated
      row is returned. */
  function UpdateEffect(db: Db, publicId: string, fields: seq<OrderField>): (r: (Option<Order>, Db))
    requires Valid(db)
    ensures fields == [] ==> r == (None, db)
    ensures r.0.None? ==> r.1 == db
    ensures Valid(r.1) && r.1.(orders := db.orders) == db
    ensures fields != [] && GetOrderById(db, publicId).Some? ==>
              var o := GetOrderById(db, publicId).value.order;
              r.0 == Some(ApplyFields(o, fields)) && r.1.orders == db.orders.Put(o.id, ApplyFields(o, fields))
    ensures fields != [] && GetOrderById(db, publicId).None? ==> r.0.None?
  {
    if fields == [] then (None, db)
    else match Find(db.orders, PublicIdIs(publicId))
      case None => (None, db)
      case Some(k) =>
        var o := db.orders.rows[k];
        var o' := ApplyFields(o, fields);
        var d := db.(orders := db.orders.Put(k, o'));
        assert forall j :: j in d.orders.rows ==> d.orders.rows[j].publicId == db.orders.rows[j].publicId;
        (Some(o'), d)
  }

  method UpdateOrderTimestampsAndStatus(s: Store, publicId: string, fields: seq<OrderField>) returns (r: Option<Order>)
    requires Valid(s.db)
    modifies s
    ensures (r, s.db) == UpdateEffect(old(s.db), publicId, fields)
  {
    if fields == [] {
      return None;
    }
    var st := BuildOrderUpdate(publicId, fields);
    // The statement binds, for each field the effect applies, its column
    // and value, and the public id the effect looks the order up by.
    assert DecodeAssignments(st.sets, st.params) == Some(FieldPairs(fields));
    assert Bound(st.params, st.idParam) == Some(SStr(publicId));
    var e := UpdateEffect(s.db, publicId, fields);
    s.db := e.1;
    return e.0;
  }
}
