/** The validation and pricing that order creation runs, in the HTTP
    handler and in the background worker alike: the branch must exist,
    every requested item must resolve (one stored row per requested id),
    every item must be available, each line takes the stored price and the
    ready interval is the branch's waiting time plus two minutes per line. */
module OrderPricing {
  import opened Common
  import opened Tables
  import opened Entities
  import opened OrderSchema
  import opened OrderRepository

  const ExtraMinutesPerItem := 2

  /** `computeEstimatedReadyInterval(avg ?? 0, lines)`, in minutes. */
  function ReadyIntervalMinutes(avg: Option<int>, lines: nat): int {
    avg.GetOr(0) + ExtraMinutesPerItem * lines
  }

  /** The interval depends on the number of lines only, never on the
      quantities ordered. */
  lemma ReadyIntervalIgnoresQuantities(avg: Option<int>, a: seq<OrderItemRequest>, b: seq<OrderItemRequest>)
    requires |a| == |b|
    ensures ReadyIntervalMinutes(avg, |a|) == ReadyIntervalMinutes(avg, |b|)
    ensures ReadyIntervalMinutes(avg, |a|) == (if avg.Some? then avg.value else 0) + 2 * |a|
  {
  }

  /** The outcome of validation and pricing. */
  datatype Pricing = Pricing(info: BranchInfo, lines: seq<PricedLine>, total: int, readyMinutes: int)

  function RequestedIds(items: seq<OrderItemRequest>): (ids: seq<int>)
    ensures |ids| == |items|
    ensures forall i :: 0 <= i < |items| ==> ids[i] == items[i].menuItemId
  {
    seq(|items|, i requires 0 <= i < |items| => items[i].menuItemId)
  }

  /** The `menuById` dictionary built from the looked-up rows. */
  function ById(found: seq<MenuItem>): map<int, MenuItem>
    decreases |found|
  {
    if found == [] then map[] else ById(found[..|found| - 1])[found[|found| - 1].id := found[|found| - 1]]
  }

  /** The availability loop: the first requested item that is not
      available fails; an id missing from the dictionary would make
      `mi.available` read a property of undefined. */
  function CheckAvailable(items: seq<OrderItemRequest>, byId: map<int, MenuItem>): (r: Result<()>)
    ensures r.Ok? <==> forall i :: 0 <= i < |items| ==> items[i].menuItemId in byId && byId[items[i].menuItemId].available
    decreases |items|
  {
    if items == [] then Ok(())
    else if items[0].menuItemId !in byId then
      Err(TypeError("Cannot read properties of undefined (reading 'available')"))
    else if !byId[items[0].menuItemId].available then
      Err(AppError("Menu item " + byId[items[0].menuItemId].name + " is not available", 400, Validation))
    else
      assert forall i :: 1 <= i < |items| ==> items[i] == items[1..][i - 1];
      CheckAvailable(items[1..], byId)
  }

  /** Each line with the stored price as its unit price snapshot. */
  function PriceLines(items: seq<OrderItemRequest>, byId: map<int, MenuItem>): (lines: seq<PricedLine>)
    requires forall i :: 0 <= i < |items| ==> items[i].menuItemId in byId
    ensures |lines| == |items|
    ensures forall i :: 0 <= i < |items| ==>
              lines[i] == PricedLine(items[i].menuItemId, items[i].quantity, byId[items[i].menuItemId].price)
  {
    seq(|items|, i requires 0 <= i < |items| =>
      PricedLine(items[i].menuItemId, items[i].quantity, byId[items[i].menuItemId].price))
  }

  /** Σ unit price × quantity. */
  function Total(lines: seq<PricedLine>): int
    decreases |lines|
  {
    if lines == [] then 0 else Total(lines[..|lines| - 1]) + lines[|lines| - 1].unitPrice * lines[|lines| - 1].quantity
  }

  /** What the handler and the worker compute before their first write. */
  function PriceSpec(db: Db, req: CreateOrderRequest): (r: Result<Pricing>)
    ensures GetBranchInfo(db, req.branchId).None? ==> r == Err(NotFoundError("Branch not found"))
    ensures r.Ok? ==> GetBranchInfo(db, req.branchId) == Some(r.value.info)
                      && |r.value.lines| == |req.items| && r.value.total == Total(r.value.lines)
  {
    match GetBranchInfo(db, req.branchId)
    case None => Err(NotFoundError("Branch not found"))
    case Some(info) =>
      var ids := RequestedIds(req.items);
      var found := GetMenuItemsByIds(db, ids);
      if |found| != |ids| then Err(AppError("One or more menu items not found", 400, Validation))
      else
        var byId := ById(found);
        match CheckAvailable(req.items, byId)
        case Err(e) => Err(e)
        case Ok(_) =>
          var lines := PriceLines(req.items, byId);
          Ok(Pricing(info, lines, Total(lines), ReadyIntervalMinutes(info.avgWaitingTime, |req.items|)))
  }

  /** `for (const mi of menuItems) menuById[mi.id] = mi`. */
  method IndexById(found: seq<MenuItem>) returns (menuById: map<int, MenuItem>)
    ensures menuById == ById(found)
  {
    menuById := map[];
    var i := 0;
    while i < |found|
      invariant 0 <= i <= |found|
      invariant menuById == ById(found[..i])
    {
      assert found[..i + 1][..i] == found[..i];
      menuById := menuById[found[i].id := found[i]];
      i := i + 1;
    }
    assert found[..i] == found;
  }

  /** The availability loop over the requested lines, in request order. */
  method CheckItems(items: seq<OrderItemRequest>, menuById: map<int, MenuItem>) returns (r: Result<()>)
    ensures r == CheckAvailable(items, menuById)
  {
    var j := 0;
    while j < |items|
      invariant 0 <= j <= |items|
      invariant CheckAvailable(items, menuById) == CheckAvailable(items[j..], menuById)
    {
      var it := items[j];
      if it.menuItemId !in menuById {
        return Err(TypeError("Cannot read properties of undefined (reading 'available')"));
      }
      if !menuById[it.menuItemId].available {
        return Err(AppError("Menu item " + menuById[it.menuItemId].name + " is not available", 400, Validation));
      }
      assert items[j..][1..] == items[j + 1..];
      j := j + 1;
    }
    return Ok(());
  }

  /** The `map` that snapshots each unit price while `total +=` accumulates. */
  method PriceItems(items: seq<OrderItemRequest>, menuById: map<int, MenuItem>) returns (lines: seq<PricedLine>, total: int)
    requires forall i :: 0 <= i < |items| ==> items[i].menuItemId in menuById
    ensures lines == PriceLines(items, menuById) && total == Total(lines)
  {
    total := 0;
    lines := [];
    var k := 0;
    while k < |items|
      invariant 0 <= k <= |items|
      invariant lines == PriceLines(items[..k], menuById)
      invariant total == Total(lines)
    {
      var it := items[k];
      var unitPrice := menuById[it.menuItemId].price;
      total := total + unitPrice * it.quantity;
      lines := lines + [PricedLine(it.menuItemId, it.quantity, unitPrice)];
      assert lines[..|lines| - 1] == PriceLines(items[..k], menuById);
      k := k + 1;
    }
    assert items[..k] == items;
  }

  /** The checks and the arithmetic as the handler runs them. */
  method ValidateAndPrice(s: Store, req: CreateOrderRequest) returns (r: Result<Pricing>)
    ensures r == PriceSpec(s.db, req)
  {
    var infoOpt := GetBranchInfo(s.db, req.branchId);
    if infoOpt.None? {
      return Err(NotFoundError("Branch not found"));
    }
    var info := infoOpt.value;
    var ids := RequestedIds(req.items);
    var found := GetMenuItemsByIds(s.db, ids);
    if |found| != |ids| {
      return Err(AppError("One or more menu items not found", 400, Validation));
    }
    var menuById := IndexById(found);
    var ok := CheckItems(req.items, menuById);
    if ok.Err? {
      return Err(ok.error);
    }
    var lines, total := PriceItems(req.items, menuById);
    return Ok(Pricing(info, lines, total, ReadyIntervalMinutes(info.avgWaitingTime, |req.items|)));
  }

  // ------------------------------------------------------------------ proofs

  predicate DistinctIds(items: seq<OrderItemRequest>) {
    forall i, j :: 0 <= i < j < |items| ==> items[i].menuItemId != items[j].menuItemId
  }

  lemma {:induction false} SubsetCard(a: set<int>, b: set<int>)
    requires a <= b
    ensures |a| <= |b|
    ensures |a| == |b| ==> a == b
  {
    var d := b - a;
    assert b == a + d && a * d == {};
    if |a| == |b| {
      assert |d| == 0;
      assert d == {};
    }
  }

  /** A sequence has as many distinct elements as entries exactly when no
      entry repeats. */
  lemma {:induction false} DistinctCard(ids: seq<int>)
    ensures |set x | x in ids| <= |ids|
    ensures |set x | x in ids| == |ids| <==> forall i, j :: 0 <= i < j < |ids| ==> ids[i] != ids[j]
    decreases |ids|
  {
    if ids != [] {
      var rest := ids[1..];
      DistinctCard(rest);
      var rs := set x | x in rest;
      assert (set x | x in ids) == rs + {ids[0]};
      assert forall i :: 1 <= i < |ids| ==> ids[i] == rest[i - 1];
      if ids[0] in rs {
        var i :| 0 <= i < |rest| && rest[i] == ids[0];
        assert ids[0] == ids[i + 1];
        assert (set x | x in ids) == rs;
      } else {
        assert forall i :: 0 <= i < |rest| ==> rest[i] != ids[0];
      }
    }
  }

  /** The dictionary holds one entry per looked-up row, keyed by its id,
      when the row ids are strictly increasing. */
  lemma {:induction false} ByIdSpec(found: seq<MenuItem>)
    requires forall i, j :: 0 <= i < j < |found| ==> found[i].id < found[j].id
    ensures forall k :: k in ById(found) <==> exists i :: 0 <= i < |found| && found[i].id == k
    ensures forall i :: 0 <= i < |found| ==> ById(found)[found[i].id] == found[i]
    decreases |found|
  {
    if found != [] {
      var init := found[..|found| - 1];
      ByIdSpec(init);
      forall k ensures k in ById(found) <==> exists i :: 0 <= i < |found| && found[i].id == k {
        if k in ById(init) {
          var i :| 0 <= i < |init| && init[i].id == k;
          assert found[i].id == k;
        }
        if exists i :: 0 <= i < |found| && found[i].id == k {
          var i :| 0 <= i < |found| && found[i].id == k;
          if i < |found| - 1 {
            assert init[i].id == k;
          }
        }
      }
      forall i | 0 <= i < |found| ensures ById(found)[found[i].id] == found[i] {
        if i < |found| - 1 {
          assert init[i] == found[i];
          assert found[i].id != found[|found| - 1].id;
        }
      }
    }
  }

  /** With a valid store and one looked-up row per requested id, the
      dictionary maps every requested id to its stored row. */
  lemma LookupComplete(db: Db, req: CreateOrderRequest)
    requires Valid(db)
    requires |GetMenuItemsByIds(db, RequestedIds(req.items))| == |req.items|
    ensures DistinctIds(req.items)
    ensures forall i :: 0 <= i < |req.items| ==> req.items[i].menuItemId in db.menuItems.rows
    ensures forall i :: 0 <= i < |req.items| ==>
              req.items[i].menuItemId in ById(GetMenuItemsByIds(db, RequestedIds(req.items)))
              && ById(GetMenuItemsByIds(db, RequestedIds(req.items)))[req.items[i].menuItemId]
                 == db.menuItems.rows[req.items[i].menuItemId]
  {
    var ids := RequestedIds(req.items);
    CountedIdsStored(db, ids);
    StoredIdsIndexed(db, ids);
    forall i, j | 0 <= i < j < |req.items| ensures req.items[i].menuItemId != req.items[j].menuItemId {
      assert ids[i] == req.items[i].menuItemId && ids[j] == req.items[j].menuItemId;
    }
    forall i | 0 <= i < |req.items| ensures req.items[i].menuItemId == ids[i] {
    }
  }

  /** When as many rows come back as ids were asked for, the ids are
      distinct and all stored. */
  lemma CountedIdsStored(db: Db, ids: seq<int>)
    requires Valid(db) && |GetMenuItemsByIds(db, ids)| == |ids|
    ensures forall i, j :: 0 <= i < j < |ids| ==> ids[i] != ids[j]
    ensures forall i :: 0 <= i < |ids| ==> ids[i] in db.menuItems.rows
  {
    MenuItemsByIds(db, ids);
    DistinctCard(ids);
    var stored := set k | k in db.menuItems.rows && k in ids;
    var asked := set x | x in ids;
    SubsetCard(stored, asked);
    assert asked == stored;
    forall i | 0 <= i < |ids| ensures ids[i] in db.menuItems.rows {
      assert ids[i] in asked;
    }
  }

  /** Stored ids are indexed to their stored rows. */
  lemma StoredIdsIndexed(db: Db, ids: seq<int>)
    requires Valid(db) && forall i :: 0 <= i < |ids| ==> ids[i] in db.menuItems.rows
    ensures forall i :: 0 <= i < |ids| ==>
              ids[i] in ById(GetMenuItemsByIds(db, ids)) && ById(GetMenuItemsByIds(db, ids))[ids[i]] == db.menuItems.rows[ids[i]]
  {
    forall i | 0 <= i < |ids|
      ensures ids[i] in ById(GetMenuItemsByIds(db, ids)) && ById(GetMenuItemsByIds(db, ids))[ids[i]] == db.menuItems.rows[ids[i]]
    {
      StoredIdIndexed(db, ids, ids[i]);
    }
  }

  lemma StoredIdIndexed(db: Db, ids: seq<int>, id: int)
    requires Valid(db) && id in ids && id in db.menuItems.rows
    ensures id in ById(GetMenuItemsByIds(db, ids)) && ById(GetMenuItemsByIds(db, ids))[id] == db.menuItems.rows[id]
  {
    var found := GetMenuItemsByIds(db, ids);
    var m := db.menuItems.rows[id];
    assert m.id == id;
    MenuItemsByIds(db, ids);
    assert m in found;
    var j :| 0 <= j < |found| && found[j] == m;
    ByIdSpec(found);
    assert ById(found)[found[j].id] == found[j];
  }

  /** Distinct ids that are all stored resolve to one row each. */
  lemma LookupCount(db: Db, req: CreateOrderRequest)
    requires Valid(db) && DistinctIds(req.items)
    requires forall i :: 0 <= i < |req.items| ==> req.items[i].menuItemId in db.menuItems.rows
    ensures |GetMenuItemsByIds(db, RequestedIds(req.items))| == |req.items|
  {
    var ids := RequestedIds(req.items);
    MenuItemsByIds(db, ids);
    DistinctCard(ids);
    assert (set k | k in db.menuItems.rows && k in ids) == set x | x in ids;
  }

  /** Pricing succeeds exactly when the branch (and its restaurant) exists,
      no item is requested twice, and every requested item is stored and
      available. A repeated menu_item_id is therefore always rejected. */
  lemma PriceSucceeds(db: Db, req: CreateOrderRequest)
    requires Valid(db)
    ensures PriceSpec(db, req).Ok? <==>
              && GetBranchInfo(db, req.branchId).Some?
              && DistinctIds(req.items)
              && forall i :: 0 <= i < |req.items| ==>
                   req.items[i].menuItemId in db.menuItems.rows && db.menuItems.rows[req.items[i].menuItemId].available
  {
    var ids := RequestedIds(req.items);
    var found := GetMenuItemsByIds(db, ids);
    if GetBranchInfo(db, req.branchId).Some? {
      if |found| == |ids| {
        LookupComplete(db, req);
      } else if DistinctIds(req.items) && forall i :: 0 <= i < |req.items| ==> req.items[i].menuItemId in db.menuItems.rows {
        LookupCount(db, req);
      }
    }
  }

  lemma {:induction false} TotalOfStoredPrices(db: Db, items: seq<OrderItemRequest>, byId: map<int, MenuItem>)
    requires forall i :: 0 <= i < |items| ==> items[i].menuItemId in byId && items[i].menuItemId in db.menuItems.rows
    requires forall i :: 0 <= i < |items| ==> byId[items[i].menuItemId] == db.menuItems.rows[items[i].menuItemId]
    ensures Total(PriceLines(items, byId)) == StoredTotal(db, items)
    decreases |items|
  {
    if items != [] {
      var init := items[..|items| - 1];
      TotalOfStoredPrices(db, init, byId);
      assert PriceLines(items, byId)[..|items| - 1] == PriceLines(init, byId);
    }
  }

  /** Σ stored price × quantity over the requested lines. */
  ghost function StoredTotal(db: Db, items: seq<OrderItemRequest>): int
    requires forall i :: 0 <= i < |items| ==> items[i].menuItemId in db.menuItems.rows
    decreases |items|
  {
    if items == [] then 0
    else
      var last := items[|items| - 1];
      StoredTotal(db, items[..|items| - 1]) + db.menuItems.rows[last.menuItemId].price * last.quantity
  }

  /** A successful pricing takes every unit price from the store, never
      from the client, totals stored price × quantity, and allows the
      branch's waiting time plus two minutes per line. */
  lemma PriceSnapshot(db: Db, req: CreateOrderRequest)
    requires Valid(db) && PriceSpec(db, req).Ok?
    ensures var p := PriceSpec(db, req).value;
            && (forall i :: 0 <= i < |req.items| ==> req.items[i].menuItemId in db.menuItems.rows)
            && |p.lines| == |req.items|
            && (forall i :: 0 <= i < |req.items| ==>
                  p.lines[i] == PricedLine(req.items[i].menuItemId, req.items[i].quantity,
                                           db.menuItems.rows[req.items[i].menuItemId].price))
            && p.total == StoredTotal(db, req.items)
            && p.info == GetBranchInfo(db, req.branchId).value
            && p.readyMinutes == GetBranchInfo(db, req.branchId).value.avgWaitingTime.GetOr(0) + 2 * |req.items|
  {
    LookupComplete(db, req);
    TotalOfStoredPrices(db, req.items, ById(GetMenuItemsByIds(db, RequestedIds(req.items))));
  }

  /** A request naming an item that is stored but not available fails
      validation with status 400. */
  lemma UnavailableFails(db: Db, req: CreateOrderRequest, i: int)
    requires Valid(db) && 0 <= i < |req.items|
    requires req.items[i].menuItemId in db.menuItems.rows && !db.menuItems.rows[req.items[i].menuItemId].available
    ensures PriceSpec(db, req).Err?
    ensures GetBranchInfo(db, req.branchId).Some? && |GetMenuItemsByIds(db, RequestedIds(req.items))| == |req.items| ==>
              PriceSpec(db, req).error.statusCode == 400 && PriceSpec(db, req).error.kind == Validation
  {
    PriceSucceeds(db, req);
    if GetBranchInfo(db, req.branchId).Some? && |GetMenuItemsByIds(db, RequestedIds(req.items))| == |req.items| {
      LookupComplete(db, req);
      UnavailableIsValidation(req.items, ById(GetMenuItemsByIds(db, RequestedIds(req.items))));
    }
  }

  /** Once every id resolves, the availability loop only raises
      validation errors. */
  lemma {:induction false} UnavailableIsValidation(items: seq<OrderItemRequest>, byId: map<int, MenuItem>)
    requires forall i :: 0 <= i < |items| ==> items[i].menuItemId in byId
    ensures CheckAvailable(items, byId).Err? ==>
              CheckAvailable(items, byId).error.statusCode == 400 && CheckAvailable(items, byId).error.kind == Validation
    decreases |items|
  {
    if items != [] && byId[items[0].menuItemId].available {
      assert forall i :: 1 <= i < |items| ==> items[i] == items[1..][i - 1];
      UnavailableIsValidation(items[1..], byId);
    }
  }
}
