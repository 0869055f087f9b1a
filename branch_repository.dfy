/** The branch repository: branches, their menus and menu items, the
    owner joins the branch handlers guard with, and the statement builders
    of its bulk insert and its partial updates. */
module BranchRepository {
  import opened Common
  import opened Tables
  import opened Entities
  import opened Sql

  // ------------------------------------------------------------ branches

  /** What `createBranch` inserts; `avg_waiting_time` starts null and
      `active` true. */
  datatype NewBranch = NewBranch(restaurantId: int, address: string, city: string)

  function InsertBranch(db: Db, n: NewBranch): (r: (Branch, Db))
    requires Valid(db)
    ensures Valid(r.1) && r.1.(branches := db.branches) == db
    ensures r.0.id !in db.branches.rows && r.1.branches.rows == db.branches.rows[r.0.id := r.0]
    ensures r.0.restaurantId == n.restaurantId && r.0.address == n.address && r.0.city == n.city
    ensures r.0.avgWaitingTime.None? && r.0.active
  {
    var b := Branch(db.branches.next, n.restaurantId, n.address, n.city, None, true);
    (b, db.(branches := db.branches.Insert(b)))
  }

  method CreateBranch(s: Store, n: NewBranch) returns (b: Branch)
    requires Valid(s.db)
    modifies s
    ensures (b, s.db) == InsertBranch(old(s.db), n)
  {
    var e := InsertBranch(s.db, n);
    s.db := e.1;
    b := e.0;
  }

  function GetBranchById(db: Db, id: int): (r: Option<Branch>)
    ensures r.Some? <==> id in db.branches.rows
    ensures r.Some? ==> r.value == db.branches.rows[id]
  {
    db.branches.Get(id)
  }

  /** A created branch is read back by its id, and no other branch moved. */
  lemma CreatedBranchReadBack(db: Db, n: NewBranch, id: int)
    requires Valid(db)
    ensures var (b, d) := InsertBranch(db, n);
            && GetBranchById(d, b.id) == Some(b)
            && (id != b.id ==> GetBranchById(d, id) == GetBranchById(db, id))
  {
  }

  // --------------------------------------------------------------- menus

  /** `createMenu(branchId, name)`; a new menu is active. */
  function InsertMenu(db: Db, branchId: int, name: string): (r: (Menu, Db))
    requires Valid(db)
    ensures Valid(r.1) && r.1.(menus := db.menus) == db
    ensures r.0.id !in db.menus.rows && r.1.menus.rows == db.menus.rows[r.0.id := r.0]
    ensures r.0.branchId == branchId && r.0.name == name && r.0.active
  {
    var m := Menu(db.menus.next, branchId, name, true);
    (m, db.(menus := db.menus.Insert(m)))
  }

  method CreateMenu(s: Store, branchId: int, name: string) returns (m: Menu)
    requires Valid(s.db)
    modifies s
    ensures (m, s.db) == InsertMenu(old(s.db), branchId, name)
  {
    var e := InsertMenu(s.db, branchId, name);
    s.db := e.1;
    m := e.0;
  }

  // ---------------------------------------------------------- menu items

  /** A menu item of a request; an absent `description` or `available`
      is None (a null `available` reads the same). */
  datatype MenuItemInput = MenuItemInput(name: string, description: Option<string>, price: int, available: Option<bool>)

  /** `item.description || null`: absent and empty descriptions are null. */
  function StoredDescription(d: Option<string>): (r: Option<string>)
    ensures r.None? <==> d.None? || d.value == ""
    ensures r.Some? ==> r == d
  {
    if d.None? || d.value == "" then None else d
  }

  function DescriptionValue(d: Option<string>): SqlValue {
    match StoredDescription(d)
    case None => SNull
    case Some(s) => SStr(s)
  }

  /** `item.available ?? true`: only an explicit false is kept as false. */
  function StoredAvailable(a: Option<bool>): (r: bool)
    ensures !r <==> a == Some(false)
  {
    a.GetOr(true)
  }

  /** The five values one item binds, in column order
      (name, description, price, available, menu_id). */
  function ItemValues(menuId: int, it: MenuItemInput): (v: seq<SqlValue>)
    ensures |v| == 5
  {
    [SStr(it.name), DescriptionValue(it.description), SInt(it.price), SBool(StoredAvailable(it.available)), SInt(menuId)]
  }

  function ItemRows(menuId: int, items: seq<MenuItemInput>): (rows: seq<seq<SqlValue>>)
    ensures |rows| == |items|
    ensures forall i :: 0 <= i < |items| ==> rows[i] == ItemValues(menuId, items[i])
  {
    seq(|items|, i requires 0 <= i < |items| => ItemValues(menuId, items[i]))
  }

  /** The placeholders and parameters of the bulk insert: item `i` is the
      tuple `$5i+1 .. $5i+5`, the list holds five values per item, and the
      statement binds exactly the intended rows. */
  method BuildMenuItemsInsert(menuId: int, items: seq<MenuItemInput>) returns (tuples: seq<seq<int>>, values: seq<SqlValue>)
    ensures |tuples| == |items| && |values| == 5 * |items|
    ensures forall i :: 0 <= i < |items| ==> tuples[i] == TupleAt(i, 5)
    ensures values == Concat(ItemRows(menuId, items))
    ensures DecodeTuples(tuples, values) == Some(ItemRows(menuId, items))
  {
    tuples, values := [], [];
    var idx := 0;
    while idx < |items|
      invariant 0 <= idx <= |items| && |tuples| == idx
      invariant forall j :: 0 <= j < idx ==> tuples[j] == TupleAt(j, 5)
      invariant values == Concat(ItemRows(menuId, items[..idx]))
    {
      var i := idx * 5;
      ConcatSnoc(ItemRows(menuId, items[..idx]), ItemValues(menuId, items[idx]));
      assert ItemRows(menuId, items[..idx + 1]) == ItemRows(menuId, items[..idx]) + [ItemValues(menuId, items[idx])];
      values := values + ItemValues(menuId, items[idx]);
      tuples := tuples + [[i + 1, i + 2, i + 3, i + 4, i + 5]];
      idx := idx + 1;
    }
    assert items[..idx] == items;
    ConcatLength(ItemRows(menuId, items), 5);
    DecodeNumberedTuples(ItemRows(menuId, items), 5, tuples, 0);
    assert ItemRows(menuId, items)[0..] == ItemRows(menuId, items);
  }

  /** The row an item becomes under key `id`. */
  function ItemRow(id: int, menuId: int, it: MenuItemInput): MenuItem {
    MenuItem(id, menuId, it.name, StoredDescription(it.description), it.price, StoredAvailable(it.available))
  }

  /** The rows the insert creates, one per item, with consecutive keys. */
  function InsertMenuItemRows(t: Table<MenuItem>, menuId: int, items: seq<MenuItemInput>): (r: (seq<MenuItem>, Table<MenuItem>))
    requires t.Valid()
    ensures |r.0| == |items| && Appended(t, r.0, r.1)
    ensures forall i :: 0 <= i < |items| ==> r.0[i] == ItemRow(t.next + i, menuId, items[i])
    decreases |items|
  {
    if items == [] then ([], t)
    else
      var row := ItemRow(t.next, menuId, items[0]);
      var rest := InsertMenuItemRows(t.Insert(row), menuId, items[1..]);
      InsertBlockCons(t, row, rest.0, rest.1);
      ItemRowsCons(t.next, menuId, items, rest.0);
      ([row] + rest.0, rest.1)
  }

  lemma ItemRowsCons(next: int, menuId: int, items: seq<MenuItemInput>, rest: seq<MenuItem>)
    requires items != [] && |rest| == |items| - 1
    requires forall i :: 0 <= i < |items[1..]| ==> rest[i] == ItemRow(next + 1 + i, menuId, items[1..][i])
    ensures forall i :: 0 <= i < |items| ==> ([ItemRow(next, menuId, items[0])] + rest)[i] == ItemRow(next + i, menuId, items[i])
  {
    forall i | 0 < i < |items| ensures rest[i - 1] == ItemRow(next + i, menuId, items[i]) {
      assert items[1..][i - 1] == items[i];
    }
  }

  /** The effect of `createMenuItems(menuId, items)`: an empty list writes
      nothing and returns nothing. */
  function InsertMenuItems(db: Db, menuId: int, items: seq<MenuItemInput>): (r: (seq<MenuItem>, Db))
    requires Valid(db)
    ensures items == [] ==> r == ([], db)
    ensures Valid(r.1) && r.1.(menuItems := db.menuItems) == db
    ensures items != [] ==> r == (InsertMenuItemRows(db.menuItems, menuId, items).0,
                                  db.(menuItems := InsertMenuItemRows(db.menuItems, menuId, items).1))
  {
    if items == [] then ([], db)
    else
      var ins := InsertMenuItemRows(db.menuItems, menuId, items);
      var d := db.(menuItems := ins.1);
      assert forall k :: k in d.menuItems.rows ==> d.menuItems.rows[k].id == k by {
        forall k | k in d.menuItems.rows
          ensures d.menuItems.rows[k].id == k
        {
          if k !in db.menuItems.rows {
            assert d.menuItems.rows[k] == ins.0[k - db.menuItems.next];
          }
        }
      }
      (ins.0, d)
  }

  /** Every created item belongs to the menu and carries the request's
      name and price; a missing or empty description is stored as null and
      a missing `available` as true, while an explicit false is kept. */
  lemma CreatedMenuItems(db: Db, menuId: int, items: seq<MenuItemInput>)
    requires Valid(db)
    ensures var (rows, d) := InsertMenuItems(db, menuId, items);
            && |rows| == |items|
            && forall i :: 0 <= i < |items| ==>
                 && rows[i].menuId == menuId && rows[i].name == items[i].name && rows[i].price == items[i].price
                 && (rows[i].description.None? <==> items[i].description.None? || items[i].description == Some(""))
                 && (rows[i].description.Some? ==> rows[i].description == items[i].description)
                 && (rows[i].available <==> items[i].available != Some(false))
                 && rows[i].id in d.menuItems.rows && rows[i].id !in db.menuItems.rows
                 && d.menuItems.rows[rows[i].id] == rows[i]
  {
  }

  /** An item row's values in the insert's column order. */
  function MenuItemColumns(m: MenuItem): seq<SqlValue> {
    [SStr(m.name), match m.description case None => SNull case Some(d) => SStr(d), SInt(m.price), SBool(m.available), SInt(m.menuId)]
  }

  /** The rows the statement binds are the rows the insert writes: row `i`
      of `ItemRows` holds the columns of the `i`-th created item. */
  lemma ItemsBindRows(t: Table<MenuItem>, menuId: int, items: seq<MenuItemInput>)
    requires t.Valid()
    ensures forall i :: 0 <= i < |items| ==> ItemRows(menuId, items)[i] == MenuItemColumns(InsertMenuItemRows(t, menuId, items).0[i])
  {
  }

  /** `createMenuItems(menuId, items)`. */
  method CreateMenuItems(s: Store, menuId: int, items: seq<MenuItemInput>) returns (r: seq<MenuItem>)
    requires Valid(s.db)
    modifies s
    ensures (r, s.db) == InsertMenuItems(old(s.db), menuId, items)
  {
    if items == [] {
      return [];
    }
    var tuples, values := BuildMenuItemsInsert(menuId, items);
    ItemsBindRows(s.db.menuItems, menuId, items);
    var e := InsertMenuItems(s.db, menuId, items);
    s.db := e.1;
    r := e.0;
  }

  // -------------------------------------------------------------- owners

  /** The row the owner joins return: `{ branch_id, owner_id }`. */
  datatype BranchOwner = BranchOwner(branchId: int, ownerId: int)

  /** `getBranchWithOwner(branchId)`: branch -> restaurant -> user_id, or
      nothing when the chain is broken. */
  function GetBranchWithOwner(db: Db, branchId: int): (r: Option<BranchOwner>)
    ensures r.Some? <==> branchId in db.branches.rows && db.branches.rows[branchId].restaurantId in db.restaurants.rows
    ensures r.Some? ==> r.value == BranchOwner(branchId, db.restaurants.rows[db.branches.rows[branchId].restaurantId].userId)
  {
    match db.branches.Get(branchId)
    case None => None
    case Some(b) =>
      match db.restaurants.Get(b.restaurantId)
      case None => None
      case Some(rest) => Some(BranchOwner(branchId, rest.userId))
  }

  /** `getMenuOwners(menuId)`: menu -> branch -> restaurant -> user_id, or
      nothing when the chain is broken. */
  function GetMenuOwners(db: Db, menuId: int): (r: Option<BranchOwner>)
    ensures r.Some? <==> menuId in db.menus.rows && GetBranchWithOwner(db, db.menus.rows[menuId].branchId).Some?
    ensures r.Some? ==> r == GetBranchWithOwner(db, db.menus.rows[menuId].branchId)
  {
    match db.menus.Get(menuId)
    case None => None
    case Some(m) =>
      match db.branches.Get(m.branchId)
      case None => None
      case Some(b) =>
        match db.restaurants.Get(b.restaurantId)
        case None => None
        case Some(rest) => Some(BranchOwner(m.branchId, rest.userId))
  }

  // ----------------------------------------------------- menus with items

  datatype MenuWithItems = MenuWithItems(menu: Menu, items: seq<MenuItem>)

  function MenuOfBranch(branchId: int): Menu -> bool {
    (m: Menu) => m.branchId == branchId
  }

  function ItemOfMenu(menuId: int): MenuItem -> bool {
    (it: MenuItem) => it.menuId == menuId
  }

  function ItemInMenus(ids: seq<int>): MenuItem -> bool {
    (it: MenuItem) => it.menuId in ids
  }

  function MenuIds(menus: seq<Menu>): (ids: seq<int>)
    ensures |ids| == |menus| && forall i :: 0 <= i < |menus| ==> ids[i] == menus[i].id
  {
    seq(|menus|, i requires 0 <= i < |menus| => menus[i].id)
  }

  /** The grouping step: `itemsByMenu` filled by one pass over the items,
      then each menu paired with its group, or [] when it has none. */
  method GroupByMenu(menus: seq<Menu>, items: seq<MenuItem>) returns (r: seq<MenuWithItems>)
    ensures |r| == |menus|
    ensures forall i :: 0 <= i < |menus| ==> r[i] == MenuWithItems(menus[i], Filter(items, ItemOfMenu(menus[i].id)))
  {
    var itemsByMenu := IndexByMenu(items);
    r := seq(|menus|, k requires 0 <= k < |menus| =>
               MenuWithItems(menus[k], if menus[k].id in itemsByMenu then itemsByMenu[menus[k].id] else []));
  }

  /** The pass over the items: each menu id seen maps to its items in
      order, and an id never seen has none. */
  method IndexByMenu(items: seq<MenuItem>) returns (itemsByMenu: map<int, seq<MenuItem>>)
    ensures itemsByMenu == IndexOf(items)
    ensures forall id :: id in itemsByMenu ==> itemsByMenu[id] == Filter(items, ItemOfMenu(id))
    ensures forall id :: id !in itemsByMenu ==> Filter(items, ItemOfMenu(id)) == []
  {
    itemsByMenu := map[];
    var i := 0;
    while i < |items|
      invariant 0 <= i <= |items|
      invariant itemsByMenu == IndexOf(items[..i])
    {
      var item := items[i];
      assert items[..i + 1][..i] == items[..i];
      ghost var before := itemsByMenu;
      if item.menuId !in itemsByMenu {
        itemsByMenu := itemsByMenu[item.menuId := []];
      }
      itemsByMenu := itemsByMenu[item.menuId := itemsByMenu[item.menuId] + [item]];
      assert itemsByMenu == Indexed(before, item);
      i := i + 1;
    }
    assert items[..i] == items;
    IndexOfGroups(items);
  }

  /** The index after one more item: its menu's group grows by it. */
  function Indexed(m: map<int, seq<MenuItem>>, item: MenuItem): map<int, seq<MenuItem>> {
    m[item.menuId := (if item.menuId in m then m[item.menuId] else []) + [item]]
  }

  /** The index of a list of items, built front to back. */
  function IndexOf(items: seq<MenuItem>): map<int, seq<MenuItem>> {
    if items == [] then map[] else Indexed(IndexOf(items[..|items| - 1]), items[|items| - 1])
  }

  /** The index holds each menu's items in order, and only menus that
      have some. */
  lemma {:induction false} IndexOfGroups(items: seq<MenuItem>)
    ensures forall id :: id in IndexOf(items) ==> IndexOf(items)[id] == Filter(items, ItemOfMenu(id))
    ensures forall id :: id !in IndexOf(items) ==> Filter(items, ItemOfMenu(id)) == []
  {
    if items != [] {
      var done := items[..|items| - 1];
      IndexOfGroups(done);
      assert done + [items[|items| - 1]] == items;
      IndexStep(IndexOf(done), done, items[|items| - 1]);
    }
  }

  lemma IndexStep(m: map<int, seq<MenuItem>>, done: seq<MenuItem>, item: MenuItem)
    requires forall id :: id in m ==> m[id] == Filter(done, ItemOfMenu(id))
    requires forall id :: id !in m ==> Filter(done, ItemOfMenu(id)) == []
    ensures forall id :: id in Indexed(m, item) ==> Indexed(m, item)[id] == Filter(done + [item], ItemOfMenu(id))
    ensures forall id :: id !in Indexed(m, item) ==> Filter(done + [item], ItemOfMenu(id)) == []
  {
    var m' := Indexed(m, item);
    forall id | id in m' ensures m'[id] == Filter(done + [item], ItemOfMenu(id)) {
      FilterSnoc(done, item, ItemOfMenu(id));
    }
    forall id | id !in m' ensures Filter(done + [item], ItemOfMenu(id)) == [] {
      FilterSnoc(done, item, ItemOfMenu(id));
    }
  }

  /** `getAllMenusByBranch(branchId)`: the branch's menus in creation
      order, each with its items; no menus means no item lookup. The item
      query has no ORDER BY, so the order the store returns items in is not
      fixed; the model fetches them in key order, which is its own choice. */
  function MenusByBranch(db: Db, branchId: int): (r: seq<MenuWithItems>)
    ensures |r| == |Select(db.menus, MenuOfBranch(branchId))|
    ensures forall i :: 0 <= i < |r| ==> forall it :: it in r[i].items ==> it.menuId == r[i].menu.id
  {
    var menus := Select(db.menus, MenuOfBranch(branchId));
    if menus == [] then []
    else
      var items := Select(db.menuItems, ItemInMenus(MenuIds(menus)));
      seq(|menus|, i requires 0 <= i < |menus| => MenuWithItems(menus[i], Filter(items, ItemOfMenu(menus[i].id))))
  }

  method GetAllMenusByBranch(s: Store, branchId: int) returns (r: seq<MenuWithItems>)
    ensures r == MenusByBranch(s.db, branchId)
  {
    var menus := Select(s.db.menus, MenuOfBranch(branchId));
    if menus == [] {
      return [];
    }
    var items := Select(s.db.menuItems, ItemInMenus(MenuIds(menus)));
    r := GroupByMenu(menus, items);
  }

  /** The result lists exactly the branch's stored menus, oldest first,
      and each menu carries exactly the stored items of that menu, in the
      key order in which the model fetches them. */
  lemma MenusByBranchSpec(db: Db, branchId: int)
    requires Valid(db)
    ensures var r := MenusByBranch(db, branchId);
            && (forall i :: 0 <= i < |r| ==> r[i].menu.branchId == branchId && r[i].menu.id in db.menus.rows
                                             && db.menus.rows[r[i].menu.id] == r[i].menu)
            && (forall k :: k in db.menus.rows && db.menus.rows[k].branchId == branchId ==>
                  exists i :: 0 <= i < |r| && r[i].menu == db.menus.rows[k])
            && (forall i, j :: 0 <= i < j < |r| ==> r[i].menu.id < r[j].menu.id)
            && (forall i :: 0 <= i < |r| ==> r[i].items == Select(db.menuItems, ItemOfMenu(r[i].menu.id)))
  {
    BranchMenusListed(db, branchId);
    MenuItemsGrouped(db, branchId);
  }

  lemma BranchMenusListed(db: Db, branchId: int)
    requires Valid(db)
    ensures var r := MenusByBranch(db, branchId);
            && (forall i :: 0 <= i < |r| ==> r[i].menu.branchId == branchId && r[i].menu.id in db.menus.rows
                                             && db.menus.rows[r[i].menu.id] == r[i].menu)
            && (forall k :: k in db.menus.rows && db.menus.rows[k].branchId == branchId ==>
                  exists i :: 0 <= i < |r| && r[i].menu == db.menus.rows[k])
            && (forall i, j :: 0 <= i < j < |r| ==> r[i].menu.id < r[j].menu.id)
  {
    var menus := Select(db.menus, MenuOfBranch(branchId));
    var r := MenusByBranch(db, branchId);
    assert |r| == |menus| && forall i :: 0 <= i < |r| ==> r[i].menu == menus[i];
    forall x ensures x in menus <==> exists k :: k in db.menus.rows && db.menus.rows[k] == x && x.branchId == branchId {
      SelectMember(db.menus, MenuOfBranch(branchId), x);
    }
    forall k | k in db.menus.rows && db.menus.rows[k].branchId == branchId
      ensures exists i :: 0 <= i < |r| && r[i].menu == db.menus.rows[k]
    {
      assert db.menus.rows[k] in menus;
      var i :| 0 <= i < |menus| && menus[i] == db.menus.rows[k];
      assert r[i].menu == db.menus.rows[k];
    }
    SelectFromSorted(db.menus, MenuOfBranch(branchId), 1, (m: Menu) => m.id);
  }

  lemma MenuItemsGrouped(db: Db, branchId: int)
    requires Valid(db)
    ensures var r := MenusByBranch(db, branchId);
            forall i :: 0 <= i < |r| ==> r[i].items == Select(db.menuItems, ItemOfMenu(r[i].menu.id))
  {
    var menus := Select(db.menus, MenuOfBranch(branchId));
    var r := MenusByBranch(db, branchId);
    if menus != [] {
      var ids := MenuIds(menus);
      forall i | 0 <= i < |r| ensures r[i].items == Select(db.menuItems, ItemOfMenu(r[i].menu.id)) {
        var id := menus[i].id;
        assert id == ids[i];
        SelectFromFilter(db.menuItems, ItemInMenus(ids), ItemOfMenu(id), ItemOfMenu(id), 1);
      }
    }
  }

  /** A branch without menus yields [], whatever its items. */
  lemma NoMenusNoItems(db: Db, branchId: int)
    requires forall k :: k in db.menus.rows ==> db.menus.rows[k].branchId != branchId
    ensures MenusByBranch(db, branchId) == []
  {
    SelectFromNone(db.menus, MenuOfBranch(branchId), 1);
  }

  // ------------------------------------------------------ partial updates

  /** The columns `updateBranch` and `updateMenu` may set, in the order
      they are considered. */
  const BranchColumns: seq<string> := ["address", "active", "city", "avg_waiting_time"]
  const MenuColumns: seq<string> := ["name", "active"]

  /** The whitelisted keys the request defines (`data[key] !== undefined`),
      in whitelist order. */
  function Present(keys: seq<string>, data: map<string, SqlValue>): (r: seq<string>)
    ensures |r| <= |keys|
    ensures forall i :: 0 <= i < |r| ==> r[i] in data
  {
    if keys == [] then []
    else Present(keys[..|keys| - 1], data) + (if keys[|keys| - 1] in data then [keys[|keys| - 1]] else [])
  }

  function PresentValues(keys: seq<string>, data: map<string, SqlValue>): (vs: seq<SqlValue>)
    ensures |vs| == |Present(keys, data)|
    ensures forall i :: 0 <= i < |vs| ==> vs[i] == data[Present(keys, data)[i]]
  {
    var p := Present(keys, data);
    seq(|p|, i requires 0 <= i < |p| => data[p[i]])
  }

  function PresentPairs(keys: seq<string>, data: map<string, SqlValue>): (pairs: seq<(string, SqlValue)>)
    ensures |pairs| == |Present(keys, data)|
    ensures forall i :: 0 <= i < |pairs| ==> pairs[i] == (Present(keys, data)[i], data[Present(keys, data)[i]])
  {
    var p := Present(keys, data);
    seq(|p|, i requires 0 <= i < |p| => (p[i], data[p[i]]))
  }

  /** An UPDATE: its SET list, its parameters and the placeholder of the
      row id. */
  datatype SetStatement = SetStatement(sets: seq<Assignment>, params: seq<SqlValue>, idParam: int)

  /** The `fields`/`values` loop of both updates: the defined whitelisted
      keys are numbered $1.. in order, the id follows them, and no defined
      key means no statement. */
  method BuildWhitelistUpdate(keys: seq<string>, data: map<string, SqlValue>, id: int) returns (st: Option<SetStatement>)
    ensures st.None? <==> Present(keys, data) == []
    ensures st.Some? ==>
              var p := Present(keys, data);
              && |st.value.sets| == |p|
              && (forall i :: 0 <= i < |p| ==> st.value.sets[i] == Assignment(p[i], i + 1))
              && st.value.params == PresentValues(keys, data) + [SInt(id)]
              && st.value.idParam == |p| + 1
              && DecodeAssignments(st.value.sets, st.value.params) == Some(PresentPairs(keys, data))
              && Bound(st.value.params, st.value.idParam) == Some(SInt(id))
  {
    var fields, values := CollectPresent(keys, data);
    if fields == [] {
      return None;
    }
    var params := values + [SInt(id)];
    st := Some(SetStatement(fields, params, |fields| + 1));
    NumberedStatement(PresentPairs(keys, data), fields, params, SInt(id));
  }

  /** The loop itself: each defined whitelisted key, in order, gets the
      next placeholder and contributes its value. */
  method CollectPresent(keys: seq<string>, data: map<string, SqlValue>) returns (fields: seq<Assignment>, values: seq<SqlValue>)
    ensures |fields| == |Present(keys, data)|
    ensures forall i :: 0 <= i < |fields| ==> fields[i] == Assignment(Present(keys, data)[i], i + 1)
    ensures values == PresentValues(keys, data)
  {
    fields := [];
    values := [];
    var idx := 1;
    var n := 0;
    ghost var p: seq<string> := [];
    while n < |keys|
      invariant 0 <= n <= |keys| && p == Present(keys[..n], data)
      invariant idx == |p| + 1 && |fields| == |p| && |values| == |p|
      invariant forall i :: 0 <= i < |p| ==> fields[i] == Assignment(p[i], i + 1)
      invariant forall i :: 0 <= i < |p| ==> values[i] == data[p[i]]
    {
      var key := keys[n];
      PresentSnoc(keys, data, n);
      if key in data {
        fields := fields + [Assignment(key, idx)];
        values := values + [data[key]];
        idx := idx + 1;
        p := p + [key];
      }
      n := n + 1;
    }
    assert keys[..n] == keys;
  }

  /** A key takes part exactly when it is whitelisted and defined. */
  lemma {:induction false} PresentMembers(keys: seq<string>, data: map<string, SqlValue>, k: string)
    ensures k in Present(keys, data) <==> k in keys && k in data
  {
    if keys != [] {
      PresentMembers(keys[..|keys| - 1], data, k);
      assert keys == keys[..|keys| - 1] + [keys[|keys| - 1]];
    }
  }

  lemma PresentSnoc(keys: seq<string>, data: map<string, SqlValue>, n: int)
    requires 0 <= n < |keys|
    ensures Present(keys[..n + 1], data) == Present(keys[..n], data) + (if keys[n] in data then [keys[n]] else [])
  {
    assert keys[..n + 1][..n] == keys[..n];
  }

  /** The branch columns are considered in a fixed order, each exactly
      when the request defines it. */
  lemma BranchWhitelist(data: map<string, SqlValue>)
    ensures Present(BranchColumns, data)
            == (if "address" in data then ["address"] else [])
               + (if "active" in data then ["active"] else [])
               + (if "city" in data then ["city"] else [])
               + (if "avg_waiting_time" in data then ["avg_waiting_time"] else [])
  {
    var k1, k2, k3 := ["address"], ["address", "active"], ["address", "active", "city"];
    assert k1[..0] == [];
    assert Present(k1, data) == (if "address" in data then ["address"] else []);
    assert k2[..1] == k1;
    assert Present(k2, data) == Present(k1, data) + (if "active" in data then ["active"] else []);
    assert k3[..2] == k2;
    assert Present(k3, data) == Present(k2, data) + (if "city" in data then ["city"] else []);
    assert BranchColumns[..3] == k3;
    assert Present(BranchColumns, data) == Present(k3, data) + (if "avg_waiting_time" in data then ["avg_waiting_time"] else []);
  }

  lemma MenuWhitelist(data: map<string, SqlValue>)
    ensures Present(MenuColumns, data)
            == (if "name" in data then ["name"] else []) + (if "active" in data then ["active"] else [])
  {
    var k1 := ["name"];
    assert k1[..0] == [];
    assert Present(k1, data) == (if "name" in data then ["name"] else []);
    assert MenuColumns[..1] == k1;
    assert Present(MenuColumns, data) == Present(k1, data) + (if "active" in data then ["active"] else []);
  }

  /** Keys outside the whitelist take no part in the statement. */
  lemma {:induction false} PresentIgnoresOthers(keys: seq<string>, data: map<string, SqlValue>, other: string, v: SqlValue)
    requires other !in keys
    ensures Present(keys, data[other := v]) == Present(keys, data)
    ensures PresentPairs(keys, data[other := v]) == PresentPairs(keys, data)
  {
    if keys != [] {
      PresentIgnoresOthers(keys[..|keys| - 1], data, other, v);
    }
  }

  /** The store sets one branch column; a value the column's type does not
      take (null is taken by avg_waiting_time alone) is rejected. */
  function SetBranchColumn(b: Branch, column: string, v: SqlValue): Option<Branch> {
    if column == "address" && v.SStr? then Some(b.(address := v.s))
    else if column == "active" && v.SBool? then Some(b.(active := v.b))
    else if column == "city" && v.SStr? then Some(b.(city := v.s))
    else if column == "avg_waiting_time" && v.SInt? then Some(b.(avgWaitingTime := Some(v.i)))
    else if column == "avg_waiting_time" && v.SNull? then Some(b.(avgWaitingTime := None))
    else None
  }

  function SetBranchColumns(b: Branch, pairs: seq<(string, SqlValue)>): (r: Option<Branch>)
    ensures r.Some? ==> r.value.id == b.id && r.value.restaurantId == b.restaurantId
    decreases |pairs|
  {
    if pairs == [] then Some(b)
    else match SetBranchColumn(b, pairs[0].0, pairs[0].1)
      case None => None
      case Some(b1) => SetBranchColumns(b1, pairs[1..])
  }

  /** The store's code for a value of the wrong type. */
  const InvalidValue := "22P02"

  /** `updateBranch(id, data)`: nothing to set returns null and writes
      nothing; an unknown id returns nothing; otherwise the row gets the
      defined whitelisted columns. */
  function UpdateBranchEffect(db: Db, id: int, data: map<string, SqlValue>): (r: (Result<Option<Branch>>, Db))
    requires Valid(db)
    ensures Present(BranchColumns, data) == [] ==> r == (Ok(None), db)
    ensures id !in db.branches.rows ==> r == (Ok(None), db)
    ensures !(r.0.Ok? && r.0.value.Some?) ==> r.1 == db
    ensures Valid(r.1) && r.1.(branches := db.branches) == db
    ensures r.0.Ok? && r.0.value.Some? ==>
              && id in db.branches.rows
              && r.1.branches == db.branches.Put(id, r.0.value.value)
              && r.0.value.value.id == id && r.0.value.value.restaurantId == db.branches.rows[id].restaurantId
  {
    if Present(BranchColumns, data) == [] then (Ok(None), db)
    else match db.branches.Get(id)
      case None => (Ok(None), db)
      case Some(b) =>
        match SetBranchColumns(b, PresentPairs(BranchColumns, data))
        case None => (Err(StoreError(InvalidValue, "invalid input value")), db)
        case Some(b1) => (Ok(Some(b1)), db.(branches := db.branches.Put(id, b1)))
  }

  method UpdateBranch(s: Store, id: int, data: map<string, SqlValue>) returns (r: Result<Option<Branch>>)
    requires Valid(s.db)
    modifies s
    ensures (r, s.db) == UpdateBranchEffect(old(s.db), id, data)
  {
    var st := BuildWhitelistUpdate(BranchColumns, data, id);
    if st.None? {
      return Ok(None);
    }
    var e := UpdateBranchEffect(s.db, id, data);
    s.db := e.1;
    r := e.0;
  }

  /** The one-pair SET list of a key the request may define. */
  function Opt(key: string, data: map<string, SqlValue>): seq<(string, SqlValue)> {
    if key in data then [(key, data[key])] else []
  }

  /** A column is set to the request's value when the request defines it,
      and keeps its stored value otherwise. */
  predicate Takes(key: string, data: map<string, SqlValue>, v: SqlValue, stored: SqlValue) {
    if key in data then data[key] == v else v == stored
  }

  function AvgValue(a: Option<int>): SqlValue {
    match a
    case None => SNull
    case Some(i) => SInt(i)
  }

  /** A successful update sets each defined whitelisted column to its value
      and keeps every other column of the row. */
  lemma UpdateBranchColumns(db: Db, id: int, data: map<string, SqlValue>)
    requires Valid(db)
    requires UpdateBranchEffect(db, id, data).0.Ok? && UpdateBranchEffect(db, id, data).0.value.Some?
    ensures var b0 := db.branches.rows[id];
            var b := UpdateBranchEffect(db, id, data).0.value.value;
            && Takes("address", data, SStr(b.address), SStr(b0.address))
            && Takes("active", data, SBool(b.active), SBool(b0.active))
            && Takes("city", data, SStr(b.city), SStr(b0.city))
            && Takes("avg_waiting_time", data, AvgValue(b.avgWaitingTime), AvgValue(b0.avgWaitingTime))
  {
    BranchPairs(data);
    BranchSteps(db.branches.rows[id], data);
  }

  lemma BranchPairs(data: map<string, SqlValue>)
    ensures PresentPairs(BranchColumns, data)
            == Opt("address", data) + (Opt("active", data) + (Opt("city", data) + Opt("avg_waiting_time", data)))
  {
    BranchWhitelist(data);
  }

  /** Applying the four optional columns in order. */
  lemma BranchSteps(b0: Branch, data: map<string, SqlValue>)
    requires SetBranchColumns(b0, Opt("address", data) + (Opt("active", data) + (Opt("city", data) + Opt("avg_waiting_time", data)))).Some?
    ensures var b := SetBranchColumns(b0, Opt("address", data) + (Opt("active", data) + (Opt("city", data) + Opt("avg_waiting_time", data)))).value;
            && Takes("address", data, SStr(b.address), SStr(b0.address))
            && Takes("active", data, SBool(b.active), SBool(b0.active))
            && Takes("city", data, SStr(b.city), SStr(b0.city))
            && Takes("avg_waiting_time", data, AvgValue(b.avgWaitingTime), AvgValue(b0.avgWaitingTime))
  {
    var pa, pb, pc, pd := Opt("address", data), Opt("active", data), Opt("city", data), Opt("avg_waiting_time", data);
    SetColumnsAppend(b0, pa, pb + (pc + pd));
    var b1 := SetBranchColumns(b0, pa).value;
    SetColumnsAppend(b1, pb, pc + pd);
    var b2 := SetBranchColumns(b1, pb).value;
    SetColumnsAppend(b2, pc, pd);
    var b3 := SetBranchColumns(b2, pc).value;
    var b4 := SetBranchColumns(b3, pd).value;
    OptStep(b0, "address", data);
    OptStep(b1, "active", data);
    OptStep(b2, "city", data);
    OptStep(b3, "avg_waiting_time", data);
  }

  /** An optional column is one SET step when defined, no step otherwise. */
  lemma OptColumn(b: Branch, key: string, data: map<string, SqlValue>)
    ensures SetBranchColumns(b, Opt(key, data)) == if key in data then SetBranchColumn(b, key, data[key]) else Some(b)
  {
    if key in data {
      assert Opt(key, data)[1..] == [];
    }
  }

  /** One optional step sets its own column as `Takes` says and keeps the
      other three. */
  lemma OptStep(b: Branch, key: string, data: map<string, SqlValue>)
    requires SetBranchColumns(b, Opt(key, data)).Some?
    ensures var b1 := SetBranchColumns(b, Opt(key, data)).value;
            && (key != "address" ==> b1.address == b.address)
            && (key != "active" ==> b1.active == b.active)
            && (key != "city" ==> b1.city == b.city)
            && (key != "avg_waiting_time" ==> b1.avgWaitingTime == b.avgWaitingTime)
            && (key == "address" ==> Takes(key, data, SStr(b1.address), SStr(b.address)))
            && (key == "active" ==> Takes(key, data, SBool(b1.active), SBool(b.active)))
            && (key == "city" ==> Takes(key, data, SStr(b1.city), SStr(b.city)))
            && (key == "avg_waiting_time" ==> Takes(key, data, AvgValue(b1.avgWaitingTime), AvgValue(b.avgWaitingTime)))
  {
    OptColumn(b, key, data);
  }

  /** Setting columns in two batches is setting them all. */
  lemma {:induction false} SetColumnsAppend(b: Branch, xs: seq<(string, SqlValue)>, ys: seq<(string, SqlValue)>)
    ensures SetBranchColumns(b, xs + ys)
            == match SetBranchColumns(b, xs) case None => None case Some(b1) => SetBranchColumns(b1, ys)
    decreases |xs|
  {
    if xs == [] {
      assert xs + ys == ys;
    } else {
      assert (xs + ys)[0] == xs[0] && (xs + ys)[1..] == xs[1..] + ys;
      match SetBranchColumn(b, xs[0].0, xs[0].1)
      case None =>
      case Some(b1) => SetColumnsAppend(b1, xs[1..], ys);
    }
  }

  /** The store sets one menu column. */
  function SetMenuColumn(m: Menu, column: string, v: SqlValue): Option<Menu> {
    if column == "name" && v.SStr? then Some(m.(name := v.s))
    else if column == "active" && v.SBool? then Some(m.(active := v.b))
    else None
  }

  function SetMenuColumns(m: Menu, pairs: seq<(string, SqlValue)>): (r: Option<Menu>)
    ensures r.Some? ==> r.value.id == m.id && r.value.branchId == m.branchId
    decreases |pairs|
  {
    if pairs == [] then Some(m)
    else match SetMenuColumn(m, pairs[0].0, pairs[0].1)
      case None => None
      case Some(m1) => SetMenuColumns(m1, pairs[1..])
  }

  /** `updateMenu(menuId, data)`, with the same shape as `updateBranch`
      over the columns name and active. */
  function UpdateMenuEffect(db: Db, menuId: int, data: map<string, SqlValue>): (r: (Result<Option<Menu>>, Db))
    requires Valid(db)
    ensures Present(MenuColumns, data) == [] ==> r == (Ok(None), db)
    ensures menuId !in db.menus.rows ==> r == (Ok(None), db)
    ensures !(r.0.Ok? && r.0.value.Some?) ==> r.1 == db
    ensures Valid(r.1) && r.1.(menus := db.menus) == db
    ensures r.0.Ok? && r.0.value.Some? ==>
              && menuId in db.menus.rows
              && r.1.menus == db.menus.Put(menuId, r.0.value.value)
              && r.0.value.value.id == menuId && r.0.value.value.branchId == db.menus.rows[menuId].branchId
  {
    if Present(MenuColumns, data) == [] then (Ok(None), db)
    else match db.menus.Get(menuId)
      case None => (Ok(None), db)
      case Some(m) =>
        match SetMenuColumns(m, PresentPairs(MenuColumns, data))
        case None => (Err(StoreError(InvalidValue, "invalid input value")), db)
        case Some(m1) => (Ok(Some(m1)), db.(menus := db.menus.Put(menuId, m1)))
  }

  method UpdateMenu(s: Store, menuId: int, data: map<string, SqlValue>) returns (r: Result<Option<Menu>>)
    requires Valid(s.db)
    modifies s
    ensures (r, s.db) == UpdateMenuEffect(old(s.db), menuId, data)
  {
    var st := BuildWhitelistUpdate(MenuColumns, data, menuId);
    if st.None? {
      return Ok(None);
    }
    var e := UpdateMenuEffect(s.db, menuId, data);
    s.db := e.1;
    r := e.0;
  }

  /** A successful menu update sets the defined columns and keeps the
      rest. */
  lemma UpdateMenuColumns(db: Db, menuId: int, data: map<string, SqlValue>)
    requires Valid(db)
    requires UpdateMenuEffect(db, menuId, data).0.Ok? && UpdateMenuEffect(db, menuId, data).0.value.Some?
    ensures var m0 := db.menus.rows[menuId];
            var m := UpdateMenuEffect(db, menuId, data).0.value.value;
            && Takes("name", data, SStr(m.name), SStr(m0.name))
            && Takes("active", data, SBool(m.active), SBool(m0.active))
  {
    MenuWhitelist(data);
    var pa, pb := Opt("name", data), Opt("active", data);
    assert PresentPairs(MenuColumns, data) == pa + pb;
    var m0 := db.menus.rows[menuId];
    SetMenuColumnsAppend(m0, pa, pb);
    var m1 := SetMenuColumns(m0, pa).value;
    assert m1.active == m0.active;
  }

  lemma {:induction false} SetMenuColumnsAppend(m: Menu, xs: seq<(string, SqlValue)>, ys: seq<(string, SqlValue)>)
    ensures SetMenuColumns(m, xs + ys)
            == match SetMenuColumns(m, xs) case None => None case Some(m1) => SetMenuColumns(m1, ys)
    decreases |xs|
  {
    if xs == [] {
      assert xs + ys == ys;
    } else {
      assert (xs + ys)[0] == xs[0] && (xs + ys)[1..] == xs[1..] + ys;
      match SetMenuColumn(m, xs[0].0, xs[0].1)
      case None =>
      case Some(m1) => SetMenuColumnsAppend(m1, xs[1..], ys);
    }
  }

  // ------------------------------------------------------------ deletion

  /** `deleteMenuItems(ids)`: an empty list issues no statement. */
  function DeleteMenuItemsEffect(db: Db, ids: seq<int>): (d: Db)
    requires Valid(db)
    ensures ids == [] ==> d == db
    ensures Valid(d) && d.(menuItems := db.menuItems) == db
    ensures d.menuItems.rows.Keys == db.menuItems.rows.Keys - set i | i in ids
    ensures forall k :: k in d.menuItems.rows ==> d.menuItems.rows[k] == db.menuItems.rows[k]
  {
    if ids == [] then db
    else db.(menuItems := db.menuItems.Remove(set i | i in ids))
  }

  method DeleteMenuItems(s: Store, ids: seq<int>)
    requires Valid(s.db)
    modifies s
    ensures s.db == DeleteMenuItemsEffect(old(s.db), ids)
  {
    if |ids| == 0 {
      return;
    }
    s.db := DeleteMenuItemsEffect(s.db, ids);
  }

  /** After the deletion no listed item remains and every unlisted item is
      still there. */
  lemma DeletedExactly(db: Db, ids: seq<int>, k: int)
    requires Valid(db)
    ensures k in ids ==> k !in DeleteMenuItemsEffect(db, ids).menuItems.rows
    ensures k !in ids && k in db.menuItems.rows ==>
              k in DeleteMenuItemsEffect(db, ids).menuItems.rows
              && DeleteMenuItemsEffect(db, ids).menuItems.rows[k] == db.menuItems.rows[k]
  {
  }
}
