/** The branch handlers: creating a branch of an owned restaurant, creating
    a menu with its items in an owned branch, and listing a branch's menus.
    Existence is checked before ownership. A body that fails its schema
    arrives as the ZodError the parse throws. */
module BranchController {
  import opened Common
  import opened Tables
  import opened Entities
  import opened BranchRepository

  const NotOwner := "You are not the owner of this restaurant"

  /** `createBranch`: the restaurant must exist and belong to the caller. */
  function CreateBranchOutcome(db: Db, user: Principal, body: Result<NewBranch>): (r: (Result<Branch>, Db))
    requires Valid(db)
    ensures r.0.Err? ==> r.1 == db
    ensures Valid(r.1)
  {
    match body
    case Err(e) => (Err(e), db)
    case Ok(n) =>
      match db.restaurants.Get(n.restaurantId)
      case None => (Err(NotFoundError("Restaurant not found")), db)
      case Some(rest) =>
        if rest.userId != user.userId then (Err(AppError(NotOwner, 403, Authorization)), db)
        else
          var (b, d) := InsertBranch(db, n);
          (Ok(b), d)
  }

  method CreateBranch(s: Store, user: Principal, body: Result<NewBranch>) returns (r: Result<Branch>)
    requires Valid(s.db)
    modifies s
    ensures (r, s.db) == CreateBranchOutcome(old(s.db), user, body)
  {
    if body.Err? {
      return Err(body.error);
    }
    var rest := s.db.restaurants.Get(body.value.restaurantId);
    if rest.None? {
      return Err(NotFoundError("Restaurant not found"));
    }
    if rest.value.userId != user.userId {
      return Err(AppError(NotOwner, 403, Authorization));
    }
    var b := BranchRepository.CreateBranch(s, body.value);
    r := Ok(b);
  }

  /** A missing restaurant is 404 whoever asks; an existing one owned by
      someone else is 403; both write nothing. The owner gets a new branch
      of that restaurant. */
  lemma CreateBranchGuards(db: Db, user: Principal, n: NewBranch)
    requires Valid(db)
    ensures var (r, d) := CreateBranchOutcome(db, user, Ok(n));
            && (n.restaurantId !in db.restaurants.rows ==> r == Err(NotFoundError("Restaurant not found")) && d == db)
            && (n.restaurantId in db.restaurants.rows && db.restaurants.rows[n.restaurantId].userId != user.userId ==>
                  r == Err(AppError(NotOwner, 403, Authorization)) && d == db)
            && (n.restaurantId in db.restaurants.rows && db.restaurants.rows[n.restaurantId].userId == user.userId ==>
                  && r.Ok? && r.value.restaurantId == n.restaurantId
                  && r.value.id !in db.branches.rows
                  && d.branches.rows == db.branches.rows[r.value.id := r.value])
  {
  }

  /** The parsed body of `POST /branches/:id/menus`; absent items are []. */
  datatype NewMenu = NewMenu(name: string, items: seq<MenuItemInput>)

  datatype MenuCreated = MenuCreated(menu: Menu, items: seq<MenuItem>)

  /** `createMenuWithItems`: the branch's owner chain must exist and end at
      the caller; then the menu is created, then its items under the new
      menu's id. */
  function CreateMenuWithItemsOutcome(db: Db, user: Principal, branchId: int, body: Result<NewMenu>): (r: (Result<MenuCreated>, Db))
    requires Valid(db)
    ensures r.0.Err? ==> r.1 == db
    ensures Valid(r.1)
  {
    match body
    case Err(e) => (Err(e), db)
    case Ok(nm) =>
      match GetBranchWithOwner(db, branchId)
      case None => (Err(NotFoundError("Branch not found")), db)
      case Some(bo) =>
        if bo.ownerId != user.userId then (Err(AppError(NotOwner, 403, Authorization)), db)
        else
          var (m, d1) := InsertMenu(db, branchId, nm.name);
          var (items, d2) := InsertMenuItems(d1, m.id, nm.items);
          (Ok(MenuCreated(m, items)), d2)
  }

  method CreateMenuWithItems(s: Store, user: Principal, branchId: int, body: Result<NewMenu>) returns (r: Result<MenuCreated>)
    requires Valid(s.db)
    modifies s
    ensures (r, s.db) == CreateMenuWithItemsOutcome(old(s.db), user, branchId, body)
  {
    if body.Err? {
      return Err(body.error);
    }
    var bo := GetBranchWithOwner(s.db, branchId);
    if bo.None? {
      return Err(NotFoundError("Branch not found"));
    }
    if bo.value.ownerId != user.userId {
      return Err(AppError(NotOwner, 403, Authorization));
    }
    var m := BranchRepository.CreateMenu(s, branchId, body.value.name);
    var items := BranchRepository.CreateMenuItems(s, m.id, body.value.items);
    r := Ok(MenuCreated(m, items));
  }

  /** A broken owner chain is 404 whoever asks, another owner's branch is
      403, both with nothing written. The owner gets a new active menu of
      that branch and one item per requested item, all under that menu. */
  lemma CreateMenuGuards(db: Db, user: Principal, branchId: int, nm: NewMenu)
    requires Valid(db)
    ensures var (r, d) := CreateMenuWithItemsOutcome(db, user, branchId, Ok(nm));
            var bo := GetBranchWithOwner(db, branchId);
            && (bo.None? ==> r == Err(NotFoundError("Branch not found")) && d == db)
            && (bo.Some? && bo.value.ownerId != user.userId ==> r == Err(AppError(NotOwner, 403, Authorization)) && d == db)
            && (bo.Some? && bo.value.ownerId == user.userId ==>
                  && r.Ok? && r.value.menu.branchId == branchId && r.value.menu.name == nm.name && r.value.menu.active
                  && r.value.menu.id !in db.menus.rows && d.menus.rows == db.menus.rows[r.value.menu.id := r.value.menu]
                  && |r.value.items| == |nm.items|
                  && (forall i :: 0 <= i < |nm.items| ==>
                        r.value.items[i].menuId == r.value.menu.id && r.value.items[i].name == nm.items[i].name
                        && r.value.items[i].id !in db.menuItems.rows
                        && d.menuItems.rows[r.value.items[i].id] == r.value.items[i]))
  {
    var bo := GetBranchWithOwner(db, branchId);
    if bo.Some? && bo.value.ownerId == user.userId {
      var (m, d1) := InsertMenu(db, branchId, nm.name);
      CreatedMenuItems(d1, m.id, nm.items);
    }
  }

  /** `getMenusWithItems`: 404 when the branch lists no menus. */
  function MenusWithItemsOutcome(db: Db, branchId: int): (r: Result<seq<MenuWithItems>>)
    ensures r.Err? <==> MenusByBranch(db, branchId) == []
    ensures r.Err? ==> r.error == NotFoundError("No menus found for this branch")
    ensures r.Ok? ==> r.value == MenusByBranch(db, branchId)
  {
    var menus := MenusByBranch(db, branchId);
    if |menus| == 0 then Err(NotFoundError("No menus found for this branch")) else Ok(menus)
  }

  method GetMenusWithItems(s: Store, branchId: int) returns (r: Result<seq<MenuWithItems>>)
    ensures r == MenusWithItemsOutcome(s.db, branchId)
  {
    var menus := GetAllMenusByBranch(s, branchId);
    if |menus| == 0 {
      return Err(NotFoundError("No menus found for this branch"));
    }
    r := Ok(menus);
  }

  /** The branch is not looked up: an unknown branch and a branch without
      menus are both answered 404 with the same message. */
  lemma NoMenusIsNotFound(db: Db, branchId: int)
    requires forall k :: k in db.menus.rows ==> db.menus.rows[k].branchId != branchId
    ensures MenusWithItemsOutcome(db, branchId) == Err(NotFoundError("No menus found for this branch"))
  {
    NoMenusNoItems(db, branchId);
  }
}
