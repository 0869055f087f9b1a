/** The restaurant handlers: creating a restaurant for an existing
    restaurant owner, reading one, and listing its branches. A body that
    fails its schema arrives as the ZodError the parse throws. */
module RestaurantController {
  import opened Common
  import opened Tables
  import opened Entities
  import opened UserRepository

  /** The parsed body of `POST /restaurants`. */
  datatype NewRestaurant = NewRestaurant(userId: int, name: string, description: Option<string>)

  /** The repository's `createRestaurant`: `description || null`. */
  function InsertRestaurant(db: Db, n: NewRestaurant): (r: (Restaurant, Db))
    requires Valid(db)
    ensures Valid(r.1) && r.1.(restaurants := db.restaurants) == db
    ensures r.0.id !in db.restaurants.rows && r.1.restaurants.rows == db.restaurants.rows[r.0.id := r.0]
    ensures r.0.userId == n.userId && r.0.name == n.name
    ensures r.0.description.None? <==> n.description.None? || n.description == Some("")
    ensures r.0.description.Some? ==> r.0.description == n.description
  {
    var description := if n.description.None? || n.description.value == "" then None else n.description;
    var rest := Restaurant(db.restaurants.next, n.userId, n.name, description);
    (rest, db.(restaurants := db.restaurants.Insert(rest)))
  }

  const MustBeOwner := "User must have role restaurant_owner"

  /** `createRestaurant`: the user must exist and have the restaurant owner
      role; only then is the row written. */
  function CreateRestaurantOutcome(db: Db, body: Result<NewRestaurant>): (r: (Result<Restaurant>, Db))
    requires Valid(db)
    ensures r.0.Err? ==> r.1 == db
    ensures Valid(r.1)
  {
    match body
    case Err(e) => (Err(e), db)
    case Ok(n) =>
      match GetUserById(db, n.userId)
      case None => (Err(NotFoundError("User not found")), db)
      case Some(u) =>
        if u.role != "restaurant_owner" then (Err(AppError(MustBeOwner, 400, Authorization)), db)
        else
          var (rest, d) := InsertRestaurant(db, n);
          (Ok(rest), d)
  }

  method CreateRestaurant(s: Store, body: Result<NewRestaurant>) returns (r: Result<Restaurant>)
    requires Valid(s.db)
    modifies s
    ensures (r, s.db) == CreateRestaurantOutcome(old(s.db), body)
  {
    if body.Err? {
      return Err(body.error);
    }
    var u := GetUserById(s.db, body.value.userId);
    if u.None? {
      return Err(NotFoundError("User not found"));
    }
    if u.value.role != "restaurant_owner" {
      return Err(AppError(MustBeOwner, 400, Authorization));
    }
    var e := InsertRestaurant(s.db, body.value);
    s.db := e.1;
    r := Ok(e.0);
  }

  /** An unknown user is 404 and a user of another role 400, both with
      nothing written; a restaurant owner gets a new restaurant of theirs. */
  lemma CreateRestaurantGuards(db: Db, n: NewRestaurant)
    requires Valid(db)
    ensures var (r, d) := CreateRestaurantOutcome(db, Ok(n));
            && (n.userId !in db.users.rows ==> r == Err(NotFoundError("User not found")) && d == db)
            && (n.userId in db.users.rows && db.users.rows[n.userId].role != "restaurant_owner" ==>
                  r == Err(AppError(MustBeOwner, 400, Authorization)) && d == db)
            && (n.userId in db.users.rows && db.users.rows[n.userId].role == "restaurant_owner" ==>
                  && r.Ok? && r.value.userId == n.userId && r.value.name == n.name
                  && r.value.id !in db.restaurants.rows
                  && d.restaurants.rows == db.restaurants.rows[r.value.id := r.value])
  {
  }

  /** `getRestaurantById`: 404 when the restaurant does not exist. */
  function GetRestaurantById(db: Db, id: int): (r: Result<Restaurant>)
    ensures r.Ok? <==> id in db.restaurants.rows
    ensures r.Ok? ==> r.value == db.restaurants.rows[id]
    ensures r.Err? ==> r.error == NotFoundError("Restaurant not found")
  {
    match db.restaurants.Get(id)
    case None => Err(NotFoundError("Restaurant not found"))
    case Some(rest) => Ok(rest)
  }

  datatype RestaurantBranches = RestaurantBranches(restaurant: Restaurant, branches: seq<Branch>)

  function BranchOfRestaurant(id: int): Branch -> bool {
    (b: Branch) => b.restaurantId == id
  }

  /** `getBranchesByRestaurantId`: 404 before any branch lookup when the
      restaurant is missing; otherwise the restaurant with its branches,
      newest first. */
  function GetBranchesByRestaurantId(db: Db, id: int): (r: Result<RestaurantBranches>)
    ensures r.Err? <==> id !in db.restaurants.rows
    ensures r.Err? ==> r.error == NotFoundError("Restaurant not found")
    ensures r.Ok? ==> r.value.restaurant == db.restaurants.rows[id]
  {
    var rest :- GetRestaurantById(db, id);
    Ok(RestaurantBranches(rest, Reversed(Select(db.branches, BranchOfRestaurant(id)))))
  }

  /** The listed branches are exactly the stored branches of the
      restaurant. */
  lemma BranchesOfRestaurant(db: Db, id: int, b: Branch)
    requires Valid(db) && id in db.restaurants.rows
    ensures b in GetBranchesByRestaurantId(db, id).value.branches <==>
              (exists k :: k in db.branches.rows && db.branches.rows[k] == b) && b.restaurantId == id
  {
    ReversedMember(Select(db.branches, BranchOfRestaurant(id)), b);
    SelectMember(db.branches, BranchOfRestaurant(id), b);
  }

  /** They are listed newest first. */
  lemma BranchesNewestFirst(db: Db, id: int)
    requires Valid(db) && id in db.restaurants.rows
    ensures var bs := GetBranchesByRestaurantId(db, id).value.branches;
            forall i, j :: 0 <= i < j < |bs| ==> bs[i].id > bs[j].id
  {
    var sel := Select(db.branches, BranchOfRestaurant(id));
    var bs := Reversed(sel);
    SelectFromSorted(db.branches, BranchOfRestaurant(id), 1, (b: Branch) => b.id);
    forall i, j | 0 <= i < j < |bs| ensures bs[i].id > bs[j].id {
      assert bs[i] == sel[|sel| - 1 - i] && bs[j] == sel[|sel| - 1 - j];
    }
  }
}
