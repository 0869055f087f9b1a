/** The order router: which guards run before each order handler. */
module OrderRoutes {
  import opened Common
  import opened Json
  import opened Jwt
  import opened AuthMiddleware

  datatype OrderEndpoint =
    | CreateEndpoint | ListEndpoint | GetEndpoint
    | AcceptEndpoint | PreparedEndpoint | SentEndpoint | DeliveredEndpoint | PaidEndpoint
    | CancelEndpoint

  /** The roles `authorizeRoles` is given on each route; None where the
      route only authenticates. */
  function RequiredRoles(e: OrderEndpoint): (r: Option<seq<string>>)
    ensures r.Some? ==> r.value != [] && forall x :: x in r.value ==> x in ["customer", "restaurant_owner", "admin"]
    ensures (r.Some? && "customer" in r.value) <==> e == CreateEndpoint
  {
    match e
    case CreateEndpoint => Some(["customer"])
    case ListEndpoint => None
    case GetEndpoint => None
    case AcceptEndpoint => Some(["restaurant_owner", "admin"])
    case PreparedEndpoint => Some(["restaurant_owner"])
    case SentEndpoint => Some(["restaurant_owner"])
    case DeliveredEndpoint => Some(["restaurant_owner"])
    case PaidEndpoint => Some(["restaurant_owner"])
    case CancelEndpoint => None
  }

  /** The middleware chain of a route: authenticate, then, where the route
      names roles, authorize. */
  function Admit(p: Primitives, secret: string, e: OrderEndpoint, header: Option<string>, now: Time): (r: Result<Gate>)
    ensures AuthenticateToken(p, secret, header, now).Err? ==> r == AuthenticateToken(p, secret, header, now)
    ensures r.Ok? && r.value.Pass? ==> AuthenticateToken(p, secret, header, now) == Ok(Pass(r.value.user))
  {
    var g :- AuthenticateToken(p, secret, header, now);
    if g.Reject? || RequiredRoles(e).None? then Ok(g)
    else Ok(AuthorizeRoles(Some(g.user), RequiredRoles(e).value))
  }

  /** The caller's role, when the token authenticates. */
  function AuthenticatedRole(p: Primitives, secret: string, header: Option<string>, now: Time): Option<string> {
    var a := AuthenticateToken(p, secret, header, now);
    if a.Ok? && a.value.Pass? then RoleText(a.value.user) else None
  }

  /** A route admits exactly the authenticated callers whose role it lists,
      and every authenticated caller where it lists none. */
  lemma AdmitExactly(p: Primitives, secret: string, e: OrderEndpoint, header: Option<string>, now: Time)
    ensures var a := AuthenticateToken(p, secret, header, now);
            (Admit(p, secret, e, header, now).Ok? && Admit(p, secret, e, header, now).value.Pass?) <==>
              a.Ok? && a.value.Pass? &&
              (RequiredRoles(e).None? ||
                 (AuthenticatedRole(p, secret, header, now).Some? &&
                  AuthenticatedRole(p, secret, header, now).value in RequiredRoles(e).value))
  {
    var a := AuthenticateToken(p, secret, header, now);
    if a.Ok? && a.value.Pass? && RequiredRoles(e).Some? {
      AdmitAuthorizes(p, secret, e, header, now, a.value.user);
      assert Truthy(a.value.user);
    }
  }

  /** Only a customer may create an order. */
  lemma OnlyCustomersCreate(p: Primitives, secret: string, header: Option<string>, now: Time)
    requires Admit(p, secret, CreateEndpoint, header, now).Ok? && Admit(p, secret, CreateEndpoint, header, now).value.Pass?
    ensures RoleOf(Admit(p, secret, CreateEndpoint, header, now).value.user) == Customer
  {
  }

  /** Accepting is open to restaurant owners and admins; the other status
      actions to restaurant owners only, so an authenticated admin is
      refused with 403 before any handler runs. */
  lemma TransitionRoles(p: Primitives, secret: string, e: OrderEndpoint, header: Option<string>, now: Time)
    requires e in {PreparedEndpoint, SentEndpoint, DeliveredEndpoint, PaidEndpoint}
    ensures Admit(p, secret, e, header, now).Ok? && Admit(p, secret, e, header, now).value.Pass? ==>
              RoleOf(Admit(p, secret, e, header, now).value.user) == RestaurantOwner
    ensures AuthenticatedRole(p, secret, header, now) == Some("admin") ==>
              Admit(p, secret, e, header, now) == Ok(Reject(403, "Forbidden: insufficient permissions"))
    ensures AuthenticatedRole(p, secret, header, now) == Some("admin") ==>
              Admit(p, secret, AcceptEndpoint, header, now).Ok? && Admit(p, secret, AcceptEndpoint, header, now).value.Pass?
  {
    var a := AuthenticateToken(p, secret, header, now);
    if a.Ok? && a.value.Pass? {
      OwnerOnly(p, secret, e, header, now, a.value.user);
      AdminAccepts(p, secret, header, now, a.value.user);
    }
  }

  lemma OwnerOnly(p: Primitives, secret: string, e: OrderEndpoint, header: Option<string>, now: Time, u: JsonValue)
    requires e in {PreparedEndpoint, SentEndpoint, DeliveredEndpoint, PaidEndpoint}
    requires AuthenticateToken(p, secret, header, now) == Ok(Pass(u))
    ensures Admit(p, secret, e, header, now).Ok?
    ensures Admit(p, secret, e, header, now).value.Pass? ==> RoleOf(u) == RestaurantOwner
    ensures RoleText(u) == Some("admin") ==> Admit(p, secret, e, header, now) == Ok(Reject(403, "Forbidden: insufficient permissions"))
  {
    OwnerRoles(e);
    AdmitAuthorizes(p, secret, e, header, now, u);
    assert Truthy(u);
  }

  lemma OwnerRoles(e: OrderEndpoint)
    requires e in {PreparedEndpoint, SentEndpoint, DeliveredEndpoint, PaidEndpoint}
    ensures RequiredRoles(e) == Some(["restaurant_owner"])
  {
  }

  lemma AdminAccepts(p: Primitives, secret: string, header: Option<string>, now: Time, u: JsonValue)
    requires AuthenticateToken(p, secret, header, now) == Ok(Pass(u))
    ensures RoleText(u) == Some("admin") ==> Admit(p, secret, AcceptEndpoint, header, now) == Ok(Pass(u))
  {
    AdmitAuthorizes(p, secret, AcceptEndpoint, header, now, u);
    assert Truthy(u);
  }

  /** Past authentication, a route with roles is exactly `authorizeRoles`
      on the payload. */
  lemma AdmitAuthorizes(p: Primitives, secret: string, e: OrderEndpoint, header: Option<string>, now: Time, u: JsonValue)
    requires AuthenticateToken(p, secret, header, now) == Ok(Pass(u)) && RequiredRoles(e).Some?
    ensures Admit(p, secret, e, header, now) == Ok(AuthorizeRoles(Some(u), RequiredRoles(e).value))
  {
  }

  /** Listing, reading and cancelling only authenticate; the handler
      applies the per-role rules. */
  lemma AuthenticationOnly(p: Primitives, secret: string, e: OrderEndpoint, header: Option<string>, now: Time)
    requires e in {ListEndpoint, GetEndpoint, CancelEndpoint}
    ensures Admit(p, secret, e, header, now) == AuthenticateToken(p, secret, header, now)
  {
  }
}
