/** The roles guard: it lets a request through when the route declares no
    roles, or when the user holds one of the declared roles; otherwise it
    raises Forbidden.  It never answers "no" by returning false. */
module RolesGuard {
  import opened Results
  import opened RolesDecorator

  /** The role claim on the authenticated user: one role, a list of roles, or
      none at all. */
  datatype RoleClaim = SingleRole(role: Role) | RoleList(roles: seq<Role>) | NoRole

  /** One required role is satisfied by the claim. */
  predicate Matches(required: Role, claim: RoleClaim)
  {
    match claim
    case SingleRole(r) => r == required
    case RoleList(rs) => required in rs
    case NoRole => false
  }

  /** The declared roles: the handler's take precedence over the class's. */
  function RequiredRoles(handler: Metadata, cls: Metadata): (r: Option<seq<Role>>)
    ensures RolesKey in handler ==> r == Some(handler[RolesKey])
    ensures RolesKey !in handler && RolesKey in cls ==> r == Some(cls[RolesKey])
    ensures RolesKey !in handler && RolesKey !in cls ==> r == None
  {
    if RolesKey in handler then Some(handler[RolesKey])
    else if RolesKey in cls then Some(cls[RolesKey])
    else None
  }

  /** Some required role is matched, checked left to right. */
  function AnyMatches(required: seq<Role>, claim: RoleClaim): (b: bool)
    ensures b <==> exists i :: 0 <= i < |required| && Matches(required[i], claim)
  {
    if required == [] then false
    else
      var rest := AnyMatches(required[1..], claim);
      assert forall i :: 0 <= i < |required[1..]| ==> required[1..][i] == required[i + 1];
      Matches(required[0], claim) || rest
  }

  /** The guard's decision. */
  function CanActivate(handler: Metadata, cls: Metadata, claim: RoleClaim): (r: Result<bool>)
    ensures r.Ok? ==> r.value
    ensures r.Err? ==> r.error == Forbidden
    ensures var req := RequiredRoles(handler, cls);
            req.None? || req.value == [] ==> r == Ok(true)
    ensures var req := RequiredRoles(handler, cls);
            claim.RoleList? && req.Some? && req.value != [] ==>
              (r.Ok? <==> exists role :: role in req.value && role in claim.roles)
    ensures var req := RequiredRoles(handler, cls);
            claim.SingleRole? && req.Some? && req.value != [] ==>
              (r.Ok? <==> claim.role in req.value)
    ensures var req := RequiredRoles(handler, cls);
            claim.NoRole? && req.Some? && req.value != [] ==> r == Err(Forbidden)
  {
    var required := RequiredRoles(handler, cls);
    if required.None? || |required.value| == 0 then Ok(true)
    else if !AnyMatches(required.value, claim) then Err(Forbidden)
    else Ok(true)
  }

  /** Once the handler declares roles, the class's declaration is irrelevant. */
  lemma HandlerOverridesClass(handler: Metadata, cls1: Metadata, cls2: Metadata, claim: RoleClaim)
    requires RolesKey in handler
    ensures CanActivate(handler, cls1, claim) == CanActivate(handler, cls2, claim)
  {
  }

  /** A handler decorated with the roles decorator admits a user holding role
      x exactly when the decorator was given no roles or some argument
      contributes x; in particular Roles(R) and Roles([R]) admit the same
      users. */
  lemma DecoratedHandler(args: seq<RoleArg>, cls: Metadata, x: Role)
    ensures CanActivate(Roles(args), cls, SingleRole(x)).Ok?
            <==> Flatten(args) == [] || exists i :: 0 <= i < |args| && x in Contribution(args[i])
  {
  }
}
