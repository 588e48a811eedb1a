/** The role gate placed in front of a route: it lets a request through only for an
    authenticated user whose role is one of the listed ones. */
module RoleAuth {
  import opened Wrappers

  /** The identity the token middleware attaches to a request. */
  datatype User = User(id: string, role: string)

  /** `Denied` is answered with 403 "Access denied. Insufficient role." */
  datatype Access = Proceed | Denied

  /** `Array.prototype.includes` on a list of role names. */
  function Includes(roles: seq<string>, role: string): (r: bool)
    ensures r <==> role in roles
  {
    if roles == [] then false else roles[0] == role || Includes(roles[1..], role)
  }

  function AuthorizeRoles(allowedRoles: seq<string>, user: Option<User>): (r: Access)
    ensures r == Proceed <==> user.Some? && user.value.role in allowedRoles
  {
    if user.None? || !Includes(allowedRoles, user.value.role) then Denied else Proceed
  }

  /** Without an authenticated user the gate denies, whatever roles it allows. */
  lemma NoUserDenied(allowedRoles: seq<string>)
    ensures AuthorizeRoles(allowedRoles, None) == Denied
  {
  }

  /** A gate that lists no role denies every caller. */
  lemma EmptyRolesDenyAll(user: Option<User>)
    ensures AuthorizeRoles([], user) == Denied
  {
  }

  /** Listing more roles never shuts out a caller who was let through. */
  lemma MoreRolesAdmitMore(allowed: seq<string>, extra: seq<string>, user: Option<User>)
    requires AuthorizeRoles(allowed, user) == Proceed
    ensures AuthorizeRoles(allowed + extra, user) == Proceed
  {
  }
}
