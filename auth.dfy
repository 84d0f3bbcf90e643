/**
 * The frontend role hierarchy (sistema-paineis-tv/src/contexts/AuthContext.tsx):
 * a user role grants a required role when it sits at least as high in the
 * hierarchy admin > user = usuario > anything else.
 */
module Auth {
  import opened Text

  /** The logged-in user as the provider keeps it; only the role matters here. */
  datatype User = User(name: string, role: string)

  /** `roleHierarchy[role] || 0`. */
  function Level(role: string): (level: nat)
    ensures level <= 2
    ensures level == 2 <==> role == "admin"
    ensures level == 1 <==> role == "user" || role == "usuario"
  {
    if role == "admin" then 2
    else if role == "user" || role == "usuario" then 1
    else 0
  }

  /** `hasPermission(userRole, requiredRole)`. */
  predicate HasPermission(userRole: string, requiredRole: string)
  {
    Level(userRole) >= Level(requiredRole)
  }

  /** `hasRole(role)` for the current user, or no user. */
  predicate HasRole(user: Option<User>, role: string)
  {
    user.Some? && HasPermission(user.value.role, role)
  }

  /** Every role satisfies itself, admin satisfies every role, and the two
      spellings of the ordinary user role are interchangeable. */
  lemma PermissionBasics(role: string, required: string)
    ensures HasPermission(role, role)
    ensures HasPermission("admin", required)
    ensures HasPermission("user", required) <==> HasPermission("usuario", required)
    ensures HasPermission(required, "user") <==> HasPermission(required, "usuario")
  {
  }

  /** A role outside the hierarchy: neither admin nor an ordinary user. */
  predicate Unknown(role: string)
  {
    role != "admin" && role != "user" && role != "usuario"
  }

  /** An unknown required role is granted to every user role; an unknown user
      role is granted exactly the unknown required roles. */
  lemma UnknownRoles(role: string, required: string)
    ensures Unknown(required) ==> HasPermission(role, required)
    ensures Unknown(role) ==> (HasPermission(role, required) <==> Unknown(required))
  {
  }

  /** The hierarchy is a total preorder: any two roles compare, and granting
      composes. */
  lemma PermissionPreorder(a: string, b: string, c: string)
    ensures HasPermission(a, b) || HasPermission(b, a)
    ensures HasPermission(a, b) && HasPermission(b, c) ==> HasPermission(a, c)
  {
  }

  /** Admin is only granted to admin. */
  lemma AdminOnlyAdmin(role: string)
    ensures HasPermission(role, "admin") <==> role == "admin"
  {
  }

  /** With no user logged in nothing is granted; with one, `hasRole` is
      `hasPermission` on their role. */
  lemma HasRoleSpec(user: Option<User>, role: string)
    ensures user.None? ==> !HasRole(user, role)
    ensures user.Some? ==> (HasRole(user, role) <==> Level(user.value.role) >= Level(role))
  {
  }
}
