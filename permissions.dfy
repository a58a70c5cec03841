/** The two permission classes of core/permissions.py and
    aquaticexotica_backend/core/permissions.py. A decision is a function of
    the HTTP method and the requesting user only; the view plays no part. */
module Permissions {
  import opened Wrappers

  /** What a permission class looks at on request.user. Django's anonymous
      user is present but neither authenticated nor staff; None stands for
      a request with no user object at all. */
  datatype RequestUser = RequestUser(isAuthenticated: bool, isStaff: bool)

  /** Staff accounts are real accounts, so they are authenticated. */
  predicate Consistent(user: Option<RequestUser>) {
    user.Some? && user.value.isStaff ==> user.value.isAuthenticated
  }

  /** rest_framework's SAFE_METHODS, spelt out in IsAdminOrReadOnly too. */
  predicate IsSafeMethod(verb: string) {
    verb == "GET" || verb == "HEAD" || verb == "OPTIONS"
  }

  predicate IsStaff(user: Option<RequestUser>) { user.Some? && user.value.isStaff }
  predicate IsAuthenticated(user: Option<RequestUser>) { user.Some? && user.value.isAuthenticated }

  /** IsAdminOrReadOnly.has_permission: anyone may read; only staff may
      write. */
  function IsAdminOrReadOnly(verb: string, user: Option<RequestUser>): (allowed: bool)
    ensures IsSafeMethod(verb) ==> allowed
    ensures !IsSafeMethod(verb) ==> (allowed <==> IsStaff(user))
  {
    if verb in ["GET", "HEAD", "OPTIONS"] then true
    else user.Some? && user.value.isStaff
  }

  /** RoleBasedSafeWritePermission.has_permission: anyone may read, any
      authenticated user may POST, only authenticated staff may PUT, PATCH
      or DELETE, and every other method is refused. */
  function RoleBasedSafeWrite(verb: string, user: Option<RequestUser>): (allowed: bool)
    ensures IsSafeMethod(verb) ==> allowed
    ensures verb == "POST" ==> (allowed <==> IsAuthenticated(user))
    ensures verb in ["PUT", "PATCH", "DELETE"] ==> (allowed <==> IsAuthenticated(user) && IsStaff(user))
    ensures allowed ==> IsSafeMethod(verb) || verb in ["POST", "PUT", "PATCH", "DELETE"]
  {
    if IsSafeMethod(verb) then true
    else if verb == "POST" then user.Some? && user.value.isAuthenticated
    else if verb in ["PUT", "PATCH", "DELETE"] then
      user.Some? && user.value.isAuthenticated && user.value.isStaff
    else false
  }

  /** A user who is neither staff nor present may do nothing but read. */
  lemma NonStaffOnlyReads(verb: string, user: Option<RequestUser>)
    requires !IsStaff(user)
    ensures IsAdminOrReadOnly(verb, user) <==> IsSafeMethod(verb)
  {
  }

  /** Granting staff never takes a permission away, for either class. */
  lemma StaffMonotone(verb: string, auth: bool)
    ensures IsAdminOrReadOnly(verb, Some(RequestUser(auth, false))) ==> IsAdminOrReadOnly(verb, Some(RequestUser(auth, true)))
    ensures RoleBasedSafeWrite(verb, Some(RequestUser(auth, false))) ==> RoleBasedSafeWrite(verb, Some(RequestUser(auth, true)))
  {
  }

  /** Logging in never takes a permission away: whatever an anonymous
      request may do, an authenticated user may do. */
  lemma AuthenticationMonotone(verb: string, staff: bool)
    ensures RoleBasedSafeWrite(verb, None) ==> RoleBasedSafeWrite(verb, Some(RequestUser(true, staff)))
    ensures RoleBasedSafeWrite(verb, Some(RequestUser(false, staff))) ==> RoleBasedSafeWrite(verb, Some(RequestUser(true, staff)))
    ensures IsAdminOrReadOnly(verb, None) ==> IsAdminOrReadOnly(verb, Some(RequestUser(true, staff)))
    ensures IsAdminOrReadOnly(verb, Some(RequestUser(false, staff))) ==> IsAdminOrReadOnly(verb, Some(RequestUser(true, staff)))
  {
  }

  /** The role-based class is stricter than IsAdminOrReadOnly for every
      consistent user, except that it opens POST to authenticated users. */
  lemma RoleBasedWithinAdminOrReadOnly(verb: string, user: Option<RequestUser>)
    requires Consistent(user)
    ensures verb != "POST" && RoleBasedSafeWrite(verb, user) ==> IsAdminOrReadOnly(verb, user)
    ensures IsAdminOrReadOnly(verb, user) && (IsSafeMethod(verb) || verb in ["POST", "PUT", "PATCH", "DELETE"])
            ==> RoleBasedSafeWrite(verb, user)
  {
  }

  /** The only request the role-based class lets through and
      IsAdminOrReadOnly refuses is a POST from an authenticated non-staff
      user. */
  lemma PostIsTheDifference()
    ensures RoleBasedSafeWrite("POST", Some(RequestUser(true, false)))
    ensures !IsAdminOrReadOnly("POST", Some(RequestUser(true, false)))
  {
  }
}
