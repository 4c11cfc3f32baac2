/** The middleware that guards admin-only routes. It trusts the role the
    client sends in the `x-role` header, unverified. */
module AdminAuth {
  import opened Wrappers

  /** What the middleware does with a request. It either passes the request on
      to the next handler (`next()`), or it answers the request itself with a
      status and a JSON body `{ message: ... }`. Because these are the two
      constructors of one datatype, exactly one of the two happens. */
  datatype GateOutcome = Next | Respond(status: nat, message: string)

  const AdminRole: string := "admin"
  const ForbiddenStatus: nat := 403
  const ForbiddenMessage: string := "Admin access only"

  /** The gate applied to the value of the `x-role` header. The value is `None`
      when the request does not carry that header. The comparison is exact and
      case-sensitive: "Admin", "ADMIN", "admin " and a missing header are all
      refused with the same fixed answer. */
  function Gate(role: Option<string>): (o: GateOutcome)
    ensures o.Next? <==> role.Some? && role.value == "admin"
    ensures o.Respond? ==> o.status == 403 && o.message == "Admin access only"
  {
    if role == Some(AdminRole) then Next else Respond(ForbiddenStatus, ForbiddenMessage)
  }
}
