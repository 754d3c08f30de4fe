/**
 * RolesGuard and SelfRoleGuard: allow/deny decisions on the authenticated caller.
 * Both return true or throw; neither ever returns false.
 */
module Guards {
  import opened Common
  import opened Js

  /** `request.user` once the JWT strategy has accepted the bearer token. */
  datatype AuthUser = AuthUser(userId: int, roleId: int)

  const RolesGuardPrefix := "RolesGuard | No tienes permiso para realizar esta acción. Tu roleId es: "

  function RolesGuardMessage(roleId: int): string {
    RolesGuardPrefix + DecimalString(roleId)
  }

  predicate Privileged(roleId: int) {
    roleId == 1 || roleId == 2
  }

  /** RolesGuard.canActivate: only the caller's roleId is read; the Reflector and the route metadata are not. */
  function RolesGuard(user: AuthUser): (r: Result<bool>)
    ensures r == Ok(true) <==> user.roleId == 1 || user.roleId == 2
    ensures r != Ok(false)
    ensures r.Err? ==> r.error == Forbidden(RolesGuardMessage(user.roleId))
  {
    if user.roleId == 1 || user.roleId == 2 then Ok(true)
    else Err(Forbidden(RolesGuardMessage(user.roleId)))
  }

  /** The Forbidden message of RolesGuard ends with the caller's roleId, which reads back exactly. */
  lemma RolesGuardMessageNamesRoleId(user: AuthUser)
    requires !Privileged(user.roleId)
    ensures RolesGuard(user).Err?
    ensures var m := RolesGuard(user).error.message;
      && m[..|RolesGuardPrefix|] == RolesGuardPrefix
      && ToNumber(m[|RolesGuardPrefix|..]) == Integer(user.roleId)
  {
    var m := RolesGuardMessage(user.roleId);
    assert m[|RolesGuardPrefix|..] == DecimalString(user.roleId);
    ToNumberOfDecimalString(user.roleId);
  }

  /** SelfRoleGuard.canActivate: `+request.params.id === user.userId` throws, anything else allows.
      An absent parameter is `undefined`, whose `+` is NaN. */
  function SelfRoleGuard(user: AuthUser, idParam: Option<string>): (r: Result<bool>)
    ensures r.Err? <==> idParam.Some? && ToNumber(idParam.value) == Integer(user.userId)
    ensures r.Err? ==> r.error == Forbidden(SelfRoleMessage)
    ensures r.Ok? ==> r.value
  {
    var target := if idParam.Some? then ToNumber(idParam.value) else NonInteger;
    if target == Integer(user.userId) then Err(Forbidden(SelfRoleMessage)) else Ok(true)
  }

  /** A caller naming their own id in the path, as it prints, is refused. */
  lemma SelfRoleGuardRefusesOwnId(user: AuthUser)
    ensures SelfRoleGuard(user, Some(DecimalString(user.userId))) == Err(Forbidden(SelfRoleMessage))
  {
    ToNumberOfDecimalString(user.userId);
  }

  /** A caller naming any other id, as it prints, is let through. */
  lemma SelfRoleGuardAllowsOtherIds(user: AuthUser, target: int)
    requires target != user.userId
    ensures SelfRoleGuard(user, Some(DecimalString(target))) == Ok(true)
  {
    ToNumberOfDecimalString(target);
  }

  /** `+"1.0"` is 1, so caller 1 naming "1.0" in the path is refused like "1". */
  lemma SelfRoleGuardRefusesZeroFraction(roleId: int)
    ensures SelfRoleGuard(AuthUser(1, roleId), Some("1.0")) == Err(Forbidden(SelfRoleMessage))
  {
    ToNumberOfZeroFraction();
  }

  /**
   * A parameter holding a character that can occur in no numeric string (a letter other than
   * those of hexadecimal digits, radix marks and "Infinity", or a symbol other than a sign or
   * the point) is NaN and never the caller's id.
   */
  lemma SelfRoleGuardAllowsNonNumeric(user: AuthUser, idParam: string, i: nat)
    requires i < |idParam| && NeverNumeric(idParam[i])
    ensures SelfRoleGuard(user, Some(idParam)) == Ok(true)
  {
  }
}
