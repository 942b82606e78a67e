/** The role check of the dashboard page that shows the sixth section. */
module RoleGate {
  import opened Wrappers
  import opened JsValues

  /** The signed-in user from the auth context; `role` is whatever value the
      user object carries under that key, `Undefined` when it has none. */
  datatype User = User(role: JsValue)

  datatype Screen = SixView | View403

  /** The roles the page admits. */
  const AdmittedRoles: seq<string> := ["student", "teacher"]

  /** The page: `user?.role` compared with `===` against the two admitted roles.
      `None` is a missing user, for which `user?.role` is `undefined`. */
  function Page(user: Option<User>): (r: Screen)
    ensures r == SixView <==> user.Some? && user.value.role.Str? && user.value.role.s in AdmittedRoles
  {
    var role := if user.Some? then user.value.role else Undefined;
    if role == Str("student") || role == Str("teacher") then SixView else View403
  }

  /** A student sees the view. */
  lemma StudentSeesView()
    ensures Page(Some(User(Str("student")))) == SixView
  {
  }

  /** A teacher sees the view. */
  lemma TeacherSeesView()
    ensures Page(Some(User(Str("teacher")))) == SixView
  {
  }

  /** Any other role string, including a differently cased one, is refused. */
  lemma OtherRolesRefused(role: string)
    requires role != "student" && role != "teacher"
    ensures Page(Some(User(Str(role)))) == View403
  {
  }

  /** A missing user, a missing role and a non-string role are refused. */
  lemma MissingRoleRefused(user: Option<User>)
    requires user.None? || !user.value.role.Str?
    ensures Page(user) == View403
  {
  }
}
