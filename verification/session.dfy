/**
  The client's current-user holder: three nullable fields set together at
  login and cleared together at logout, with two derived flags.
 */
module Session {
  import opened Linq

  datatype UserSession = UserSession(username: Option<string>, role: Option<string>, userId: Option<int>)

  /** Every field null: the state before any login and after a logout. */
  const SignedOut: UserSession := UserSession(None, None, None)

  /** `IsLoggedIn`: the username is neither null nor empty. */
  function IsLoggedIn(s: UserSession): (b: bool)
    ensures b <==> s.username.Some? && s.username.value != ""
    ensures s.username.None? || s.username == Some("") ==> !b
  {
    match s.username
    case None => false
    case Some(name) => |name| > 0
  }

  /** `IsAdmin`: the role is exactly "Admin", whatever the username. */
  function IsAdmin(s: UserSession): (b: bool)
    ensures b <==> s.role.Some? && s.role.value == "Admin"
    ensures s.role.None? ==> !b
  {
    s.role == Some("Admin")
  }

  /** `SetUser`: overwrite all three fields. */
  function SetUser(s: UserSession, username: string, role: string, userId: int): (r: UserSession)
    ensures r.username == Some(username) && r.role == Some(role) && r.userId == Some(userId)
    ensures IsLoggedIn(r) <==> username != ""
    ensures IsAdmin(r) <==> role == "Admin"
  {
    UserSession(Some(username), Some(role), Some(userId))
  }

  /** `Logout`: clear all three fields. */
  function Logout(s: UserSession): (r: UserSession)
    ensures r.username.None? && r.role.None? && r.userId.None?
    ensures !IsLoggedIn(r) && !IsAdmin(r)
  {
    UserSession(None, None, None)
  }

  /** Nothing of the previous session survives `SetUser`, nor `Logout`;
      logging out twice is logging out once. */
  lemma SessionForgetsPriorState(s1: UserSession, s2: UserSession, username: string, role: string, userId: int)
    ensures SetUser(s1, username, role, userId) == SetUser(s2, username, role, userId)
    ensures Logout(s1) == Logout(s2) == SignedOut
    ensures Logout(Logout(s1)) == Logout(s1)
    ensures Logout(SetUser(s1, username, role, userId)) == SignedOut
  {
  }

  /** The two flags are independent: an empty username with role "Admin"
      gives an admin who is not logged in. */
  lemma AdminWithoutLogin(s: UserSession, userId: int)
    ensures IsAdmin(SetUser(s, "", "Admin", userId))
    ensures !IsLoggedIn(SetUser(s, "", "Admin", userId))
  {
  }
}
