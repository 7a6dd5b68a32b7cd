/**
  The credential service: registration with a uniqueness check on the
  username, and login by username lookup plus password verification. The
  password hashing library is a parameter: `hash` produces a stored hash and
  `verify` checks a password against one.
 */
module Auth {
  import opened Linq
  import opened Models

  datatype Hasher = Hasher(hash: string -> string, verify: (string, string) -> bool)

  /** A hasher whose `verify` accepts every password against its own hash. */
  ghost predicate Sound(h: Hasher)
  {
    forall p :: h.verify(p, h.hash(p))
  }

  /** Usernames compare with exact string equality. */
  ghost predicate UniqueUsernames(users: seq<User>)
  {
    forall i, j :: 0 <= i < j < |users| ==> users[i].username != users[j].username
  }

  /** The first user with exactly this username, if any. */
  function FindUser(users: seq<User>, username: string): (r: Option<User>)
    ensures r.None? <==> forall i :: 0 <= i < |users| ==> users[i].username != username
    ensures r.Some? ==> exists k :: 0 <= k < |users| && users[k] == r.value && r.value.username == username
                                   && forall j :: 0 <= j < k ==> users[j].username != username
  {
    match FirstIndex(users, (u: User) => u.username == username)
    case None => None
    case Some(k) => Some(users[k])
  }

  /** `Register`: refused (null) when the username is taken; otherwise a new
      user holding the hash of the password is appended and returned. */
  function Register(s: Store, username: string, password: string, h: Hasher): (r: (Option<User>, Store))
    ensures (exists i :: 0 <= i < |s.users| && s.users[i].username == username) ==> r == (None, s)
    ensures (forall i :: 0 <= i < |s.users| ==> s.users[i].username != username) ==>
              && r.0.Some?
              && r.0.value.username == username
              && r.0.value.passwordHash == h.hash(password)
              && r.0.value.role == UserRole
              && r.1 == s.(users := s.users + [r.0.value])
  {
    if Any(s.users, (u: User) => u.username == username) then (None, s)
    else
      var u := NewUser(username, h.hash(password));
      (Some(u), s.(users := s.users + [u]))
  }

  /** `Login` as the code writes it: on success it builds
      `new User(user.Username, user.Role)`, so the stored role lands in the
      password-hash slot and the returned role is the constructor's default. */
  function LoginAsWritten(s: Store, username: string, password: string, h: Hasher): (r: Option<User>)
    ensures r.None? <==>
              FindUser(s.users, username).None? ||
              !h.verify(password, FindUser(s.users, username).value.passwordHash)
    ensures r.Some? ==>
              && r.value.username == username
              && r.value.passwordHash == FindUser(s.users, username).value.role
              && r.value.role == UserRole
  {
    match FindUser(s.users, username)
    case None => None
    case Some(u) =>
      if !h.verify(password, u.passwordHash) then None
      else Some(NewUser(u.username, u.role))
  }

  /** `Login` returning the identity that was stored: the first user with
      this username, provided the password verifies against its hash. */
  function Login(s: Store, username: string, password: string, h: Hasher): (r: Option<User>)
    ensures r.None? <==>
              (forall i :: 0 <= i < |s.users| ==> s.users[i].username != username) ||
              !h.verify(password, FindUser(s.users, username).value.passwordHash)
    ensures r.Some? ==>
              exists k :: 0 <= k < |s.users| && s.users[k] == r.value && r.value.username == username
                          && forall j :: 0 <= j < k ==> s.users[j].username != username
  {
    match FindUser(s.users, username)
    case None => None
    case Some(u) => if h.verify(password, u.passwordHash) then Some(u) else None
  }

  /** Register keeps usernames pairwise distinct. */
  lemma RegisterPreservesUniqueUsernames(s: Store, username: string, password: string, h: Hasher)
    requires UniqueUsernames(s.users)
    ensures UniqueUsernames(Register(s, username, password, h).1.users)
    ensures Register(s, username, password, h).1.events == s.events
    ensures Register(s, username, password, h).1.bookings == s.bookings
  {
    var r := Register(s, username, password, h);
    var us := r.1.users;
    if r.0.Some? {
      forall i, j | 0 <= i < j < |us| ensures us[i].username != us[j].username {
        assert us[i] == s.users[i];
        if j < |s.users| {
          assert us[j] == s.users[j];
        }
      }
    }
  }

  /** A second registration of the same name is refused. */
  lemma RegisterTwiceConflicts(s: Store, username: string, p1: string, p2: string, h: Hasher)
    ensures var s1 := Register(s, username, p1, h).1;
            Register(s1, username, p2, h) == (None, s1)
  {
    var r := Register(s, username, p1, h);
    if r.0.Some? {
      assert r.1.users[|s.users|].username == username;
    } else {
      var i :| 0 <= i < |s.users| && s.users[i].username == username;
    }
  }

  /** A user who has just registered can log in with that password, and gets
      the role registration gave them; any password the hasher rejects fails. */
  lemma LoginAfterRegister(s: Store, username: string, password: string, other: string, h: Hasher)
    requires Sound(h)
    requires Register(s, username, password, h).0.Some?
    ensures var s1 := Register(s, username, password, h).1;
            Login(s1, username, password, h) == Register(s, username, password, h).0
    ensures var s1 := Register(s, username, password, h).1;
            Login(s1, username, other, h).Some? <==> h.verify(other, h.hash(password))
  {
    var r := Register(s, username, password, h);
    var us := r.1.users;
    assert us[|s.users|] == r.0.value;
    assert forall j :: 0 <= j < |s.users| ==> us[j] == s.users[j];
    assert FindUser(us, username) == Some(r.0.value);
  }

  /** The as-written and the corrected login succeed for the same inputs and
      return the same username; they differ in the role and hash they hand
      back, the as-written one carrying the stored role as its hash. */
  lemma LoginAsWrittenAgreesExceptRole(s: Store, username: string, password: string, h: Hasher)
    ensures LoginAsWritten(s, username, password, h).Some? <==> Login(s, username, password, h).Some?
    ensures Login(s, username, password, h).Some? ==>
              LoginAsWritten(s, username, password, h).value.username
                == Login(s, username, password, h).value.username
    ensures Login(s, username, password, h).Some? ==>
              LoginAsWritten(s, username, password, h).value.passwordHash
                == Login(s, username, password, h).value.role
  {
  }
}
