/** How `handleLogin`, `handleLogout` and the mount effect of the
    `AuthProvider` compose. */
module AuthContextProperties {
  import opened Wrappers
  import opened AuthContext

  /** A fresh provider mounted on an empty storage is logged out. */
  lemma MountEmpty()
    ensures Mount(map[]).session == Initial
    ensures !Initial.isLoggedIn && Initial.userName == "" && Initial.userEmail == ""
  {
  }

  /** Remounting on the storage `login` wrote reproduces the logged-in
      session exactly when the token is non-empty; an empty token is falsy,
      so the remounted provider is logged out. */
  lemma LoginRoundTrip(p: State, token: string, name: string, email: string)
    ensures var r := Login(p, token, name, email);
            token != "" ==> Mount(r.storage).session == r.session
    ensures var r := Login(p, token, name, email);
            token == "" ==> Mount(r.storage).session == Initial
  {
    var r := Login(p, token, name, email);
    assert GetItem(r.storage, TokenKey) == Some(token);
    assert GetItem(r.storage, NameKey) == Some(name);
    assert GetItem(r.storage, EmailKey) == Some(email);
  }

  /** Remounting on the storage `logout` left gives the logged-out session,
      which is also the session `logout` set. */
  lemma LogoutRoundTrip(p: State)
    ensures Mount(Logout(p).storage).session == Logout(p).session == Initial
  {
  }

  /** Logging out twice is the same as logging out once. */
  lemma LogoutIdempotent(p: State)
    ensures Logout(Logout(p)) == Logout(p)
  {
    assert Logout(Logout(p)).storage == Logout(p).storage;
  }

  /** A second login replaces every trace of the first. */
  lemma LoginOverrides(p: State, t1: string, n1: string, e1: string, t2: string, n2: string, e2: string)
    ensures Login(Login(p, t1, n1, e1), t2, n2, e2) == Login(p, t2, n2, e2)
  {
    var a := Login(Login(p, t1, n1, e1), t2, n2, e2).storage;
    var b := Login(p, t2, n2, e2).storage;
    assert a.Keys == b.Keys;
    assert forall k :: k in a ==> a[k] == b[k];
  }

  /** Logging out after a login leaves the same state as logging out
      without it: nothing the login wrote survives. */
  lemma LoginThenLogout(p: State, token: string, name: string, email: string)
    ensures Logout(Login(p, token, name, email)) == Logout(p)
  {
    var a := Logout(Login(p, token, name, email)).storage;
    var b := Logout(p).storage;
    assert a.Keys == b.Keys;
    assert forall k :: k in a ==> a[k] == b[k];
  }
}
