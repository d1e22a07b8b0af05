/** The frontend's `AuthProvider`: the in-memory session state shared with
    the component tree, and the browser's `sessionStorage` it persists to,
    modelled as a string-to-string map. */
module AuthContext {
  import opened Wrappers

  /** The three `useState` cells of the provider. */
  datatype Session = Session(isLoggedIn: bool, userName: string, userEmail: string)

  /** `sessionStorage`: keys to stored strings. */
  type Storage = map<string, string>

  /** The provider's state together with the storage it writes. */
  datatype State = State(session: Session, storage: Storage)

  const TokenKey := "auth-token"
  const NameKey := "name"
  const EmailKey := "email"

  /** The only keys the provider ever reads or writes. */
  const AuthKeys: set<string> := {TokenKey, NameKey, EmailKey}

  /** The `useState` initial values: logged out, empty name and email. */
  const Initial: Session := Session(false, "", "")

  /** `sessionStorage.getItem(key)`: null (None) when the key is absent. */
  function GetItem(storage: Storage, key: string): Option<string> {
    if key in storage then Some(storage[key]) else None
  }

  /** JavaScript truthiness of a `getItem` result: null and "" are falsy. */
  predicate Truthy(v: Option<string>) {
    v.Some? && v.value != ""
  }

  /** `stored || ''`: the stored string, or "" when it is null (an empty
      stored string is falsy too and also yields ""). */
  function OrEmpty(v: Option<string>): (r: string)
    ensures v.Some? ==> r == v.value
    ensures v.None? ==> r == ""
  {
    if Truthy(v) then v.value else ""
  }

  /** The mount effect: with a truthy stored token the session becomes
      logged in with the stored name and email (each "" when absent);
      otherwise the session is left as it was. */
  function Restore(s: Session, storage: Storage): (r: Session)
    ensures r.isLoggedIn <==> s.isLoggedIn || Truthy(GetItem(storage, TokenKey))
    ensures Truthy(GetItem(storage, TokenKey)) ==>
              && (NameKey in storage ==> r.userName == storage[NameKey])
              && (NameKey !in storage ==> r.userName == "")
              && (EmailKey in storage ==> r.userEmail == storage[EmailKey])
              && (EmailKey !in storage ==> r.userEmail == "")
    ensures !Truthy(GetItem(storage, TokenKey)) ==> r == s
  {
    if Truthy(GetItem(storage, TokenKey)) then
      Session(true, OrEmpty(GetItem(storage, NameKey)), OrEmpty(GetItem(storage, EmailKey)))
    else
      s
  }

  /** A freshly mounted provider: the initial state, then the mount effect. */
  function Mount(storage: Storage): (r: State)
    ensures r.storage == storage
    ensures r.session.isLoggedIn <==> TokenKey in storage && storage[TokenKey] != ""
    ensures !r.session.isLoggedIn ==> r.session == Initial
  {
    State(Restore(Initial, storage), storage)
  }

  /** Every key outside the provider's three is untouched. */
  ghost predicate SameOutside(st: Storage, st': Storage) {
    forall k :: k !in AuthKeys ==> (k in st <==> k in st') && (k in st ==> st[k] == st'[k])
  }

  /** `handleLogin(token, name, email)`. */
  function Login(p: State, token: string, name: string, email: string): (r: State)
    ensures r.session == Session(true, name, email)
    ensures TokenKey in r.storage && r.storage[TokenKey] == token
    ensures NameKey in r.storage && r.storage[NameKey] == name
    ensures EmailKey in r.storage && r.storage[EmailKey] == email
    ensures SameOutside(p.storage, r.storage)
  {
    var storage := p.storage[TokenKey := token][NameKey := name][EmailKey := email];
    State(Session(true, name, email), storage)
  }

  /** `handleLogout()`. */
  function Logout(p: State): (r: State)
    ensures r.session == Initial
    ensures TokenKey !in r.storage && NameKey !in r.storage && EmailKey !in r.storage
    ensures SameOutside(p.storage, r.storage)
  {
    State(Initial, p.storage - AuthKeys)
  }
}
