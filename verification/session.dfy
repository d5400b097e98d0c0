/**
 * The application's mock session: one logged-in flag mirrored in browser
 * storage under the key "isLoggedIn", and the choice between the login
 * screen and the home screen.
 */
module Session {

  const StorageKey := "isLoggedIn"
  const LoggedInMarker := "1"

  /** The in-memory flag together with the key/value storage it is persisted in. */
  datatype AppState = AppState(isLoggedIn: bool, storage: map<string, string>)

  /** The storage says "logged in": the key is present and holds exactly "1". */
  predicate StoredLoggedIn(storage: map<string, string>) {
    StorageKey in storage && storage[StorageKey] == LoggedInMarker
  }

  /** The flag agrees with storage. */
  predicate Consistent(s: AppState) {
    s.isLoggedIn <==> StoredLoggedIn(s.storage)
  }

  /** Before the startup effect runs the flag is false, whatever storage holds. */
  function Mount(storage: map<string, string>): (r: AppState)
    ensures !r.isLoggedIn && r.storage == storage
  {
    AppState(false, storage)
  }

  /**
   * The startup effect: reads the key and raises the flag only when it holds
   * exactly "1"; it never lowers the flag and never writes storage.
   */
  function Startup(s: AppState): (r: AppState)
    ensures r.storage == s.storage
    ensures r.isLoggedIn <==> s.isLoggedIn || StoredLoggedIn(s.storage)
  {
    if StoredLoggedIn(s.storage) then s.(isLoggedIn := true) else s
  }

  /** The application as it stands once mounted and past its startup effect. */
  function Boot(storage: map<string, string>): (r: AppState)
    ensures Consistent(r)
    ensures r.isLoggedIn <==> StorageKey in storage && storage[StorageKey] == "1"
  {
    Startup(Mount(storage))
  }

  /** Writes "1" under the key and raises the flag; the e-mail and password are not looked at. */
  function Login(s: AppState, email: string, password: string): (r: AppState)
    ensures r.isLoggedIn && Consistent(r)
    ensures r.storage.Keys == s.storage.Keys + {StorageKey}
    ensures forall k :: k in s.storage && k != StorageKey ==> r.storage[k] == s.storage[k]
  {
    AppState(true, s.storage[StorageKey := LoggedInMarker])
  }

  /** Removes the key and lowers the flag; every other key keeps its value. */
  function Logout(s: AppState): (r: AppState)
    ensures !r.isLoggedIn && Consistent(r)
    ensures r.storage.Keys == s.storage.Keys - {StorageKey}
    ensures forall k :: k in r.storage ==> r.storage[k] == s.storage[k]
  {
    AppState(false, s.storage - {StorageKey})
  }

  /** The result of logging in does not depend on the credentials passed. */
  lemma LoginIgnoresCredentials(s: AppState, e1: string, p1: string, e2: string, p2: string)
    ensures Login(s, e1, p1) == Login(s, e2, p2)
  {
  }

  /** Any value under the key other than exactly "1", or no key at all, leaves the app logged out at startup. */
  lemma BootLoggedOutUnlessMarker(storage: map<string, string>)
    requires StorageKey !in storage || storage[StorageKey] != "1"
    ensures !Boot(storage).isLoggedIn
  {
  }

  /** The session events the application reacts to after startup. */
  datatype SessionEvent = LoggedIn(email: string, password: string) | LoggedOut

  /** Only the key is ever written by a session event. */
  predicate SameOtherKeys(a: map<string, string>, b: map<string, string>) {
    a - {StorageKey} == b - {StorageKey}
  }

  /** One handler call: the flag ends up raised iff it was a login, and storage agrees with it. */
  function Apply(s: AppState, e: SessionEvent): (r: AppState)
    ensures Consistent(r)
    ensures r.isLoggedIn <==> e.LoggedIn?
    ensures SameOtherKeys(r.storage, s.storage)
  {
    match e
    case LoggedIn(email, password) => Login(s, email, password)
    case LoggedOut => Logout(s)
  }

  /** The state after startup and then the events `events`, in order. */
  function Lifetime(storage: map<string, string>, events: seq<SessionEvent>): (r: AppState)
    ensures Consistent(r)
    ensures SameOtherKeys(r.storage, storage)
    decreases |events|
  {
    if |events| == 0 then Boot(storage)
    else Apply(Lifetime(storage, events[..|events| - 1]), events[|events| - 1])
  }

  /**
   * The flag and storage never disagree: consistency holds after startup
   * and after every login and logout; the flag is up iff the latest event
   * was a login, or, with no events, iff storage held "1".
   */
  lemma {:induction false} SessionStaysConsistent(storage: map<string, string>, events: seq<SessionEvent>)
    ensures Consistent(Lifetime(storage, events))
    ensures |events| > 0 ==> (Lifetime(storage, events).isLoggedIn <==> events[|events| - 1].LoggedIn?)
    ensures |events| == 0 ==> (Lifetime(storage, events).isLoggedIn <==> StoredLoggedIn(storage))
  {
    if |events| > 0 {
      SessionStaysConsistent(storage, events[..|events| - 1]);
    }
  }

  /** The two screens the application can show. */
  datatype View = LoginView | HomeView

  /** `!isLoggedIn && <Login/>` and `isLoggedIn && <Home/>`: the screens rendered for a flag value. */
  function Shown(isLoggedIn: bool): (r: set<View>)
    ensures |r| == 1
    ensures LoginView in r <==> !isLoggedIn
    ensures HomeView in r <==> isLoggedIn
  {
    (if !isLoggedIn then {LoginView} else {}) + (if isLoggedIn then {HomeView} else {})
  }
}
