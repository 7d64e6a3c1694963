/**
 * The session lifecycle of `lib/AuthContext.js`: an in-memory token/role pair,
 * a persisted key-value store holding the keys "token" and "role", and the
 * route the navigator was last sent to.
 *
 * The pure functions `LoggedIn`, `LoggedOut`, `AfterCheck` and `Restored` say
 * what each operation does to the whole state; the class `AuthProvider` carries
 * that state in fields and performs the same operations step by step, and each
 * of its methods is proved to agree with its function.
 */
module Session {
  import opened Wrappers

  /** The two storage keys the provider reads and writes. */
  const TokenKey: string := "token"
  const RoleKey: string := "role"

  /** The unauthenticated entry screen that logging out navigates to. */
  const EntryRoute: string := "/"

  /** A token with less than this many milliseconds left reaches the "expires soon" branch. */
  const WarnWindowMs: int := 60 * 60 * 1000

  /**
   * What the JWT decoder makes of a token. It never checks a signature: it
   * either fails (`Malformed`, the decoder throws) or yields the claim set, of
   * which only `exp` (seconds since the epoch, section 4.1.4 of RFC 7519) is
   * read; a claim set may lack `exp` altogether.
   */
  datatype Decoded = Malformed | Claims(exp: Option<int>)

  /** The whole observable state: memory, persisted store and current route. */
  datatype Auth = Auth(token: Option<string>, role: Option<string>, store: map<string, string>, route: string)

  /** A storage read: `None` plays the part of the `null` an absent key reads as. */
  function Lookup(store: map<string, string>, key: string): Option<string>
  {
    if key in store then Some(store[key]) else None
  }

  /** JavaScript truthiness of a stored string: `null` and the empty string are falsy. */
  predicate Truthy(v: Option<string>)
  {
    v.Some? && v.value != ""
  }

  /** Memory holds both values or neither, and so does the store. */
  ghost predicate Paired(s: Auth)
  {
    (s.token.None? <==> s.role.None?) && (TokenKey in s.store <==> RoleKey in s.store)
  }

  /** `login(newToken, newRole)`: memory first, then both keys in storage. */
  function LoggedIn(s: Auth, t: string, r: string): (s': Auth)
    ensures s'.token == Some(t) && s'.role == Some(r)
    ensures Lookup(s'.store, TokenKey) == Some(t) && Lookup(s'.store, RoleKey) == Some(r)
    ensures forall k :: k != TokenKey && k != RoleKey ==> Lookup(s'.store, k) == Lookup(s.store, k)
    ensures s'.route == s.route
    ensures Paired(s')
  {
    Auth(Some(t), Some(r), s.store[TokenKey := t][RoleKey := r], s.route)
  }

  /** `logout()`: clear memory, delete both keys, navigate to the entry route. */
  function LoggedOut(s: Auth): (s': Auth)
    ensures s'.token == None && s'.role == None
    ensures TokenKey !in s'.store && RoleKey !in s'.store
    ensures forall k :: k != TokenKey && k != RoleKey ==> Lookup(s'.store, k) == Lookup(s.store, k)
    ensures s'.route == EntryRoute
    ensures Paired(s')
  {
    Auth(None, None, s.store - {TokenKey} - {RoleKey}, EntryRoute)
  }

  /** The branch the periodic check takes for a decoded token. */
  datatype Verdict = Expired | ExpiresSoon | Live

  /**
   * The periodic check's classification. The source compares
   * `exp - Date.now() / 1000` with 0 and with 3600 seconds; over milliseconds
   * that is `exp * 1000 - nowMs` against 0 and `WarnWindowMs`. Without an `exp`
   * claim the difference is NaN, and both comparisons are false.
   */
  function ExpiryVerdict(d: Decoded, nowMs: int): (v: Verdict)
    ensures v == Expired <==> d.Malformed? || (d.exp.Some? && d.exp.value * 1000 <= nowMs)
    ensures v == ExpiresSoon <==> d.Claims? && d.exp.Some? && nowMs < d.exp.value * 1000 < nowMs + WarnWindowMs
  {
    match d
    case Malformed => Expired
    case Claims(None) => Live
    case Claims(Some(exp)) =>
      if exp * 1000 - nowMs <= 0 then Expired
      else if exp * 1000 - nowMs < WarnWindowMs then ExpiresSoon
      else Live
  }

  /**
   * `checkTokenExpiry()`: reads the token from storage (not memory); returns
   * early when it is falsy; logs out when the token is expired or undecodable;
   * otherwise (including the "expires soon" branch, which only logs) changes nothing.
   */
  function AfterCheck(s: Auth, decode: string -> Decoded, nowMs: int): (s': Auth)
    ensures s' == s || s' == LoggedOut(s)
    ensures s' != s ==> Truthy(Lookup(s.store, TokenKey))
    ensures Paired(s) ==> Paired(s')
  {
    var stored := Lookup(s.store, TokenKey);
    if !Truthy(stored) then s
    else if ExpiryVerdict(decode(stored.value), nowMs) == Expired then LoggedOut(s)
    else s
  }

  /**
   * `restoreAuth()`: when both stored values are truthy, decodes the token;
   * a decoding failure or `exp` strictly before now logs out, anything else
   * copies the stored pair into memory. With a key missing nothing happens.
   */
  function Restored(s: Auth, decode: string -> Decoded, nowMs: int): (s': Auth)
    ensures || s' == s
            || s' == LoggedOut(s)
            || (&& s'.token == Lookup(s.store, TokenKey) && Truthy(s'.token)
                && s'.role == Lookup(s.store, RoleKey) && Truthy(s'.role)
                && s'.store == s.store && s'.route == s.route)
    ensures Paired(s) ==> Paired(s')
  {
    var t := Lookup(s.store, TokenKey);
    var r := Lookup(s.store, RoleKey);
    if !(Truthy(t) && Truthy(r)) then s
    else match decode(t.value)
      case Malformed => LoggedOut(s)
      case Claims(exp) =>
        if exp.Some? && exp.value * 1000 < nowMs then LoggedOut(s)
        else s.(token := t, role := r)
  }

  /** A restart of the app: memory is fresh, the store persists, navigation starts at the entry route. */
  function Restart(s: Auth): Auth
  {
    Auth(None, None, s.store, EntryRoute)
  }

  /** The events that drive the provider: user actions, timer ticks and start-ups. */
  datatype Event = SignIn(t: string, r: string) | SignOut | Tick(nowMs: int) | Start(nowMs: int)

  function Step(s: Auth, decode: string -> Decoded, e: Event): Auth
  {
    match e
    case SignIn(t, r) => LoggedIn(s, t, r)
    case SignOut => LoggedOut(s)
    case Tick(now) => AfterCheck(s, decode, now)
    case Start(now) => Restored(s, decode, now)
  }

  /** The state after the events, applied one after another, each atomically. */
  function Run(s: Auth, decode: string -> Decoded, events: seq<Event>): Auth
    decreases |events|
  {
    if events == [] then s else Run(Step(s, decode, events[0]), decode, events[1..])
  }

  // ---------------------------------------------------------------------------
  // Properties of the operations

  /** Logging out twice is the same as logging out once. */
  lemma LogoutIdempotent(s: Auth)
    ensures LoggedOut(LoggedOut(s)) == LoggedOut(s)
  {
  }

  /** With no truthy token in storage the periodic check changes nothing, whatever memory holds. */
  lemma CheckWithoutStoredTokenIsNoOp(s: Auth, decode: string -> Decoded, nowMs: int)
    requires !Truthy(Lookup(s.store, TokenKey))
    ensures AfterCheck(s, decode, nowMs) == s
  {
  }

  /** A stored token that is undecodable or has no lifetime left ends the session. */
  lemma CheckLogsOutDeadToken(s: Auth, decode: string -> Decoded, nowMs: int)
    requires TokenKey in s.store && s.store[TokenKey] != ""
    requires decode(s.store[TokenKey]).Malformed?
          || (decode(s.store[TokenKey]).exp.Some? && decode(s.store[TokenKey]).exp.value * 1000 - nowMs <= 0)
    ensures AfterCheck(s, decode, nowMs) == LoggedOut(s)
    ensures AfterCheck(s, decode, nowMs).token == None && AfterCheck(s, decode, nowMs).route == EntryRoute
  {
  }

  /**
   * A stored token with lifetime left, in particular one in its last hour,
   * leaves memory, storage and route as they were; so does a token whose
   * claims carry no `exp` at all.
   */
  lemma CheckKeepsLiveToken(s: Auth, decode: string -> Decoded, nowMs: int)
    requires TokenKey in s.store
    requires decode(s.store[TokenKey]).Claims?
    requires decode(s.store[TokenKey]).exp.Some? ==> decode(s.store[TokenKey]).exp.value * 1000 - nowMs > 0
    ensures AfterCheck(s, decode, nowMs) == s
  {
  }

  /** Restoring with either stored value absent (or empty) changes nothing: a lone key is not cleared. */
  lemma RestoreNeedsBothKeys(s: Auth, decode: string -> Decoded, nowMs: int)
    requires !Truthy(Lookup(s.store, TokenKey)) || !Truthy(Lookup(s.store, RoleKey))
    ensures Restored(s, decode, nowMs) == s
  {
  }

  /** Restoring an unexpired stored pair puts exactly that pair in memory and leaves storage and route alone. */
  lemma RestoreAcceptsLiveToken(s: Auth, decode: string -> Decoded, nowMs: int)
    requires Truthy(Lookup(s.store, TokenKey)) && Truthy(Lookup(s.store, RoleKey))
    requires decode(s.store[TokenKey]).Claims?
    requires decode(s.store[TokenKey]).exp.Some? ==> decode(s.store[TokenKey]).exp.value * 1000 >= nowMs
    ensures Restored(s, decode, nowMs).token == Some(s.store[TokenKey])
    ensures Restored(s, decode, nowMs).role == Some(s.store[RoleKey])
    ensures Restored(s, decode, nowMs).store == s.store && Restored(s, decode, nowMs).route == s.route
  {
  }

  /** Restoring an expired or undecodable stored token ends logged out, whatever memory held. */
  lemma RestoreRejectsDeadToken(s: Auth, decode: string -> Decoded, nowMs: int)
    requires Truthy(Lookup(s.store, TokenKey)) && Truthy(Lookup(s.store, RoleKey))
    requires decode(s.store[TokenKey]).Malformed?
          || (decode(s.store[TokenKey]).exp.Some? && decode(s.store[TokenKey]).exp.value * 1000 < nowMs)
    ensures Restored(s, decode, nowMs) == LoggedOut(s)
  {
  }

  /**
   * The two expiry tests disagree at the boundary: a token whose `exp` is
   * exactly now survives a restore but is ended by the next periodic check.
   */
  lemma ExpiryBoundaryAsymmetry(s: Auth, decode: string -> Decoded, nowMs: int)
    requires Truthy(Lookup(s.store, TokenKey)) && Truthy(Lookup(s.store, RoleKey))
    requires decode(s.store[TokenKey]) == Claims(Some(nowMs / 1000)) && nowMs % 1000 == 0
    ensures Restored(s, decode, nowMs).token == Some(s.store[TokenKey])
    ensures AfterCheck(Restored(s, decode, nowMs), decode, nowMs) == LoggedOut(s)
  {
  }

  /**
   * Logging in, restarting the app and restoring gives back the same session,
   * provided the token and role are non-empty and the token has not expired.
   */
  lemma LoginRestartRestore(s: Auth, t: string, r: string, decode: string -> Decoded, nowMs: int)
    requires t != "" && r != ""
    requires decode(t).Claims? && (decode(t).exp.Some? ==> decode(t).exp.value * 1000 >= nowMs)
    ensures Restored(Restart(LoggedIn(s, t, r)), decode, nowMs).token == Some(t)
    ensures Restored(Restart(LoggedIn(s, t, r)), decode, nowMs).role == Some(r)
  {
    var s' := Restart(LoggedIn(s, t, r));
    assert Lookup(s'.store, TokenKey) == Some(t);
    assert Lookup(s'.store, RoleKey) == Some(r);
  }

  /** Every single operation keeps memory and storage paired. */
  lemma StepKeepsPaired(s: Auth, decode: string -> Decoded, e: Event)
    requires Paired(s)
    ensures Paired(Step(s, decode, e))
  {
    match e
    case SignIn(t, r) =>
    case SignOut =>
    case Tick(now) =>
    case Start(now) =>
  }

  /**
   * From any paired state (the initial one, with null memory and empty
   * storage, among them) every sequence of operations keeps
   * `token == null <==> authRole == null`, and keeps the two keys stored together.
   */
  lemma {:induction false} RunKeepsPaired(s: Auth, decode: string -> Decoded, events: seq<Event>)
    requires Paired(s)
    ensures Paired(Run(s, decode, events))
    decreases |events|
  {
    if events != [] {
      StepKeepsPaired(s, decode, events[0]);
      RunKeepsPaired(Step(s, decode, events[0]), decode, events[1..]);
    }
  }

  // ---------------------------------------------------------------------------
  // The provider itself

  /**
   * The provider's state, updated in place. `decode` stands for the JWT
   * decoder; the current time is passed to each operation that reads the clock.
   */
  class AuthProvider {
    var token: Option<string>
    var authRole: Option<string>
    var store: map<string, string>
    var route: string
    const decode: string -> Decoded

    function State(): Auth
      reads this
    {
      Auth(token, authRole, store, route)
    }

    /** A fresh provider: nothing in memory, whatever the store held from earlier runs. */
    constructor (decode: string -> Decoded, persisted: map<string, string>, route: string)
      ensures State() == Auth(None, None, persisted, route)
      ensures this.decode == decode
    {
      this.decode := decode;
      token := None;
      authRole := None;
      store := persisted;
      this.route := route;
    }

    method Login(newToken: string, newRole: string)
      modifies this
      ensures State() == LoggedIn(old(State()), newToken, newRole)
      ensures Paired(State())
    {
      token := Some(newToken);
      authRole := Some(newRole);
      store := store[TokenKey := newToken];
      store := store[RoleKey := newRole];
      assert TokenKey in store && RoleKey in store;
    }

    method Logout()
      modifies this
      ensures State() == LoggedOut(old(State()))
      ensures Paired(State())
    {
      token := None;
      authRole := None;
      store := store - {TokenKey};
      store := store - {RoleKey};
      route := EntryRoute;
    }

    method CheckTokenExpiry(nowMs: int)
      modifies this
      ensures State() == AfterCheck(old(State()), decode, nowMs)
      ensures Paired(old(State())) ==> Paired(State())
    {
      var stored := Lookup(store, TokenKey);
      if !Truthy(stored) {
        return;
      }
      var verdict := ExpiryVerdict(decode(stored.value), nowMs);
      if verdict == Expired {
        Logout();
      }
      // ExpiresSoon only writes a log line; Live does nothing.
    }

    method RestoreAuth(nowMs: int)
      modifies this
      ensures State() == Restored(old(State()), decode, nowMs)
      ensures Paired(old(State())) ==> Paired(State())
    {
      var storedToken := Lookup(store, TokenKey);
      var storedRole := Lookup(store, RoleKey);
      if Truthy(storedToken) && Truthy(storedRole) {
        match decode(storedToken.value)
        case Malformed =>
          Logout();
        case Claims(exp) =>
          if exp.Some? && exp.value * 1000 < nowMs {
            Logout();
            return;
          }
          token := storedToken;
          authRole := storedRole;
      }
    }
  }
}
