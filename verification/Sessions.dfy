/**
 Refresh-token rotation with replay detection, logout, and revocation of a whole session family.
 Times are real seconds on the one clock shared by the API and Redis; `exp` is a whole second.
 */
module Sessions {
  import opened Text
  import opened Accounts

  /** Python's `int()` on a float: truncation toward zero. */
  function Truncate(x: real): int
  {
    if x >= 0.0 then x.Floor else -((-x).Floor)
  }

  /** Seconds left, as the routes compute it before they talk to Redis. */
  function Remaining(exp: int, now: real): int
  {
    Truncate(exp as real - now)
  }

  lemma RemainingBounds(exp: int, now: real)
    ensures Remaining(exp, now) > 0 <==> now <= exp as real - 1.0
    ensures Remaining(exp, now) > 0 ==> exp as real - 1.0 < now + Remaining(exp, now) as real <= exp as real
  {
  }

  /** Redis keys with an expiry: a key exists at time t exactly while t is before its end. */
  type Expiring = map<string, real>

  predicate ExistsAt(keys: Expiring, key: string, t: real)
  {
    key in keys && t < keys[key]
  }

  // ---- One-winner rotation over whole runs ----

  /**
   A request as Redis sees it: the clock was read at `read`, the command runs at `at`. `Rotate` is
   SET NX with the truncated remaining time, `Blacklist` the unconditional SETEX of a logout.
   */
  datatype Event =
    | Rotate(jti: string, read: real, at: real)
    | Blacklist(jti: string, read: real, at: real)

  /** Markers, and the tokens that were exchanged for a successor. */
  datatype World = World(markers: Expiring, exchanged: seq<string>)

  function Step(w: World, expiry: string -> int, e: Event): World
  {
    var remaining := Remaining(expiry(e.jti), e.read);
    if remaining <= 0 then w
    else if e.Rotate? && ExistsAt(w.markers, e.jti, e.at) then w
    else
      World(w.markers[e.jti := e.at + remaining as real],
            if e.Rotate? then w.exchanged + [e.jti] else w.exchanged)
  }

  function Run(w: World, expiry: string -> int, events: seq<Event>): World
    decreases |events|
  {
    if events == [] then w else Run(Step(w, expiry, events[0]), expiry, events[1..])
  }

  /** A logout marks the token for its remaining time, whether or not it is marked already. */
  lemma BlacklistMarksAnew(w: World, expiry: string -> int, jti: string, read: real, at: real, t: real)
    requires Remaining(expiry(jti), read) > 0
    ensures var w' := Step(w, expiry, Blacklist(jti, read, at));
      w'.exchanged == w.exchanged && (ExistsAt(w'.markers, jti, t) <==> t < at + Remaining(expiry(jti), read) as real)
  {
  }

  /** Commands run in time order, each after its own clock reading. */
  ghost predicate InOrder(events: seq<Event>)
  {
    && (forall i :: 0 <= i < |events| ==> events[i].read <= events[i].at)
    && (forall i, j :: 0 <= i < j < |events| ==> events[i].at <= events[j].at)
  }

  /** Every command about `jti` reaches Redis by the deadline. */
  ghost predicate ArrivesBy(events: seq<Event>, jti: string, deadline: real)
  {
    forall i :: 0 <= i < |events| && events[i].jti == jti ==> events[i].at <= deadline
  }

  function Exchanges(w: World, jti: string): nat
  {
    multiset(w.exchanged)[jti]
  }

  /** At most one exchange so far, and after it (or a logout) a marker that outlasts the last usable moment. */
  ghost predicate Guarded(w: World, expiry: string -> int, jti: string)
  {
    && Exchanges(w, jti) <= 1
    && (Exchanges(w, jti) == 1 ==> jti in w.markers)
    && (jti in w.markers ==> w.markers[jti] > expiry(jti) as real - 1.0)
  }

  lemma StepKeepsGuard(w: World, expiry: string -> int, e: Event, jti: string)
    requires Guarded(w, expiry, jti) && e.read <= e.at
    requires e.jti == jti ==> e.at <= expiry(jti) as real - 1.0
    ensures Guarded(Step(w, expiry, e), expiry, jti)
    ensures jti in w.markers ==> Exchanges(Step(w, expiry, e), jti) == Exchanges(w, jti)
    ensures jti in w.markers ==> jti in Step(w, expiry, e).markers
  {
  }

  lemma {:induction false} TimelyRunKeepsGuard(w: World, expiry: string -> int, events: seq<Event>, jti: string)
    requires Guarded(w, expiry, jti) && InOrder(events) && ArrivesBy(events, jti, expiry(jti) as real - 1.0)
    ensures Guarded(Run(w, expiry, events), expiry, jti)
    ensures jti in w.markers ==> Exchanges(Run(w, expiry, events), jti) == Exchanges(w, jti)
    decreases |events|
  {
    if events != [] {
      StepKeepsGuard(w, expiry, events[0], jti);
      TimelyRunKeepsGuard(Step(w, expiry, events[0]), expiry, events[1..], jti);
    }
  }

  /** When the clock reading and the command coincide, the check `remaining <= 0` alone is enough. */
  lemma {:induction false} InstantRunKeepsGuard(w: World, expiry: string -> int, events: seq<Event>, jti: string)
    requires Guarded(w, expiry, jti)
    requires forall i :: 0 <= i < |events| ==> events[i].read == events[i].at
    ensures Exchanges(Run(w, expiry, events), jti) <= 1
    decreases |events|
  {
    if events != [] {
      var e := events[0];
      RemainingBounds(expiry(e.jti), e.read);
      if e.jti != jti || e.at <= expiry(jti) as real - 1.0 {
        StepKeepsGuard(w, expiry, e, jti);
      }
      InstantRunKeepsGuard(Step(w, expiry, e), expiry, events[1..], jti);
    }
  }

  ghost predicate OneWinnerBy(expiry: string -> int, jti: string, deadline: real)
  {
    forall events :: InOrder(events) && ArrivesBy(events, jti, deadline) ==>
      Exchanges(Run(World(map[], []), expiry, events), jti) <= 1
  }

  /**
   The exact condition when a request may be delayed between its clock reading and its command: every
   token has at most one successor in all runs if and only if the commands reach Redis while at least
   one second of validity is left.
   */
  lemma OneWinnerIffTimely(expiry: string -> int, jti: string, deadline: real)
    ensures OneWinnerBy(expiry, jti, deadline) <==> deadline <= expiry(jti) as real - 1.0
  {
    if deadline <= expiry(jti) as real - 1.0 {
      forall events | InOrder(events) && ArrivesBy(events, jti, deadline)
        ensures Exchanges(Run(World(map[], []), expiry, events), jti) <= 1
      {
        TimelyRunKeepsGuard(World(map[], []), expiry, events, jti);
      }
    } else {
      LateCommandWinsTwice(expiry, jti, deadline);
    }
  }

  /** One request delayed past the marker of another: both succeed. */
  lemma LateCommandWinsTwice(expiry: string -> int, jti: string, deadline: real)
    requires deadline > expiry(jti) as real - 1.0
    ensures exists events ::
      (&& InOrder(events) && ArrivesBy(events, jti, deadline)
       && Exchanges(Run(World(map[], []), expiry, events), jti) == 2)
  {
    var exp := expiry(jti) as real;
    var first := if deadline >= exp then exp - 1.0 else deadline - 1.0;
    var a, b := Rotate(jti, first, first), Rotate(jti, exp - 1.0, deadline);
    var events := [a, b];
    RemainingBounds(expiry(jti), first);
    RemainingBounds(expiry(jti), exp - 1.0);
    var w1 := Step(World(map[], []), expiry, a);
    assert Remaining(expiry(jti), first) == 1;
    assert w1 == World(map[jti := first + 1.0], [jti]);
    var w2 := Step(w1, expiry, b);
    assert w2.exchanged == [jti, jti];
    assert events[1..] == [b] && [b][1..] == [];
    assert Run(World(map[], []), expiry, events) == Run(w1, expiry, [b]) == Run(w2, expiry, []) == w2;
  }

  // ---- Tokens and their validation ----

  datatype Kind = Access | Refresh | BrowserRead

  /** A decoded payload; an empty `jti` or `sid` stands for a missing or unusable claim. */
  datatype Token = Token(kind: Kind, jti: string, sid: string, sub: string, gen: GenClaim, exp: int)

  datatype Verdict = Accepted | Unauthorized | PendingApproval

  /** Decoding and `_validate_token_payload`; `user` is the live account with the token's subject. */
  function Validate(t: Token, expected: Kind, blacklist: Expiring, revoked: Expiring, user: Option<User>,
    now: real): Verdict
  {
    if t.exp as real <= now || t.kind != expected then Unauthorized
    else if t.jti != "" && ExistsAt(blacklist, t.jti, now) then Unauthorized
    else if t.sid == "" || ExistsAt(revoked, t.sid, now) then Unauthorized
    else if user.None? || !MatchesGeneration(t.gen, user.value) then Unauthorized
    else if user.value.role == Pending then PendingApproval
    else Accepted
  }

  // ---- How long tokens and revocations last ----

  const GUEST_SESSION_EXPIRE_DAYS := 1
  const DAY_SECONDS := 24 * 3600

  datatype Config = Config(accessDays: nat, refreshDays: nat)

  /** The routes that mint tokens for a session family. */
  datatype Route = Login | GuestSession | Rotation

  function LifetimeDays(route: Route, role: Role, kind: Kind, config: Config): nat
  {
    if route == GuestSession || (route == Rotation && role == Guest) then GUEST_SESSION_EXPIRE_DAYS
    else if kind == Refresh then config.refreshDays
    else config.accessDays
  }

  function SessionTtl(role: Role, config: Config): nat
  {
    var days := if role == Guest then GUEST_SESSION_EXPIRE_DAYS else config.refreshDays;
    if days * DAY_SECONDS > 1 then days * DAY_SECONDS else 1
  }

  /** `exp` of a token minted at `now`: whole seconds, rounded down. */
  function ExpiryAt(now: real, days: nat): int
  {
    (now + (days * DAY_SECONDS) as real).Floor
  }

  /**
   Which mint routes a later revocation outlives: all of them, except that a guest account which came
   through a login route carries the configured lifetime, not the guest one.
   */
  lemma RevocationOutlivesRoute(route: Route, role: Role, kind: Kind, config: Config)
    requires config.accessDays <= config.refreshDays && (route == GuestSession ==> role == Guest)
    ensures LifetimeDays(route, role, kind, config) * DAY_SECONDS <= SessionTtl(role, config)
      <==> !(route == Login && role == Guest && LifetimeDays(route, role, kind, config) > GUEST_SESSION_EXPIRE_DAYS)
  {
  }

  /**
   Of tokens minted together, the refresh token outlasts the others by the difference of the configured lifetimes; a
   guest session's tokens all end after one day.
   */
  lemma RefreshTokenLastsLongest(route: Route, user: User, kind: Kind, jti: string, other: string, subject: string,
    sid: string, now: real, config: Config)
    ensures var t, refresh := MintedBy(route, user, kind, jti, subject, sid, now, config),
                MintedBy(route, user, Refresh, other, subject, sid, now, config);
      if route == GuestSession || (route == Rotation && user.role == Guest) then
        t.exp == refresh.exp == now.Floor + DAY_SECONDS
      else
        && refresh.exp == now.Floor + config.refreshDays * DAY_SECONDS
        && (kind != Refresh ==> t.exp == refresh.exp - (config.refreshDays - config.accessDays) * DAY_SECONDS)
  {
    WholeDays(now, GUEST_SESSION_EXPIRE_DAYS);
    WholeDays(now, config.refreshDays);
    WholeDays(now, config.accessDays);
  }

  lemma WholeDays(now: real, days: nat)
    ensures ExpiryAt(now, days) == now.Floor + days * DAY_SECONDS
  {
    assert now.Floor as real <= now < now.Floor as real + 1.0;
    assert (now.Floor + days * DAY_SECONDS) as real == now.Floor as real + (days * DAY_SECONDS) as real;
  }

  /** A freshly minted token is valid in its own place only, for its own account's generation. */
  lemma MintedIsValidInItsPlace(route: Route, user: User, kind: Kind, jti: string, subject: string, sid: string,
    now: real, config: Config, expected: Kind, holder: Option<User>)
    requires sid != "" && LifetimeDays(route, user.role, kind, config) >= 1
    ensures var t := MintedBy(route, user, kind, jti, subject, sid, now, config);
      Validate(t, expected, map[], map[], holder, now) == Accepted
      <==> (expected == kind && holder.Some? && holder.value.generation == user.generation
        && holder.value.role != Pending)
  {
    assert LifetimeDays(route, user.role, kind, config) * DAY_SECONDS >= DAY_SECONDS;
  }

  /** A marker on a token's id or its family refuses it while it lasts; without one the markers make no difference. */
  lemma MarkedIsRefused(t: Token, expected: Kind, blacklist: Expiring, revoked: Expiring, user: Option<User>, now: real)
    ensures Validate(t, expected, blacklist, revoked, user, now) ==
      if (t.jti != "" && ExistsAt(blacklist, t.jti, now)) || ExistsAt(revoked, t.sid, now) then Unauthorized
      else Validate(t, expected, map[], map[], user, now)
  {
  }

  // ---- The routes ----

  datatype RefreshResult =
    | Rotated(access: Token, refresh: Token, browser: Token)
    | Refused
    | Replayed

  class SessionStore {
    var blacklist: Expiring
    var revoked: Expiring

    constructor ()
      ensures blacklist == map[] && revoked == map[]
    {
      blacklist, revoked := map[], map[];
    }

    /** SETEX of a revocation marker; a TTL of zero or less writes nothing. */
    method RevokeSession(sid: string, ttl: int, at: real)
      modifies this`revoked
      ensures revoked == if ttl > 0 then old(revoked)[sid := at + ttl as real] else old(revoked)
    {
      if ttl > 0 { revoked := revoked[sid := at + ttl as real]; }
    }

    /** Blacklists an unexpired token of the expected kind and hands back its payload. */
    method BlacklistToken(t: Option<Token>, expected: Kind, now: real) returns (payload: Option<Token>)
      modifies this`blacklist
      ensures payload == Payload(t, expected, now)
      ensures blacklist ==
        if payload.Some? && payload.value.jti != "" && Remaining(payload.value.exp, now) > 0
        then old(blacklist)[payload.value.jti := now + Remaining(payload.value.exp, now) as real] else old(blacklist)
    {
      payload := None;
      if t.Some? && t.value.kind == expected && t.value.exp as real > now {
        payload := t;
        var remaining := Remaining(t.value.exp, now);
        if t.value.jti != "" && remaining > 0 {
          blacklist := blacklist[t.value.jti := now + remaining as real];
        }
      }
    }

    /** POST /refresh: `read` is the clock reading, `at` the moment SET NX runs. */
    method RefreshToken(t: Token, user: Option<User>, guestsEnabled: bool, cookie: Option<Token>, config: Config,
                        jtis: (string, string, string), read: real, at: real) returns (r: RefreshResult)
      requires read <= at
      modifies this
      ensures r.Rotated? ==>
        Step(World(old(blacklist), []), (_ => t.exp), Rotate(t.jti, read, at)).exchanged == [t.jti]
      ensures r.Replayed? ==> user.Some? && ExistsAt(old(blacklist), t.jti, at) && blacklist == old(blacklist)
      ensures r.Replayed? ==> revoked == old(revoked)[t.sid := at + SessionTtl(user.value.role, config) as real]
      ensures !r.Replayed? ==> revoked == old(revoked)
      ensures r.Refused? <==> !Exchangeable(t, user, guestsEnabled, old(revoked), read)
      ensures r.Replayed? ==> Exchangeable(t, user, guestsEnabled, old(revoked), read)
      ensures r.Rotated? ==> t.jti in blacklist
      ensures r.Rotated? && (cookie.None? || cookie.value.jti != t.jti) ==>
        blacklist[t.jti] == at + Remaining(t.exp, read) as real
      ensures r.Rotated? ==> user.Some? && !ExistsAt(old(blacklist), t.jti, at)
      ensures r.Rotated? ==> r.access == MintedBy(Rotation, user.value, Access, jtis.0, t.sub, t.sid, at, config)
      ensures r.Rotated? ==> r.refresh == MintedBy(Rotation, user.value, Refresh, jtis.1, t.sub, t.sid, at, config)
      ensures r.Rotated? ==> r.browser == MintedBy(Rotation, user.value, BrowserRead, jtis.2, t.sub, t.sid, at, config)
      ensures r.Refused? ==> blacklist == old(blacklist)
      // Neither the old refresh token nor the old browser cookie outlives the rotation.
      ensures r.Rotated? ==> forall holder :: Validate(t, Refresh, blacklist, revoked, holder, at) == Unauthorized
      ensures r.Rotated? && Blacklistable(cookie, BrowserRead, at) ==>
        forall holder :: Validate(cookie.value, BrowserRead, blacklist, revoked, holder, at) == Unauthorized
    {
      if t.kind != Refresh || t.exp as real <= read { return Refused; }
      if t.sub == "" || t.jti == "" { return Refused; }
      if t.sid == "" || ExistsAt(revoked, t.sid, read) { return Refused; }
      if user.None? || !MatchesGeneration(t.gen, user.value) { return Refused; }
      if user.value.role == Guest && !guestsEnabled { return Refused; }
      var remaining := Remaining(t.exp, read);
      if remaining <= 0 { return Refused; }
      if ExistsAt(blacklist, t.jti, at) {
        RevokeSession(t.sid, SessionTtl(user.value.role, config), at);
        return Replayed;
      }
      blacklist := blacklist[t.jti := at + remaining as real];
      var _ := BlacklistToken(cookie, BrowserRead, at);
      r := Rotated(
        MintedBy(Rotation, user.value, Access, jtis.0, t.sub, t.sid, at, config),
        MintedBy(Rotation, user.value, Refresh, jtis.1, t.sub, t.sid, at, config),
        MintedBy(Rotation, user.value, BrowserRead, jtis.2, t.sub, t.sid, at, config));
    }

    /** POST /logout: every presented token is blacklisted and every family they name is revoked. */
    method Logout(role: Role, bearer: Option<Token>, cookie: Option<Token>, browser: Option<Token>, config: Config,
      now: real)
      modifies this
      ensures forall k :: k in old(revoked) && k !in Families([bearer, cookie, browser], now) ==>
        k in revoked && revoked[k] == old(revoked)[k]
      ensures forall k :: k in Families([bearer, cookie, browser], now) ==>
        k in revoked && revoked[k] == now + SessionTtl(role, config) as real
      ensures forall k :: k in revoked ==> k in old(revoked) || k in Families([bearer, cookie, browser], now)
      ensures forall i :: 0 <= i < 3 ==>
        Blacklistable([bearer, cookie, browser][i], [Access, Refresh, BrowserRead][i], now) ==>
        ExistsAt(blacklist, [bearer, cookie, browser][i].value.jti, now)
      ensures forall k :: k in old(blacklist) ==> k in blacklist
    {
      var payloads := BlacklistPresented(bearer, cookie, browser, now);
      var sids := set i | 0 <= i < 3 && payloads[i].Some? && payloads[i].value.sid != "" :: payloads[i].value.sid;
      FamiliesOf(bearer, cookie, browser, now, sids, payloads);
      RevokeFamilies(sids, SessionTtl(role, config), now);
    }

    /** The three presented tokens, each in its proper place. */
    method BlacklistPresented(bearer: Option<Token>, cookie: Option<Token>, browser: Option<Token>, now: real)
      returns (payloads: seq<Option<Token>>)
      modifies this`blacklist
      ensures payloads == [Payload(bearer, Access, now), Payload(cookie, Refresh, now),
        Payload(browser, BrowserRead, now)]
      ensures forall i :: 0 <= i < 3 ==>
        Blacklistable([bearer, cookie, browser][i], [Access, Refresh, BrowserRead][i], now) ==>
        ExistsAt(blacklist, [bearer, cookie, browser][i].value.jti, now)
      ensures forall k :: k in old(blacklist) ==> k in blacklist
    {
      var a := BlacklistToken(bearer, Access, now);
      var b := BlacklistToken(cookie, Refresh, now);
      var c := BlacklistToken(browser, BrowserRead, now);
      payloads := [a, b, c];
    }

    method RevokeFamilies(sids: set<string>, ttl: nat, now: real)
      requires ttl > 0
      modifies this`revoked
      ensures forall k :: k in sids ==> k in revoked && revoked[k] == now + ttl as real
      ensures forall k :: k in old(revoked) && k !in sids ==> k in revoked && revoked[k] == old(revoked)[k]
      ensures forall k :: k in revoked ==> k in old(revoked) || k in sids
    {
      var rest := sids;
      while rest != {}
        invariant rest <= sids
        invariant forall k :: k in old(revoked) && k !in sids ==> k in revoked && revoked[k] == old(revoked)[k]
        invariant forall k :: k in sids && k !in rest ==> k in revoked && revoked[k] == now + ttl as real
        invariant forall k :: k in revoked ==> k in old(revoked) || k in sids
        decreases rest
      {
        var sid :| sid in rest;
        rest := rest - {sid};
        RevokeSession(sid, ttl, now);
      }
    }
  }

  /** What is left of a presented token: nothing, unless it is of the expected kind and unexpired. */
  function Payload(t: Option<Token>, expected: Kind, now: real): Option<Token>
  {
    if t.Some? && t.value.kind == expected && t.value.exp as real > now then t else None
  }

  /** A refresh token that validation accepts (pending accounts included) and that has a whole second left. */
  predicate Exchangeable(t: Token, user: Option<User>, guestsEnabled: bool, revoked: Expiring, read: real)
  {
    && Validate(t, Refresh, map[], revoked, user, read) != Unauthorized
    && t.sub != "" && t.jti != "" && Remaining(t.exp, read) > 0
    && (user.Some? && user.value.role == Guest ==> guestsEnabled)
  }

  function MintedBy(route: Route, user: User, kind: Kind, jti: string, sub: string, sid: string, now: real,
    config: Config): Token
  {
    Token(kind, jti, sid, sub, Number(user.generation), ExpiryAt(now, LifetimeDays(route, user.role, kind, config)))
  }

  /** The session families named by the unexpired tokens presented in their proper places. */
  ghost function Families(presented: seq<Option<Token>>, now: real): set<string>
    requires |presented| == 3
  {
    set i | 0 <= i < 3 && Presented(presented[i], [Access, Refresh, BrowserRead][i], now) :: presented[i].value.sid
  }

  predicate Blacklistable(t: Option<Token>, kind: Kind, now: real)
  {
    t.Some? && t.value.kind == kind && t.value.jti != "" && Remaining(t.value.exp, now) > 0
  }

  predicate Presented(t: Option<Token>, kind: Kind, now: real)
  {
    t.Some? && t.value.kind == kind && t.value.exp as real > now && t.value.sid != ""
  }

  lemma FamiliesOf(bearer: Option<Token>, cookie: Option<Token>, browser: Option<Token>, now: real, sids: set<string>,
    payloads: seq<Option<Token>>)
    requires |payloads| == 3
    requires payloads == [Payload(bearer, Access, now), Payload(cookie, Refresh, now),
      Payload(browser, BrowserRead, now)]
    requires sids == set i | 0 <= i < 3 && payloads[i].Some? && payloads[i].value.sid != "" :: payloads[i].value.sid
    ensures sids == Families([bearer, cookie, browser], now)
  {
    var presented := [bearer, cookie, browser];
    forall i | 0 <= i < 3
      ensures Presented(presented[i], [Access, Refresh, BrowserRead][i], now) <==>
        payloads[i].Some? && payloads[i].value.sid != ""
      ensures payloads[i].Some? ==> payloads[i] == presented[i]
    {
    }
  }
}
