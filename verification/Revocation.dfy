/**
 Session families over whole runs: tokens are minted, accounts change, families are revoked and time passes.
 Blacklisting single tokens is left out of the runs, because it can only refuse more.
 */
module Revocation {
  import opened Text
  import opened Accounts
  import A = Authority
  import S = Sessions

  /** A token with the account, the role and the moment it was minted for. */
  datatype Issued = Issued(token: S.Token, account: A.Id, role: Role, route: S.Route, at: real)

  datatype World = World(db: A.Db, now: real, guestAccess: bool, issued: seq<Issued>, revoked: S.Expiring)

  /**
   `Revoke` is a replay or a logout of the account `who` that names the family `sid`; a logout revokes every family
   whose token it presents, for a time that depends on the role of the account that logs out.
   */
  datatype Event =
    | Change(e: A.Event)
    | Mint(route: S.Route, account: A.Id, kind: S.Kind, jti: string, sid: string)
    | Revoke(who: A.Id, sid: string)
    | AllowGuests(allowed: bool)
    | Wait(seconds: real)

  predicate CanMint(w: World, route: S.Route, account: A.Id, jti: string, sid: string)
  {
    && A.Live(w.db.users, account) && jti != "" && sid != ""
    && (route == S.GuestSession ==> w.db.users[account].role == Guest && w.guestAccess)
  }

  function Minted(w: World, route: S.Route, account: A.Id, kind: S.Kind, jti: string, sid: string,
    config: S.Config): Issued
    requires account in w.db.users
  {
    var user := w.db.users[account];
    Issued(S.MintedBy(route, user, kind, jti, Decimal(account), sid, w.now, config), account, user.role, route, w.now)
  }

  ghost function Step(w: World, e: Event, config: S.Config): World
  {
    match e
    case Change(change) => w.(db := A.Next(w.db, change))
    case Mint(route, account, kind, jti, sid) =>
      if CanMint(w, route, account, jti, sid)
      then w.(issued := w.issued + [Minted(w, route, account, kind, jti, sid, config)]) else w
    case Revoke(who, sid) =>
      if A.Live(w.db.users, who) then w.(revoked := w.revoked[sid := EndOfWrite(w, who, config)]) else w
    case AllowGuests(allowed) => w.(guestAccess := allowed)
    case Wait(seconds) => if seconds >= 0.0 then w.(now := w.now + seconds) else w
  }

  function EndOfWrite(w: World, who: A.Id, config: S.Config): real
    requires who in w.db.users
  {
    w.now + S.SessionTtl(w.db.users[who].role, config) as real
  }

  ghost function Run(w: World, events: seq<Event>, config: S.Config): World
    decreases |events|
  {
    if events == [] then w else Run(Step(w, events[0], config), events[1..], config)
  }

  lemma {:induction false} RunAppend(w: World, a: seq<Event>, b: seq<Event>, config: S.Config)
    ensures Run(w, a + b, config) == Run(Run(w, a, config), b, config)
    decreases |a|
  {
    if a == [] {
      assert a + b == b;
    } else {
      assert (a + b)[1..] == a[1..] + b;
      RunAppend(Step(w, a[0], config), a[1..], b, config);
    }
  }

  // ---- Acceptance ----

  function LiveUser(db: A.Db, id: A.Id): Option<User>
  {
    if A.Live(db.users, id) then Some(db.users[id]) else None
  }

  /**
   A token is accepted in its own place, with nothing blacklisted: an access or browser token by validation, a refresh
   token by the refresh route, which exchanges it for a pending account too, but not in its last second.
   */
  predicate Accepts(w: World, x: Issued)
  {
    if x.token.kind == S.Refresh then
      S.Exchangeable(x.token, LiveUser(w.db, x.account), w.guestAccess, w.revoked, w.now)
    else S.Validate(x.token, x.token.kind, map[], w.revoked, LiveUser(w.db, x.account), w.now) == S.Accepted
  }

  /** A weaker acceptance: the token still counts as the account's, whether or not that is waiting for approval. */
  predicate Recognizes(w: World, x: Issued)
  {
    && S.Validate(x.token, x.token.kind, map[], w.revoked, LiveUser(w.db, x.account), w.now) != S.Unauthorized
    && !TimedOut(x.token, w.now)
  }

  lemma AcceptedIsRecognized(w: World, x: Issued)
    requires Accepts(w, x)
    ensures Recognizes(w, x)
  {
  }

  /** A token can no longer be used: a refresh token already when less than a whole second is left. */
  predicate TimedOut(t: S.Token, now: real)
  {
    if t.kind == S.Refresh then S.Remaining(t.exp, now) <= 0 else t.exp as real <= now
  }

  lemma TimedOutStays(t: S.Token, before: real, now: real)
    requires before <= now && TimedOut(t, before)
    ensures TimedOut(t, now)
  {
    S.RemainingBounds(t.exp, before);
    S.RemainingBounds(t.exp, now);
  }

  lemma TimedOutAtEnd(t: S.Token)
    ensures TimedOut(t, t.exp as real)
  {
  }

  lemma BlacklistingOnlyRefuses(w: World, x: Issued, blacklist: S.Expiring)
    requires x.token.kind != S.Refresh
    requires S.Validate(x.token, x.token.kind, blacklist, w.revoked, LiveUser(w.db, x.account), w.now) == S.Accepted
    ensures Accepts(w, x)
  {
  }

  /** The account is gone, or its credentials are of a later generation than the token. */
  predicate Outdated(db: A.Db, x: Issued)
  {
    !A.Live(db.users, x.account) || x.token.gen != Number(db.users[x.account].generation)
  }

  /** What minting gives a token and every step keeps: its generation is not ahead of its account's. */
  predicate Traced(db: A.Db, x: Issued)
  {
    && x.account in db.used && x.token.gen.Number? && x.token.gen.n >= 0
    && x.token.jti != "" && x.token.sid != "" && x.token.sub != ""
    && (x.account in db.users ==> x.token.gen.n <= db.users[x.account].generation)
  }

  ghost predicate Sound(w: World)
  {
    A.Inv(w.db) && forall i :: 0 <= i < |w.issued| ==> Traced(w.db, w.issued[i])
  }

  lemma ChangeKeepsTrace(db: A.Db, e: A.Event, x: Issued)
    requires A.Inv(db) && Traced(db, x)
    ensures A.Inv(A.Next(db, e)) && Traced(A.Next(db, e), x)
    ensures Outdated(db, x) ==> Outdated(A.Next(db, e), x)
  {
    hide A.Inv, A.Next;
    A.NextKeepsInv(db, e);
    A.IdsStayUsed(db, e, x.account);
    if x.account !in db.users {
      A.IdsAreNotReused(db, e, x.account);
    } else if x.account in A.Next(db, e).users {
      A.GenerationNeverFalls(db, e, x.account);
      if db.users[x.account].deleted && !A.Next(db, e).users[x.account].deleted {
        A.RevivalStartsGeneration(db, e, x.account);
      }
    }
  }

  lemma StepKeepsTrace(w: World, e: Event, config: S.Config, x: Issued)
    requires A.Inv(w.db) && Traced(w.db, x)
    ensures A.Inv(Step(w, e, config).db) && Traced(Step(w, e, config).db, x)
    ensures Outdated(w.db, x) ==> Outdated(Step(w, e, config).db, x)
    ensures Step(w, e, config).now >= w.now
  {
    if e.Change? { ChangeKeepsTrace(w.db, e.e, x); }
  }

  /** Every run keeps all its tokens traced. */
  lemma {:induction false} RunKeepsSound(w: World, events: seq<Event>, config: S.Config)
    requires Sound(w)
    ensures Sound(Run(w, events, config)) && w.issued <= Run(w, events, config).issued
    decreases |events|
  {
    if events != [] {
      var w' := Step(w, events[0], config);
      if events[0].Change? { A.NextKeepsInv(w.db, events[0].e); }
      forall i | 0 <= i < |w.issued|
        ensures Traced(w'.db, w.issued[i])
      {
        StepKeepsTrace(w, events[0], config, w.issued[i]);
      }
      RunKeepsSound(w', events[1..], config);
    }
  }

  // ---- Refusal over a continuation ----

  /** Every later write of this family lasts at least until `floor`. */
  ghost predicate WritesLast(w: World, events: seq<Event>, config: S.Config, sid: string, floor: real)
    decreases |events|
  {
    events != [] ==>
      (var e := events[0];
       && (e.Revoke? && e.sid == sid && A.Live(w.db.users, e.who) ==> EndOfWrite(w, e.who, config) >= floor)
       && WritesLast(Step(w, e, config), events[1..], config, sid, floor))
  }

  /** The family is revoked until `floor` at least. */
  predicate RevokedUntil(w: World, sid: string, floor: real)
  {
    sid in w.revoked && w.revoked[sid] >= floor
  }

  lemma {:induction false} RefusalLasts(w: World, events: seq<Event>, config: S.Config, x: Issued, floor: real)
    requires A.Inv(w.db) && Traced(w.db, x)
    requires RevokedUntil(w, x.token.sid, floor) && WritesLast(w, events, config, x.token.sid, floor)
    requires Outdated(w.db, x) || TimedOut(x.token, floor)
    ensures !Recognizes(Run(w, events, config), x)
    decreases |events|
  {
    if events == [] {
      if floor <= w.now && TimedOut(x.token, floor) { TimedOutStays(x.token, floor, w.now); }
    } else {
      StepKeepsTrace(w, events[0], config, x);
      RefusalLasts(Step(w, events[0], config), events[1..], config, x, floor);
    }
  }

  /** No event writes the family's marker. */
  predicate NoWrite(events: seq<Event>, sid: string)
  {
    forall i :: 0 <= i < |events| ==> !(events[i].Revoke? && events[i].sid == sid)
  }

  lemma {:induction false} NoWriteLasts(w: World, events: seq<Event>, config: S.Config, sid: string, floor: real)
    requires NoWrite(events, sid)
    ensures WritesLast(w, events, config, sid, floor)
    decreases |events|
  {
    if events != [] {
      assert forall i :: 0 <= i < |events[1..]| ==> events[1..][i] == events[i + 1];
      NoWriteLasts(Step(w, events[0], config), events[1..], config, sid, floor);
    }
  }

  // ---- Acceptance in some continuation ----

  /** What can happen to a token of the current generation: its account becomes an ordinary one, and time passes. */
  ghost function Awaiting(w: World, x: Issued, seconds: real): seq<Event>
    requires x.account in w.db.users
  {
    var user := w.db.users[x.account];
    (if Waiting(user.role) then [Change(A.Seed(user.email, Student, 0))] else []) + [Wait(seconds)]
  }

  /** Roles that may not use every token. */
  predicate Waiting(role: Role)
  {
    role == Pending || role == Guest
  }

  lemma SeedStudent(db: A.Db, id: A.Id)
    requires A.Inv(db) && A.Live(db.users, id) && Waiting(db.users[id].role)
    ensures var user := db.users[id];
      A.Next(db, A.Seed(user.email, Student, 0)) == db.(users := db.users[id := user.(role := Student)])
  {
    assert A.FindByEmail(db.users, db.users[id].email) == Some(id);
  }

  /**
   A token of the current generation is accepted once its family's marker has ended, unless it has timed out by then.
   */
  lemma AcceptedNow(w: World, x: Issued)
    requires Traced(w.db, x) && !Outdated(w.db, x) && !TimedOut(x.token, w.now)
    requires !Waiting(w.db.users[x.account].role) || (w.db.users[x.account].role == Guest && w.guestAccess)
    requires x.token.sid in w.revoked ==> w.revoked[x.token.sid] <= w.now
    ensures Accepts(w, x)
  {
    S.RemainingBounds(x.token.exp, w.now);
  }

  lemma AcceptedAfterWaiting(w: World, x: Issued, seconds: real, config: S.Config)
    requires A.Inv(w.db) && Traced(w.db, x) && !Outdated(w.db, x) && seconds >= 0.0
    requires !TimedOut(x.token, w.now + seconds)
    requires x.token.sid in w.revoked ==> w.revoked[x.token.sid] <= w.now + seconds
    ensures NoWrite(Awaiting(w, x, seconds), x.token.sid)
    ensures Accepts(Run(w, Awaiting(w, x, seconds), config), x)
  {
    var user := w.db.users[x.account];
    var wait := [Wait(seconds)];
    assert wait[1..] == [];
    if Waiting(user.role) {
      SeedStudent(w.db, x.account);
      var change := Change(A.Seed(user.email, Student, 0));
      var events := Awaiting(w, x, seconds);
      assert events == [change] + wait && events[1..] == wait;
      var w' := Step(w, change, config);
      assert Run(w, events, config) == Run(w', wait, config) == Step(w', Wait(seconds), config);
      AcceptedNow(Step(w', Wait(seconds), config), x);
    } else {
      assert Awaiting(w, x, seconds) == wait;
      assert Run(w, wait, config) == Step(w, Wait(seconds), config);
      AcceptedNow(Step(w, Wait(seconds), config), x);
    }
  }

  // ---- Exactly when a revocation holds ----

  /** The token is not accepted in any continuation that does not revoke its family again. */
  ghost predicate RefusedUntilRewritten(w: World, x: Issued, config: S.Config)
  {
    forall events :: NoWrite(events, x.token.sid) ==> !Accepts(Run(w, events, config), x)
  }

  /** Nor is it even recognized, which matters for an account that is waiting for approval. */
  ghost predicate UnknownUntilRewritten(w: World, x: Issued, config: S.Config)
  {
    forall events :: NoWrite(events, x.token.sid) ==> !Recognizes(Run(w, events, config), x)
  }

  /**
   After a revocation the token is never accepted again, as long as this stays the last one, if and only if its
   account is gone or has a new generation, or the token times out no later than the marker ends. Before the marker is
   written again the same holds for every revocation of a run.
   */
  lemma RevokedTokenNeverAccepted(w: World, who: A.Id, x: Issued, config: S.Config)
    requires A.Inv(w.db) && Traced(w.db, x) && A.Live(w.db.users, who)
    ensures RefusedUntilRewritten(Step(w, Revoke(who, x.token.sid), config), x, config)
      <==> Outdated(w.db, x) || TimedOut(x.token, EndOfWrite(w, who, config))
    ensures UnknownUntilRewritten(Step(w, Revoke(who, x.token.sid), config), x, config)
      <==> Outdated(w.db, x) || TimedOut(x.token, EndOfWrite(w, who, config))
  {
    var w' := Step(w, Revoke(who, x.token.sid), config);
    var floor := EndOfWrite(w, who, config);
    if Outdated(w.db, x) || TimedOut(x.token, floor) {
      forall events | NoWrite(events, x.token.sid)
        ensures !Recognizes(Run(w', events, config), x) && !Accepts(Run(w', events, config), x)
      {
        NoWriteLasts(w', events, config, x.token.sid, floor);
        RefusalLasts(w', events, config, x, floor);
        if Accepts(Run(w', events, config), x) { AcceptedIsRecognized(Run(w', events, config), x); }
      }
    } else {
      AcceptedAfterWaiting(w', x, floor - w.now, config);
      AcceptedIsRecognized(Run(w', Awaiting(w', x, floor - w.now), config), x);
    }
  }

  /** The shortest time a revocation can last: that of a guest, or of any other role. */
  function LeastTtl(config: S.Config): nat
  {
    if S.SessionTtl(Guest, config) <= S.SessionTtl(Student, config) then S.SessionTtl(Guest, config)
    else S.SessionTtl(Student, config)
  }

  ghost predicate RefusedForEver(w: World, x: Issued, config: S.Config)
  {
    forall events :: !Accepts(Run(w, events, config), x)
  }

  /** Later revocations of any account overwrite the marker, so in all continuations only the shortest time counts. */
  lemma OnlyTheShortestRevocationCounts(w: World, who: A.Id, x: Issued, config: S.Config)
    requires A.Inv(w.db) && Traced(w.db, x) && A.Live(w.db.users, who)
    ensures RefusedForEver(Step(w, Revoke(who, x.token.sid), config), x, config)
      <==> Outdated(w.db, x) || TimedOut(x.token, w.now + LeastTtl(config) as real)
  {
    var w' := Step(w, Revoke(who, x.token.sid), config);
    var floor := w.now + LeastTtl(config) as real;
    if Outdated(w.db, x) || TimedOut(x.token, floor) {
      forall events
        ensures !Accepts(Run(w', events, config), x)
      {
        EveryWriteLasts(w', events, config, x.token.sid, floor);
        RefusalLasts(w', events, config, x, floor);
        if Accepts(Run(w', events, config), x) { AcceptedIsRecognized(Run(w', events, config), x); }
      }
    } else {
      AcceptedAfterShorterWrite(w', x, config);
    }
  }

  lemma {:induction false} EveryWriteLasts(w: World, events: seq<Event>, config: S.Config, sid: string, floor: real)
    requires w.now + LeastTtl(config) as real >= floor
    ensures WritesLast(w, events, config, sid, floor)
    decreases |events|
  {
    if events != [] {
      EveryWriteLasts(Step(w, events[0], config), events[1..], config, sid, floor);
    }
  }

  lemma FreshId(used: set<A.Id>) returns (id: A.Id)
    ensures id !in used
  {
    id := 0;
    var rest := used;
    while rest != {}
      invariant rest <= used && forall k :: k in used && k !in rest ==> k < id
      decreases rest
    {
      var k :| k in rest;
      rest := rest - {k};
      if k >= id { id := k + 1; }
    }
  }

  lemma FreshEmail(users: A.Users) returns (email: string)
    ensures A.FindByEmail(users, email) == None
  {
    email := "";
    var rest := users.Keys;
    while rest != {}
      invariant rest <= users.Keys && forall k :: k in users && k !in rest ==> |users[k].email| < |email|
      decreases rest
    {
      var k :| k in rest;
      rest := rest - {k};
      while |email| <= |users[k].email|
        invariant forall j :: j in users && j !in rest && j != k ==> |users[j].email| < |email|
      {
        email := email + "@";
      }
    }
  }

  /** Some account of the given role comes to exist. */
  lemma SeedFresh(db: A.Db, role: Role) returns (email: string, id: A.Id)
    requires A.Inv(db) && !AdminRole(role)
    ensures id !in db.users
    ensures A.Next(db, A.Seed(email, role, id)) ==
      db.(users := db.users[id := User(email, role, 0, None, false)], used := db.used + {id})
  {
    id := FreshId(db.used);
    email := FreshEmail(db.users);
  }

  lemma AcceptedAfterShorterWrite(w: World, x: Issued, config: S.Config)
    requires A.Inv(w.db) && Traced(w.db, x) && !Outdated(w.db, x)
    requires !TimedOut(x.token, w.now + LeastTtl(config) as real)
    ensures exists events :: Accepts(Run(w, events, config), x)
  {
    var role := if S.SessionTtl(Guest, config) <= S.SessionTtl(Student, config) then Guest else Student;
    var email, id := SeedFresh(w.db, role);
    var seed, write := Change(A.Seed(email, role, id)), Revoke(id, x.token.sid);
    StepKeepsTrace(w, seed, config, x);
    var w1 := Step(w, seed, config);
    var w2 := Step(w1, write, config);
    AcceptedAfterWaiting(w2, x, LeastTtl(config) as real, config);
    var events := [seed, write] + Awaiting(w2, x, LeastTtl(config) as real);
    RunAppend(w, [seed, write], Awaiting(w2, x, LeastTtl(config) as real), config);
    assert [seed, write][1..] == [write] && [write][1..] == [];
    assert Run(w, [seed, write], config) == Run(w1, [write], config) == Run(w2, [], config);
    assert Accepts(Run(w, events, config), x);
  }

  // ---- A family's own revocations ----

  /** No role is changed by the offline seed, and only the account itself revokes the family. */
  predicate OwnAffairs(events: seq<Event>, account: A.Id, sid: string)
  {
    forall i :: 0 <= i < |events| ==>
      (match events[i]
       case Change(e) => !e.Seed?
       case Revoke(who, family) => family == sid ==> who == account
       case _ => true)
  }

  /** Without the seed, an account that is still of the token's generation still has the role it was minted for. */
  ghost predicate RoleKept(db: A.Db, x: Issued)
  {
    Outdated(db, x) || db.users[x.account].role == x.role
  }

  lemma StepKeepsRole(w: World, e: Event, config: S.Config, x: Issued)
    requires A.Inv(w.db) && Traced(w.db, x) && RoleKept(w.db, x)
    requires e.Change? ==> !e.e.Seed?
    ensures RoleKept(Step(w, e, config).db, x)
  {
    StepKeepsTrace(w, e, config, x);
    var db' := Step(w, e, config).db;
    if e.Change? && !Outdated(w.db, x) && x.account in db'.users && db'.users[x.account].role != x.role {
      A.RoleChangeStartsGeneration(w.db, e.e, x.account);
    }
  }

  /**
   What holds from minting on: the account still has its role while it is of the generation, and time has moved on.
   */
  ghost predicate Following(w: World, x: Issued)
  {
    A.Inv(w.db) && Traced(w.db, x) && RoleKept(w.db, x) && x.at <= w.now
  }

  /** The account's own revocation of a token it was minted lasts long enough. */
  predicate CoversLifetime(x: Issued, config: S.Config)
  {
    x.token.exp as real <= x.at + S.SessionTtl(x.role, config) as real
  }

  lemma {:induction false} OwnAffairsFollow(w: World, events: seq<Event>, config: S.Config, x: Issued)
    requires Following(w, x) && OwnAffairs(events, x.account, x.token.sid)
    ensures Following(Run(w, events, config), x)
    decreases |events|
  {
    if events != [] {
      StepKeepsTrace(w, events[0], config, x);
      StepKeepsRole(w, events[0], config, x);
      assert forall i :: 0 <= i < |events[1..]| ==> events[1..][i] == events[i + 1];
      OwnAffairsFollow(Step(w, events[0], config), events[1..], config, x);
    }
  }

  lemma {:induction false} OwnRefusalLasts(w: World, events: seq<Event>, config: S.Config, x: Issued)
    requires Following(w, x) && OwnAffairs(events, x.account, x.token.sid) && CoversLifetime(x, config)
    requires Outdated(w.db, x) || RevokedUntil(w, x.token.sid, x.token.exp as real)
    ensures !Recognizes(Run(w, events, config), x)
    decreases |events|
  {
    if events == [] {
      if x.token.exp as real <= w.now {
        TimedOutAtEnd(x.token);
        TimedOutStays(x.token, x.token.exp as real, w.now);
      }
    } else {
      StepKeepsTrace(w, events[0], config, x);
      StepKeepsRole(w, events[0], config, x);
      assert forall i :: 0 <= i < |events[1..]| ==> events[1..][i] == events[i + 1];
      OwnRefusalLasts(Step(w, events[0], config), events[1..], config, x);
    }
  }

  /** A guest account that came through a login route with a longer lifetime than a guest session. */
  predicate LongGuestLogin(route: S.Route, role: Role, kind: S.Kind, config: S.Config)
  {
    route == S.Login && role == Guest && S.LifetimeDays(route, role, kind, config) > S.GUEST_SESSION_EXPIRE_DAYS
  }

  /** Every mint route but one gives tokens that a revocation by their own account covers. */
  lemma OwnRevocationCovers(w: World, route: S.Route, account: A.Id, kind: S.Kind, jti: string, sid: string,
    config: S.Config)
    requires CanMint(w, route, account, jti, sid) && config.accessDays <= config.refreshDays
    requires !LongGuestLogin(route, w.db.users[account].role, kind, config)
    ensures CoversLifetime(Minted(w, route, account, kind, jti, sid, config), config)
  {
    S.RevocationOutlivesRoute(route, w.db.users[account].role, kind, config);
  }

  /**
   A token minted for an account, then any run, then a revocation by that account, then any run with any number of
   further revocations by it: the token is never recognized again, pending accounts and refresh tokens included.
   */
  ghost predicate OwnFamilyStaysOut(w: World, m: Event, config: S.Config)
    requires m.Mint? && m.account in w.db.users
  {
    var x := Minted(w, m.route, m.account, m.kind, m.jti, m.sid, config);
    forall before, after :: OwnAffairs(before, m.account, m.sid) && OwnAffairs(after, m.account, m.sid) ==>
      (var w1 := Run(Step(w, m, config), before, config);
       A.Live(w1.db.users, m.account) ==>
         !Recognizes(Run(Step(w1, Revoke(m.account, m.sid), config), after, config), x))
  }

  /**
   However often roles change by other means than the seed, a family's own revocation holds on every route but one.
   */
  lemma OwnFamilyStaysOutIff(w: World, m: Event, config: S.Config)
    requires Sound(w) && m.Mint? && CanMint(w, m.route, m.account, m.jti, m.sid)
    requires config.accessDays <= config.refreshDays
    ensures OwnFamilyStaysOut(w, m, config) <==> !LongGuestLogin(m.route, w.db.users[m.account].role, m.kind, config)
  {
    if LongGuestLogin(m.route, w.db.users[m.account].role, m.kind, config) {
      GuestLoginComesBack(w, m, config);
    } else {
      forall before, after | OwnAffairs(before, m.account, m.sid) && OwnAffairs(after, m.account, m.sid)
        ensures var w1 := Run(Step(w, m, config), before, config);
          A.Live(w1.db.users, m.account) ==>
            !Recognizes(Run(Step(w1, Revoke(m.account, m.sid), config), after, config),
              Minted(w, m.route, m.account, m.kind, m.jti, m.sid, config))
      {
        OwnRevocationHolds(w, m, before, after, config);
      }
    }
  }

  lemma OwnRevocationHolds(w: World, m: Event, before: seq<Event>, after: seq<Event>, config: S.Config)
    requires Sound(w) && m.Mint? && CanMint(w, m.route, m.account, m.jti, m.sid)
    requires config.accessDays <= config.refreshDays
    requires !LongGuestLogin(m.route, w.db.users[m.account].role, m.kind, config)
    requires OwnAffairs(before, m.account, m.sid) && OwnAffairs(after, m.account, m.sid)
    ensures var x := Minted(w, m.route, m.account, m.kind, m.jti, m.sid, config);
      var w1 := Run(Step(w, m, config), before, config);
      A.Live(w1.db.users, m.account) ==> !Recognizes(Run(Step(w1, Revoke(m.account, m.sid), config), after, config), x)
  {
    var x := Minted(w, m.route, m.account, m.kind, m.jti, m.sid, config);
    var w0 := Step(w, m, config);
    OwnRevocationCovers(w, m.route, m.account, m.kind, m.jti, m.sid, config);
    OwnAffairsFollow(w0, before, config, x);
    var w1 := Run(w0, before, config);
    if A.Live(w1.db.users, m.account) {
      OwnRefusalLasts(Step(w1, Revoke(m.account, m.sid), config), after, config, x);
    }
  }

  lemma GuestLoginComesBack(w: World, m: Event, config: S.Config)
    requires Sound(w) && m.Mint? && CanMint(w, m.route, m.account, m.jti, m.sid)
    requires LongGuestLogin(m.route, w.db.users[m.account].role, m.kind, config)
    ensures !OwnFamilyStaysOut(w, m, config)
  {
    var x := Minted(w, m.route, m.account, m.kind, m.jti, m.sid, config);
    var w1 := Step(w, m, config);
    var w2 := Step(w1, Revoke(m.account, m.sid), config);
    var after := [AllowGuests(true), Wait(86400.0)];
    GuestLoginOutlivesRevocation(w, m.account, m.kind, m.jti, m.sid, config);
    RunOfTwo(w1, Revoke(m.account, m.sid), after[0], config);
    RunAppend(w, [m, Revoke(m.account, m.sid)], after, config);
    RunOfTwo(w, m, Revoke(m.account, m.sid), config);
    assert [m, Revoke(m.account, m.sid)] + after == [m, Revoke(m.account, m.sid), AllowGuests(true), Wait(86400.0)];
    assert Run(w1, [], config) == w1 && OwnAffairs([], m.account, m.sid) && OwnAffairs(after, m.account, m.sid);
    AcceptedIsRecognized(Run(w2, after, config), x);
  }

  // ---- The families that come back ----

  /** The excluded route: a guest account that logged in with more than one day is accepted again after one day. */
  lemma GuestLoginOutlivesRevocation(w: World, account: A.Id, kind: S.Kind, jti: string, sid: string, config: S.Config)
    requires Sound(w) && CanMint(w, S.Login, account, jti, sid) && w.db.users[account].role == Guest
    requires S.LifetimeDays(S.Login, Guest, kind, config) > S.GUEST_SESSION_EXPIRE_DAYS
    ensures var x := Minted(w, S.Login, account, kind, jti, sid, config);
      Accepts(Run(w,
        [Mint(S.Login, account, kind, jti, sid), Revoke(account, sid), AllowGuests(true), Wait(86400.0)], config), x)
  {
    var x := Minted(w, S.Login, account, kind, jti, sid, config);
    var mint := Mint(S.Login, account, kind, jti, sid);
    LongLived(x.token, w.now, S.LifetimeDays(S.Login, Guest, kind, config));
    RunOfFour(w, mint, Revoke(account, sid), AllowGuests(true), Wait(86400.0), config);
    AcceptedNow(Run(w, [mint, Revoke(account, sid), AllowGuests(true), Wait(86400.0)], config), x);
  }

  /** So is an account that the offline seed turned into a guest after it had logged in: its generation is the same. */
  lemma SeedToGuestOutlivesRevocation(w: World, account: A.Id, kind: S.Kind, jti: string, sid: string, config: S.Config)
    requires Sound(w) && CanMint(w, S.Login, account, jti, sid) && w.db.users[account].role == Student
    requires S.LifetimeDays(S.Login, Student, kind, config) > S.GUEST_SESSION_EXPIRE_DAYS
    ensures var x := Minted(w, S.Login, account, kind, jti, sid, config);
      var w1 := Step(w, Mint(S.Login, account, kind, jti, sid), config);
      var seed := Change(A.Seed(w.db.users[account].email, Guest, 0));
      Accepts(Run(w1, [seed, Revoke(account, sid), AllowGuests(true), Wait(86400.0)], config), x)
  {
    var user := w.db.users[account];
    var x := Minted(w, S.Login, account, kind, jti, sid, config);
    var w1 := Step(w, Mint(S.Login, account, kind, jti, sid), config);
    var seed := Change(A.Seed(user.email, Guest, 0));
    assert A.FindByEmail(w.db.users, user.email) == Some(account);
    LongLived(x.token, w.now, S.LifetimeDays(S.Login, Student, kind, config));
    RunOfFour(w1, seed, Revoke(account, sid), AllowGuests(true), Wait(86400.0), config);
    AcceptedNow(Run(w1, [seed, Revoke(account, sid), AllowGuests(true), Wait(86400.0)], config), x);
  }

  lemma LongLived(t: S.Token, now: real, days: nat)
    requires days > 1 && t.exp == S.ExpiryAt(now, days)
    ensures !TimedOut(t, now + 86400.0)
  {
    assert days * S.DAY_SECONDS >= 2 * S.DAY_SECONDS;
    S.RemainingBounds(t.exp, now + 86400.0);
  }

  lemma RunOfTwo(w: World, a: Event, b: Event, config: S.Config)
    ensures Run(w, [a, b], config) == Step(Step(w, a, config), b, config)
  {
    assert [a, b][1..] == [b] && [b][1..] == [];
    assert Run(w, [a, b], config) == Run(Step(w, a, config), [b], config);
  }

  lemma RunOfFour(w: World, a: Event, b: Event, c: Event, d: Event, config: S.Config)
    ensures Run(w, [a, b, c, d], config) == Step(Step(Step(Step(w, a, config), b, config), c, config), d, config)
  {
    assert [a, b, c, d] == [a, b] + [c, d];
    RunAppend(w, [a, b], [c, d], config);
    RunOfTwo(w, a, b, config);
    RunOfTwo(Step(Step(w, a, config), b, config), c, d, config);
  }
}
