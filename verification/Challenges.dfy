/**
 One-time login challenges and password-reset links: the Redis scripts, what they guarantee over
 every interleaving of requests, and keys that may expire at any moment.
 */
module Challenges {
  import opened Text

  /** The Redis keys; each constructor is one of the `auth:...:` name prefixes. */
  datatype Key =
    | Code(email: string)
    | MagicRef(email: string)
    | Magic(token: string)
    | ChallengeGen(email: string)
    | Reset(digest: string)
    | ResetGen(digest: string)
    | ResetRef(account: string)

  type Store = map<Key, string>

  /** What the scripts leave when a login challenge is stored. */
  function WithChallenge(s: Store, c: Challenge): Store
  {
    var superseded := if MagicRef(c.email) in s then {Magic(s[MagicRef(c.email)])} else {};
    (s - superseded)
      [Code(c.email) := c.code]
      [Magic(c.token) := c.email]
      [MagicRef(c.email) := c.token]
      [ChallengeGen(c.email) := Decimal(c.generation)]
  }

  /** The generation a redemption reports: the bound one, or 0 once its key is gone. */
  function BoundGeneration(s: Store, email: string): int
  {
    if ChallengeGen(email) in s then DecimalValue(s[ChallengeGen(email)]) else 0
  }

  predicate CodeMatches(s: Store, email: string, code: string)
  {
    Code(email) in s && s[Code(email)] == code
  }

  predicate LinkMatches(s: Store, token: string, email: string)
  {
    && Magic(token) in s && s[Magic(token)] == email
    && MagicRef(email) in s && s[MagicRef(email)] == token
  }

  function AfterCode(s: Store, email: string, code: string): Store
  {
    if !CodeMatches(s, email, code) then s
    else
      s - {Code(email), ChallengeGen(email)}
        - if MagicRef(email) in s then {MagicRef(email), Magic(s[MagicRef(email)])} else {}
  }

  function AfterLink(s: Store, token: string, email: string): Store
  {
    if LinkMatches(s, token, email) then s - {Magic(token), MagicRef(email), Code(email), ChallengeGen(email)}
    else if Magic(token) in s && s[Magic(token)] == email then s - {Magic(token)}
    else s
  }

  datatype ResetLink = ResetLink(email: string, digest: string, generation: nat)

  function WithReset(s: Store, link: ResetLink, account: string): Store
  {
    var superseded :=
      if ResetRef(account) in s then {Reset(s[ResetRef(account)]), ResetGen(s[ResetRef(account)])} else {};
    (s - superseded)
      [Reset(link.digest) := link.email]
      [ResetGen(link.digest) := Decimal(link.generation)]
      [ResetRef(account) := link.digest]
  }

  predicate ResetMatches(s: Store, digest: string, account: string)
  {
    && Reset(digest) in s && ResetGen(digest) in s
    && ResetRef(account) in s && s[ResetRef(account)] == digest
  }

  function AfterReset(s: Store, digest: string, account: string): Store
  {
    s - {Reset(digest), ResetGen(digest)} - if ResetMatches(s, digest, account) then {ResetRef(account)} else {}
  }

  /** The Redis server, running each script without interruption. */
  class Redis {
    var store: Store

    constructor ()
      ensures store == map[]
    {
      store := map[];
    }

    method Get(key: Key) returns (value: Option<string>)
      ensures value == if key in store then Some(store[key]) else None
    {
      value := if key in store then Some(store[key]) else None;
    }

    method Del(key: Key)
      modifies this
      ensures store == old(store) - {key}
    {
      store := store - {key};
    }

    method Set(key: Key, value: string)
      modifies this
      ensures store == old(store)[key := value]
    {
      store := store[key := value];
    }

    method StoreLoginChallenge(c: Challenge)
      modifies this
      ensures store == WithChallenge(old(store), c)
    {
      var previous := Get(MagicRef(c.email));
      if previous.Some? { Del(Magic(previous.value)); }
      Set(Code(c.email), c.code);
      Set(Magic(c.token), c.email);
      Set(MagicRef(c.email), c.token);
      Set(ChallengeGen(c.email), Decimal(c.generation));
    }

    method VerifyCode(email: string, code: string) returns (generation: Option<int>)
      modifies this
      ensures store == AfterCode(old(store), email, code)
      ensures generation ==
        if CodeMatches(old(store), email, code) then Some(BoundGeneration(old(store), email)) else None
    {
      var stored := Get(Code(email));
      if stored != Some(code) { return None; }
      var bound := Get(ChallengeGen(email));
      var token := Get(MagicRef(email));
      Del(Code(email));
      Del(ChallengeGen(email));
      if token.Some? {
        Del(Magic(token.value));
        Del(MagicRef(email));
      }
      generation := Some(if bound.Some? then DecimalValue(bound.value) else 0);
    }

    /** The script half of link verification; `email` was read from the token key beforehand. */
    method VerifyLink(token: string, email: string) returns (generation: Option<int>)
      modifies this
      ensures store == AfterLink(old(store), token, email)
      ensures generation ==
        if LinkMatches(old(store), token, email) then Some(BoundGeneration(old(store), email)) else None
    {
      var stored := Get(Magic(token));
      if stored != Some(email) { return None; }
      var current := Get(MagicRef(email));
      if current != Some(token) {
        Del(Magic(token));
        return None;
      }
      var bound := Get(ChallengeGen(email));
      Del(Magic(token));
      Del(MagicRef(email));
      Del(Code(email));
      Del(ChallengeGen(email));
      generation := Some(if bound.Some? then DecimalValue(bound.value) else 0);
    }

    method StorePasswordReset(link: ResetLink, account: string)
      modifies this
      ensures store == WithReset(old(store), link, account)
    {
      var previous := Get(ResetRef(account));
      if previous.Some? {
        Del(Reset(previous.value));
        Del(ResetGen(previous.value));
      }
      Set(Reset(link.digest), link.email);
      Set(ResetGen(link.digest), Decimal(link.generation));
      Set(ResetRef(account), link.digest);
    }

    method ConsumePasswordReset(digest: string, account: string) returns (r: Option<(string, int)>)
      modifies this
      ensures store == AfterReset(old(store), digest, account)
      ensures r == if ResetMatches(old(store), digest, account)
        then Some((old(store)[Reset(digest)], DecimalValue(old(store)[ResetGen(digest)]))) else None
    {
      var email := Get(Reset(digest));
      var bound := Get(ResetGen(digest));
      var current := Get(ResetRef(account));
      if email.None? || bound.None? || current != Some(digest) {
        Del(Reset(digest));
        Del(ResetGen(digest));
        return None;
      }
      Del(Reset(digest));
      Del(ResetGen(digest));
      Del(ResetRef(account));
      r := Some((email.value, DecimalValue(bound.value)));
    }
  }

  // ---- Runs of login challenges ----

  datatype Challenge = Challenge(email: string, code: string, token: string, generation: nat)

  /** A redemption: which issued challenge it used up, and the generation it reported. */
  datatype Redemption = Redemption(challenge: nat, generation: int)

  datatype World = World(store: Store, issued: seq<Challenge>, redeemed: seq<Redemption>)

  /**
   The atomic steps. A link attempt carries any email, so it covers a script that runs arbitrarily
   long after the request read the token key.
   */
  datatype Event =
    | Issue(challenge: Challenge)
    | TryCode(email: string, code: string)
    | TryLink(token: string, email: string)
    | Expire(key: Key)

  /** The challenge last issued for an email. */
  function Latest(issued: seq<Challenge>, email: string): (r: Option<nat>)
    ensures r.Some? ==> r.value < |issued| && issued[r.value].email == email
    ensures forall i :: 0 <= i < |issued| && issued[i].email == email ==> r.Some? && i <= r.value
  {
    if issued == [] then None
    else if issued[|issued| - 1].email == email then Some(|issued| - 1)
    else Latest(issued[..|issued| - 1], email)
  }

  function Redeem(w: World, email: string): seq<Redemption>
  {
    var latest := Latest(w.issued, email);
    if latest.None? then w.redeemed
    else w.redeemed + [Redemption(latest.value, BoundGeneration(w.store, email))]
  }

  function Step(w: World, e: Event): World
  {
    match e
    case Issue(c) => World(WithChallenge(w.store, c), w.issued + [c], w.redeemed)
    case TryCode(email, code) =>
      World(AfterCode(w.store, email, code), w.issued,
            if CodeMatches(w.store, email, code) then Redeem(w, email) else w.redeemed)
    case TryLink(token, email) =>
      World(AfterLink(w.store, token, email), w.issued,
            if LinkMatches(w.store, token, email) then Redeem(w, email) else w.redeemed)
    case Expire(key) => w.(store := w.store - {key})
  }

  function Run(w: World, events: seq<Event>): World
    decreases |events|
  {
    if events == [] then w else Run(Step(w, events[0]), events[1..])
  }

  /** A run is one step after the other. */
  lemma {:induction false} RunGoesOn(w: World, events: seq<Event>, e: Event)
    ensures Run(w, events + [e]) == Step(Run(w, events), e)
    decreases |events|
  {
    if events == [] {
      assert [e][1..] == [];
    } else {
      RunGoesOn(Step(w, events[0]), events[1..], e);
      assert (events + [e])[1..] == events[1..] + [e];
    }
  }

  /** Every issued token is new. */
  ghost predicate FreshTokens(issued: seq<Challenge>, events: seq<Event>)
    decreases |events|
  {
    events != [] ==>
      match events[0]
      case Issue(c) =>
        (forall i :: 0 <= i < |issued| ==> issued[i].token != c.token) && FreshTokens(issued + [c], events[1..])
      case _ => FreshTokens(issued, events[1..])
  }

  predicate Spent(redeemed: seq<Redemption>, i: nat)
  {
    exists k :: 0 <= k < |redeemed| && redeemed[k].challenge == i
  }

  /** The value under a code or reference key is the latest challenge's, which is not spent yet. */
  ghost predicate CodeIsLatest(w: World, email: string)
  {
    Code(email) in w.store ==>
      var i := Latest(w.issued, email);
      i.Some? && !Spent(w.redeemed, i.value) && w.store[Code(email)] == w.issued[i.value].code
  }

  ghost predicate RefIsLatest(w: World, email: string)
  {
    MagicRef(email) in w.store ==>
      var i := Latest(w.issued, email);
      i.Some? && !Spent(w.redeemed, i.value) && w.store[MagicRef(email)] == w.issued[i.value].token
  }

  ghost predicate GenIsLatest(w: World, email: string)
  {
    ChallengeGen(email) in w.store ==>
      var i := Latest(w.issued, email);
      i.Some? && w.store[ChallengeGen(email)] == Decimal(w.issued[i.value].generation)
  }

  ghost predicate DistinctTokens(issued: seq<Challenge>)
  {
    forall i, j :: 0 <= i < j < |issued| ==> issued[i].token != issued[j].token
  }

  /** Each issued challenge was redeemed at most once, with the generation it was bound to, or 0. */
  ghost predicate SingleUse(issued: seq<Challenge>, redeemed: seq<Redemption>)
  {
    && (forall i, j :: 0 <= i < j < |redeemed| ==> redeemed[i].challenge != redeemed[j].challenge)
    && (forall k :: 0 <= k < |redeemed| ==> WellBound(issued, redeemed[k]))
  }

  predicate WellBound(issued: seq<Challenge>, r: Redemption)
  {
    r.challenge < |issued| && (r.generation == issued[r.challenge].generation || r.generation == 0)
  }

  ghost predicate Inv(w: World)
  {
    && DistinctTokens(w.issued)
    && (forall e :: CodeIsLatest(w, e))
    && (forall e :: RefIsLatest(w, e))
    && (forall e :: GenIsLatest(w, e))
    && SingleUse(w.issued, w.redeemed)
  }

  lemma LatestAfterIssue(issued: seq<Challenge>, c: Challenge, email: string)
    ensures Latest(issued + [c], email) == if c.email == email then Some(|issued|) else Latest(issued, email)
  {
  }

  lemma IssueKeepsInv(w: World, c: Challenge)
    requires Inv(w) && forall i :: 0 <= i < |w.issued| ==> w.issued[i].token != c.token
    ensures Inv(Step(w, Issue(c)))
  {
    var w' := Step(w, Issue(c));
    forall e
      ensures CodeIsLatest(w', e) && RefIsLatest(w', e) && GenIsLatest(w', e)
    {
      LatestAfterIssue(w.issued, c, e);
      assert CodeIsLatest(w, e) && RefIsLatest(w, e) && GenIsLatest(w, e);
      assert forall k :: 0 <= k < |w.redeemed| && WellBound(w.issued, w.redeemed[k]) ==>
        w.redeemed[k].challenge < |w.issued|;
    }
    assert forall k :: 0 <= k < |w.redeemed| && WellBound(w.issued, w.redeemed[k]) ==>
      WellBound(w'.issued, w.redeemed[k]);
  }

  lemma RedeemKeepsInv(w: World, email: string, store: Store)
    requires Inv(w) && Latest(w.issued, email).Some? && !Spent(w.redeemed, Latest(w.issued, email).value)
    requires Code(email) !in store && MagicRef(email) !in store
    requires forall k :: k in store ==> k in w.store && store[k] == w.store[k]
    ensures Inv(World(store, w.issued, Redeem(w, email)))
  {
    var latest := Latest(w.issued, email).value;
    var w' := World(store, w.issued, Redeem(w, email));
    assert GenIsLatest(w, email);
    DecimalRoundTrip(w.issued[latest].generation);
    forall e
      ensures CodeIsLatest(w', e) && RefIsLatest(w', e) && GenIsLatest(w', e)
    {
      assert CodeIsLatest(w, e) && RefIsLatest(w, e) && GenIsLatest(w, e);
      var i := Latest(w.issued, e);
      if i.Some? && e != email && Spent(w'.redeemed, i.value) {
        var k :| 0 <= k < |w'.redeemed| && w'.redeemed[k].challenge == i.value;
        assert w.issued[i.value].email == e && w.issued[latest].email == email;
        assert k < |w.redeemed| && w.redeemed[k].challenge == i.value;
      }
    }
    assert forall k :: 0 <= k < |w.redeemed| ==> w.redeemed[k].challenge != latest;
    assert forall k :: 0 <= k < |w.redeemed| ==> WellBound(w.issued, w.redeemed[k]);
  }

  lemma RemovalKeepsInv(w: World, store: Store)
    requires Inv(w) && forall k :: k in store ==> k in w.store && store[k] == w.store[k]
    ensures Inv(w.(store := store))
  {
    forall e
      ensures CodeIsLatest(w.(store := store), e) && RefIsLatest(w.(store := store), e)
      ensures GenIsLatest(w.(store := store), e)
    {
      assert CodeIsLatest(w, e) && RefIsLatest(w, e) && GenIsLatest(w, e);
    }
  }

  lemma StepKeepsInv(w: World, e: Event)
    requires Inv(w)
    requires e.Issue? ==> forall i :: 0 <= i < |w.issued| ==> w.issued[i].token != e.challenge.token
    ensures Inv(Step(w, e))
  {
    match e
    case Issue(c) => IssueKeepsInv(w, c);
    case TryCode(email, code) =>
      assert CodeIsLatest(w, email);
      if CodeMatches(w.store, email, code) { RedeemKeepsInv(w, email, AfterCode(w.store, email, code)); }
    case TryLink(token, email) =>
      assert RefIsLatest(w, email);
      var store := AfterLink(w.store, token, email);
      if LinkMatches(w.store, token, email) { RedeemKeepsInv(w, email, store); } else { RemovalKeepsInv(w, store); }
    case Expire(key) => RemovalKeepsInv(w, w.store - {key});
  }

  /** Over every run: at most one redemption per challenge, by code and link together. */
  lemma {:induction false} RunIsSingleUse(w: World, events: seq<Event>)
    requires Inv(w) && FreshTokens(w.issued, events)
    ensures Inv(Run(w, events)) && SingleUse(Run(w, events).issued, Run(w, events).redeemed)
    decreases |events|
  {
    if events != [] {
      StepKeepsInv(w, events[0]);
      RunIsSingleUse(Step(w, events[0]), events[1..]);
    }
  }

  lemma FromNothing(events: seq<Event>)
    requires FreshTokens([], events)
    ensures var w := Run(World(map[], [], []), events); SingleUse(w.issued, w.redeemed) && DistinctTokens(w.issued)
  {
    RunIsSingleUse(World(map[], [], []), events);
  }

  /** A redemption uses up the very challenge whose code or token was presented. */
  lemma RedeemsWhatWasPresented(w: World, email: string, presented: string)
    requires Inv(w)
    ensures var i := Latest(w.issued, email);
      && (CodeMatches(w.store, email, presented) ==> i.Some? && w.issued[i.value].code == presented)
      && (LinkMatches(w.store, presented, email) ==> i.Some? && w.issued[i.value].token == presented)
  {
    assert CodeIsLatest(w, email) && RefIsLatest(w, email);
  }

  /** A link that is not its email's latest never redeems again, whatever email the script is given. */
  lemma SupersededLinkNeverRedeems(w: World, i: nat, email: string)
    requires Inv(w) && i < |w.issued| && Latest(w.issued, w.issued[i].email) != Some(i)
    ensures Step(w, TryLink(w.issued[i].token, email)).redeemed == w.redeemed
  {
    assert RefIsLatest(w, email);
    assert forall j :: 0 <= j < |w.issued| && w.issued[j].token == w.issued[i].token ==> j == i;
  }

  /** Once superseded, always superseded. */
  lemma {:induction false} LatestOnlyGrows(w: World, events: seq<Event>, email: string)
    requires Latest(w.issued, email).Some?
    ensures w.issued <= Run(w, events).issued
    ensures var l := Latest(Run(w, events).issued, email); l.Some? && l.value >= Latest(w.issued, email).value
    decreases |events|
  {
    if events != [] {
      var w' := Step(w, events[0]);
      if events[0].Issue? { LatestAfterIssue(w.issued, events[0].challenge, email); }
      LatestOnlyGrows(w', events[1..], email);
    }
  }

  /** So a superseded link stays dead in every continuation. */
  lemma SupersededLinkStaysDead(w: World, i: nat, events: seq<Event>, email: string)
    requires Inv(w) && FreshTokens(w.issued, events)
    requires i < |w.issued| && Latest(w.issued, w.issued[i].email) != Some(i)
    ensures var w' := Run(w, events); Step(w', TryLink(w.issued[i].token, email)).redeemed == w'.redeemed
  {
    RunIsSingleUse(w, events);
    LatestOnlyGrows(w, events, w.issued[i].email);
    SupersededLinkNeverRedeems(Run(w, events), i, email);
  }

  // ---- An issued challenge redeems ----

  /** All four keys of a challenge are there. */
  predicate Held(s: Store, c: Challenge)
  {
    && Code(c.email) in s && s[Code(c.email)] == c.code
    && Magic(c.token) in s && s[Magic(c.token)] == c.email
    && MagicRef(c.email) in s && s[MagicRef(c.email)] == c.token
    && ChallengeGen(c.email) in s && s[ChallengeGen(c.email)] == Decimal(c.generation)
  }

  predicate Ready(w: World, i: nat)
  {
    i < |w.issued| && Latest(w.issued, w.issued[i].email) == Some(i) && Held(w.store, w.issued[i])
  }

  /** The event neither supersedes nor redeems the challenge, and expires none of its keys. */
  predicate Quiet(e: Event, c: Challenge)
  {
    match e
    case Issue(other) => other.email != c.email
    case TryCode(email, code) => email != c.email || code != c.code
    case TryLink(token, email) => email != c.email || token != c.token
    case Expire(key) => key !in {Code(c.email), Magic(c.token), MagicRef(c.email), ChallengeGen(c.email)}
  }

  lemma IssuedIsReady(w: World, c: Challenge)
    ensures Ready(Step(w, Issue(c)), |w.issued|)
  {
    LatestAfterIssue(w.issued, c, c.email);
  }

  lemma QuietStepKeepsReady(w: World, e: Event, i: nat)
    requires Inv(w) && Ready(w, i) && Quiet(e, w.issued[i])
    requires e.Issue? ==> forall j :: 0 <= j < |w.issued| ==> w.issued[j].token != e.challenge.token
    ensures Ready(Step(w, e), i) && Step(w, e).issued[i] == w.issued[i]
  {
    var c := w.issued[i];
    hide Held, WithChallenge, AfterCode, AfterLink, Inv;
    match e
    case Issue(other) =>
      LatestAfterIssue(w.issued, other, c.email);
      OtherToken(w, i, other.email);
      IssueKeepsHeld(w.store, other, c);
    case TryCode(email, code) =>
      OtherToken(w, i, email);
      CodeKeepsHeld(w.store, email, code, c);
    case TryLink(token, email) =>
      OtherToken(w, i, email);
      LinkKeepsHeld(w.store, token, email, c);
    case Expire(key) =>
      ExpiryKeepsHeld(w.store, key, c);
  }

  lemma IssueKeepsHeld(s: Store, other: Challenge, c: Challenge)
    requires Held(s, c) && other.email != c.email && other.token != c.token
    requires MagicRef(other.email) in s ==> s[MagicRef(other.email)] != c.token
    ensures Held(WithChallenge(s, other), c)
  {
  }

  lemma CodeKeepsHeld(s: Store, email: string, code: string, c: Challenge)
    requires Held(s, c) && (email != c.email || code != c.code)
    requires email != c.email && MagicRef(email) in s ==> s[MagicRef(email)] != c.token
    ensures Held(AfterCode(s, email, code), c)
  {
  }

  lemma LinkKeepsHeld(s: Store, token: string, email: string, c: Challenge)
    requires Held(s, c) && (email != c.email || token != c.token)
    ensures Held(AfterLink(s, token, email), c)
  {
  }

  lemma ExpiryKeepsHeld(s: Store, key: Key, c: Challenge)
    requires Held(s, c) && key !in {Code(c.email), Magic(c.token), MagicRef(c.email), ChallengeGen(c.email)}
    ensures Held(s - {key}, c)
  {
  }

  /** Another email's current link is not this challenge's. */
  lemma OtherToken(w: World, i: nat, email: string)
    requires Inv(w) && i < |w.issued|
    ensures email != w.issued[i].email && MagicRef(email) in w.store ==> w.store[MagicRef(email)] != w.issued[i].token
  {
    assert RefIsLatest(w, email);
  }

  /** The right code or the right link of a ready challenge redeems it, once, with the generation it was issued for. */
  lemma ReadyRedeems(w: World, i: nat)
    requires Ready(w, i)
    ensures var c := w.issued[i];
      && Step(w, TryCode(c.email, c.code)).redeemed == w.redeemed + [Redemption(i, c.generation)]
      && Step(w, TryLink(c.token, c.email)).redeemed == w.redeemed + [Redemption(i, c.generation)]
  {
    DecimalRoundTrip(w.issued[i].generation);
  }

  lemma {:induction false} QuietRunKeepsReady(w: World, events: seq<Event>, i: nat)
    requires Inv(w) && Ready(w, i) && FreshTokens(w.issued, events)
    requires forall e :: e in events ==> Quiet(e, w.issued[i])
    ensures Ready(Run(w, events), i) && Run(w, events).issued[i] == w.issued[i]
    decreases |events|
  {
    if events != [] {
      assert events[0] in events && forall e :: e in events[1..] ==> e in events;
      QuietStepKeepsReady(w, events[0], i);
      StepKeepsInv(w, events[0]);
      QuietRunKeepsReady(Step(w, events[0]), events[1..], i);
    }
  }

  /** An issued challenge redeems by code and by link after any run that leaves it alone. */
  lemma IssuedChallengeRedeems(w: World, c: Challenge, events: seq<Event>)
    requires Inv(w) && FreshTokens(w.issued, [Issue(c)] + events)
    requires forall e :: e in events ==> Quiet(e, c)
    ensures var w' := Run(Step(w, Issue(c)), events);
      && Step(w', TryCode(c.email, c.code)).redeemed == w'.redeemed + [Redemption(|w.issued|, c.generation)]
      && Step(w', TryLink(c.token, c.email)).redeemed == w'.redeemed + [Redemption(|w.issued|, c.generation)]
  {
    assert ([Issue(c)] + events)[1..] == events;
    IssuedIsReady(w, c);
    StepKeepsInv(w, Issue(c));
    QuietRunKeepsReady(Step(w, Issue(c)), events, |w.issued|);
    ReadyRedeems(Run(Step(w, Issue(c)), events), |w.issued|);
  }

  // ---- Runs of password-reset links ----

  datatype ResetWorld = ResetWorld(store: Store, links: seq<ResetLink>, used: seq<nat>)

  datatype ResetEvent =
    | IssueReset(link: ResetLink)
    | TryReset(digest: string, email: string)
    | ExpireReset(key: Key)

  /** The link last issued for an account; `account` maps an email to its normalized digest. */
  function LatestLink(links: seq<ResetLink>, account: string -> string, who: string): (r: Option<nat>)
    ensures r.Some? ==> r.value < |links| && account(links[r.value].email) == who
    ensures forall i :: 0 <= i < |links| && account(links[i].email) == who ==> r.Some? && i <= r.value
  {
    if links == [] then None
    else if account(links[|links| - 1].email) == who then Some(|links| - 1)
    else LatestLink(links[..|links| - 1], account, who)
  }

  function ResetStep(w: ResetWorld, account: string -> string, e: ResetEvent): ResetWorld
  {
    match e
    case IssueReset(link) => ResetWorld(WithReset(w.store, link, account(link.email)), w.links + [link], w.used)
    case TryReset(digest, email) =>
      var latest := LatestLink(w.links, account, account(email));
      ResetWorld(AfterReset(w.store, digest, account(email)), w.links,
        if ResetMatches(w.store, digest, account(email)) && latest.Some? then w.used + [latest.value] else w.used)
    case ExpireReset(key) => w.(store := w.store - {key})
  }

  function ResetRun(w: ResetWorld, account: string -> string, events: seq<ResetEvent>): ResetWorld
    decreases |events|
  {
    if events == [] then w else ResetRun(ResetStep(w, account, events[0]), account, events[1..])
  }

  lemma {:induction false} ResetRunGoesOn(w: ResetWorld, account: string -> string, events: seq<ResetEvent>,
    e: ResetEvent)
    ensures ResetRun(w, account, events + [e]) == ResetStep(ResetRun(w, account, events), account, e)
    decreases |events|
  {
    if events == [] {
      assert [e][1..] == [];
    } else {
      ResetRunGoesOn(ResetStep(w, account, events[0]), account, events[1..], e);
      assert (events + [e])[1..] == events[1..] + [e];
    }
  }

  ghost predicate FreshDigests(links: seq<ResetLink>, events: seq<ResetEvent>)
    decreases |events|
  {
    events != [] ==>
      match events[0]
      case IssueReset(link) =>
        (forall i :: 0 <= i < |links| ==> links[i].digest != link.digest) && FreshDigests(links + [link], events[1..])
      case _ => FreshDigests(links, events[1..])
  }

  ghost predicate ResetRefIsLatest(w: ResetWorld, account: string -> string, who: string)
  {
    ResetRef(who) in w.store ==>
      var i := LatestLink(w.links, account, who);
      i.Some? && i.value !in w.used && w.store[ResetRef(who)] == w.links[i.value].digest
  }

  /** The two value keys of a link still hold what was issued. */
  ghost predicate ResetValues(store: Store, link: ResetLink)
  {
    && (Reset(link.digest) in store ==> store[Reset(link.digest)] == link.email)
    && (ResetGen(link.digest) in store ==> store[ResetGen(link.digest)] == Decimal(link.generation))
  }

  ghost predicate ResetInv(w: ResetWorld, account: string -> string)
  {
    && (forall i, j :: 0 <= i < j < |w.links| ==> w.links[i].digest != w.links[j].digest)
    && (forall who :: ResetRefIsLatest(w, account, who))
    && (forall i :: 0 <= i < |w.links| ==> ResetValues(w.store, w.links[i]))
    && (forall i, j :: 0 <= i < j < |w.used| ==> w.used[i] != w.used[j])
    && (forall k :: 0 <= k < |w.used| ==> w.used[k] < |w.links|)
  }

  lemma ResetStepKeepsInv(w: ResetWorld, account: string -> string, e: ResetEvent)
    requires ResetInv(w, account)
    requires e.IssueReset? ==> forall i :: 0 <= i < |w.links| ==> w.links[i].digest != e.link.digest
    ensures ResetInv(ResetStep(w, account, e), account)
  {
    var w' := ResetStep(w, account, e);
    forall who
      ensures ResetRefIsLatest(w', account, who)
    {
      assert ResetRefIsLatest(w, account, who);
      if e.IssueReset? { assert w'.links[..|w.links|] == w.links; }
    }
    forall i | 0 <= i < |w'.links|
      ensures ResetValues(w'.store, w'.links[i])
    {
      assert i < |w.links| ==> ResetValues(w.store, w.links[i]);
    }
    if e.TryReset? { assert ResetRefIsLatest(w, account, account(e.email)); }
  }

  /** Over every run: each reset link is used at most once. */
  lemma {:induction false} ResetRunIsSingleUse(w: ResetWorld, account: string -> string, events: seq<ResetEvent>)
    requires ResetInv(w, account) && FreshDigests(w.links, events)
    ensures ResetInv(ResetRun(w, account, events), account)
    ensures var w' := ResetRun(w, account, events); forall i, j :: 0 <= i < j < |w'.used| ==> w'.used[i] != w'.used[j]
    decreases |events|
  {
    if events != [] {
      ResetStepKeepsInv(w, account, events[0]);
      ResetRunIsSingleUse(ResetStep(w, account, events[0]), account, events[1..]);
    }
  }

  /** What a successful consumption reports is exactly what the latest link of the account was bound to. */
  lemma ResetReportsItsBinding(w: ResetWorld, account: string -> string, digest: string, email: string)
    requires ResetInv(w, account) && ResetMatches(w.store, digest, account(email))
    ensures var i := LatestLink(w.links, account, account(email));
      && i.Some? && w.links[i.value].digest == digest && i.value !in w.used
      && w.store[Reset(digest)] == w.links[i.value].email
      && DecimalValue(w.store[ResetGen(digest)]) == w.links[i.value].generation
  {
    assert ResetRefIsLatest(w, account, account(email));
    var i := LatestLink(w.links, account, account(email)).value;
    assert ResetValues(w.store, w.links[i]);
    DecimalRoundTrip(w.links[i].generation);
  }

  // ---- An issued reset link can be used ----

  predicate ResetHeld(s: Store, link: ResetLink, account: string)
  {
    && Reset(link.digest) in s && s[Reset(link.digest)] == link.email
    && ResetGen(link.digest) in s && s[ResetGen(link.digest)] == Decimal(link.generation)
    && ResetRef(account) in s && s[ResetRef(account)] == link.digest
  }

  predicate ResetReady(w: ResetWorld, account: string -> string, i: nat)
  {
    i < |w.links| &&
    (var who := account(w.links[i].email);
     LatestLink(w.links, account, who) == Some(i) && ResetHeld(w.store, w.links[i], who))
  }

  /** The event neither supersedes nor presents the link, and expires none of its keys. */
  predicate ResetQuiet(e: ResetEvent, account: string -> string, link: ResetLink)
  {
    match e
    case IssueReset(other) => account(other.email) != account(link.email)
    case TryReset(digest, _) => digest != link.digest
    case ExpireReset(key) => key !in {Reset(link.digest), ResetGen(link.digest), ResetRef(account(link.email))}
  }

  lemma LatestLinkAfterIssue(links: seq<ResetLink>, account: string -> string, link: ResetLink, who: string)
    ensures LatestLink(links + [link], account, who) ==
      if account(link.email) == who then Some(|links|) else LatestLink(links, account, who)
  {
    assert (links + [link])[..|links|] == links;
  }

  lemma ResetQuietStepKeepsReady(w: ResetWorld, account: string -> string, e: ResetEvent, i: nat)
    requires ResetInv(w, account) && ResetReady(w, account, i) && ResetQuiet(e, account, w.links[i])
    requires e.IssueReset? ==> forall j :: 0 <= j < |w.links| ==> w.links[j].digest != e.link.digest
    ensures ResetReady(ResetStep(w, account, e), account, i) && ResetStep(w, account, e).links[i] == w.links[i]
  {
    var link := w.links[i];
    var who := account(link.email);
    match e
    case IssueReset(other) =>
      LatestLinkAfterIssue(w.links, account, other, who);
      assert ResetRefIsLatest(w, account, account(other.email));
      hide ResetHeld, WithReset;
      ResetIssueKeepsHeld(w.store, other, account(other.email), link, who);
    case TryReset(digest, email) =>
      hide ResetHeld, AfterReset;
      ResetAttemptKeepsHeld(w.store, digest, account(email), link, who);
    case ExpireReset(_) =>
  }

  lemma ResetIssueKeepsHeld(s: Store, other: ResetLink, otherAccount: string, link: ResetLink, account: string)
    requires ResetHeld(s, link, account) && otherAccount != account && other.digest != link.digest
    requires ResetRef(otherAccount) in s ==> s[ResetRef(otherAccount)] != link.digest
    ensures ResetHeld(WithReset(s, other, otherAccount), link, account)
  {
  }

  lemma ResetAttemptKeepsHeld(s: Store, digest: string, presented: string, link: ResetLink, account: string)
    requires ResetHeld(s, link, account) && digest != link.digest
    ensures ResetHeld(AfterReset(s, digest, presented), link, account)
  {
  }

  lemma {:induction false} ResetQuietRunKeepsReady(w: ResetWorld, account: string -> string, events: seq<ResetEvent>,
    i: nat)
    requires ResetInv(w, account) && ResetReady(w, account, i) && FreshDigests(w.links, events)
    requires forall e :: e in events ==> ResetQuiet(e, account, w.links[i])
    ensures ResetReady(ResetRun(w, account, events), account, i)
    ensures ResetRun(w, account, events).links[i] == w.links[i]
    decreases |events|
  {
    if events != [] {
      assert events[0] in events && forall e :: e in events[1..] ==> e in events;
      ResetQuietStepKeepsReady(w, account, events[0], i);
      ResetStepKeepsInv(w, account, events[0]);
      ResetQuietRunKeepsReady(ResetStep(w, account, events[0]), account, events[1..], i);
    }
  }

  /** An issued reset link works after any run that leaves it alone, and reports what it was issued for. */
  lemma IssuedResetCanBeUsed(w: ResetWorld, account: string -> string, link: ResetLink, events: seq<ResetEvent>)
    requires ResetInv(w, account) && FreshDigests(w.links, [IssueReset(link)] + events)
    requires forall e :: e in events ==> ResetQuiet(e, account, link)
    ensures var w' := ResetRun(ResetStep(w, account, IssueReset(link)), account, events);
      && ResetMatches(w'.store, link.digest, account(link.email))
      && w'.store[Reset(link.digest)] == link.email
      && DecimalValue(w'.store[ResetGen(link.digest)]) == link.generation
      && ResetStep(w', account, TryReset(link.digest, link.email)).used == w'.used + [|w.links|]
  {
    assert ([IssueReset(link)] + events)[1..] == events;
    LatestLinkAfterIssue(w.links, account, link, account(link.email));
    ResetStepKeepsInv(w, account, IssueReset(link));
    ResetQuietRunKeepsReady(ResetStep(w, account, IssueReset(link)), account, events, |w.links|);
    DecimalRoundTrip(link.generation);
  }
}
