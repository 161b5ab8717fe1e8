/** The in-memory session store: sweeping, capacity eviction, look-up and log-out, against the
    history of what was issued, logged out and evicted.

    Tokens are stored under their SHA-256 digest.
 */
module Sessions {
  import opened Wrappers
  import opened Digests
  import opened UserAccounts
  import Decimal

  const MAX_SESSIONS := 2_000

  datatype Session = Session(principal: Principal, csrf: string, expiresAt: real)
  type Store = map<Digest, Session>

  // ---------------------------------------------------------------- the operations on values

  function Live(s: Store, now: real): Store {
    map k | k in s && s[k].expiresAt > now :: s[k]
  }

  /** The sessions a sweep may evict: enough to make room for one, none of them expiring later
      than a session that stays.  Which of several expiring together go is open. */
  ghost predicate MayDrop(live: Store, dropped: set<Digest>) {
    && dropped <= live.Keys
    && |dropped| == (if |live| >= MAX_SESSIONS then |live| - MAX_SESSIONS + 1 else 0)
    && forall d, k :: d in dropped && k in live && k !in dropped ==> live[d].expiresAt <= live[k].expiresAt
  }

  function Swept(s: Store, now: real, dropped: set<Digest>): Store {
    Live(s, now) - dropped
  }

  /** A granted log-in, an `authenticate` call, a `logout` call; no token is the empty one. */
  datatype Event =
    | Login(token: string, session: Session, now: real, dropped: set<Digest>)
    | Lookup(token: string, now: real, dropped: set<Digest>)
    | Logout(token: string)

  function Apply(s: Store, e: Event): Store {
    match e
    case Login(token, session, now, dropped) => Swept(s, now, dropped)[Sha256(token) := session]
    case Lookup(_, now, dropped) => Swept(s, now, dropped)
    case Logout(token) => if token == "" then s else s - {Sha256(token)}
  }

  datatype Access =
    | AsSession(principal: Principal, csrf: string, token: string, expiresAt: int)
    | AsLocal
    | Denied

  /** The answer of `authenticate` on the swept store; `anonymous` is whether the loopback
      development identity is allowed and the caller is local. */
  function Answer(swept: Store, token: string, now: real, anonymous: bool): Access {
    if token != "" && Sha256(token) in swept && swept[Sha256(token)].expiresAt > now then
      var s := swept[Sha256(token)];
      AsSession(s.principal, s.csrf, token, s.expiresAt.Floor)
    else if anonymous then AsLocal
    else Denied
  }

  // ---------------------------------------------------------------- histories

  datatype History = Begin | Then(before: History, last: Event)

  function StoreOf(h: History): Store {
    match h
    case Begin => map[]
    case Then(before, e) => Apply(StoreOf(before), e)
  }

  /** The clock of the last sweep. */
  function Clock(h: History): Option<real> {
    match h
    case Begin => None
    case Then(before, Logout(_)) => Clock(before)
    case Then(_, e) => Some(e.now)
  }

  predicate Since(clock: Option<real>, now: real) {
    clock.Some? ==> clock.value <= now
  }

  predicate Clocked(h: History) {
    match h
    case Begin => true
    case Then(before, Logout(_)) => Clocked(before)
    case Then(before, e) => Clocked(before) && Since(Clock(before), e.now)
  }

  /** The session `token` was last issued, unless it was logged out or evicted since. */
  function Granted(h: History, token: string): Option<Session> {
    match h
    case Begin => None
    case Then(before, Login(issued, session, _, dropped)) =>
      if issued == token then Some(session)
      else if Sha256(token) in dropped then None
      else Granted(before, token)
    case Then(before, Lookup(_, _, dropped)) =>
      if Sha256(token) in dropped then None else Granted(before, token)
    case Then(before, Logout(gone)) =>
      if gone == token && token != "" then None else Granted(before, token)
  }

  /** Sessions are issued unexpired. */
  predicate IssuedFresh(h: History) {
    match h
    case Begin => true
    case Then(before, e) => IssuedFresh(before) && (e.Login? ==> e.session.expiresAt > e.now)
  }

  function Unexpired(session: Option<Session>, clock: Option<real>): Option<Session> {
    if session.Some? && clock.Some? && session.value.expiresAt <= clock.value then None else session
  }

  function Stored(s: Store, token: string): Option<Session> {
    if Sha256(token) in s then Some(s[Sha256(token)]) else None
  }

  lemma SweptStored(s: Store, now: real, dropped: set<Digest>, token: string)
    ensures Stored(Swept(s, now, dropped), token)
         == if Sha256(token) in dropped then None else Unexpired(Stored(s, token), Some(now))
  {
  }

  /** The store is the history's granted and unexpired sessions, token by token. */
  lemma {:induction false} StoreIsHistory(h: History, token: string)
    requires Clocked(h) && IssuedFresh(h)
    ensures Stored(StoreOf(h), token) == Unexpired(Granted(h, token), Clock(h))
  {
    match h
    case Begin =>
    case Then(before, e) =>
      StoreIsHistory(before, token);
      if !e.Logout? {
        SweptStored(StoreOf(before), e.now, e.dropped, token);
      }
  }

  function HistoryAnswer(granted: Option<Session>, token: string, now: real, anonymous: bool): Access {
    if token != "" && granted.Some? && granted.value.expiresAt > now then
      AsSession(granted.value.principal, granted.value.csrf, token, granted.value.expiresAt.Floor)
    else if anonymous then AsLocal
    else Denied
  }

  /** Session refinement: `authenticate` answers with a session exactly when the token was
      issued and neither logged out nor evicted, by this call included, nor expired; and then
      with the principal and token data of the issuing log-in. */
  lemma {:induction false} AuthenticateIffGranted(h: History, token: string, now: real, dropped: set<Digest>, anonymous: bool)
    requires Clocked(Then(h, Lookup(token, now, dropped))) && IssuedFresh(h)
    ensures Answer(Swept(StoreOf(h), now, dropped), token, now, anonymous)
         == HistoryAnswer(Granted(Then(h, Lookup(token, now, dropped)), token), token, now, anonymous)
  {
    StoreIsHistory(h, token);
    SweptStored(StoreOf(h), now, dropped, token);
  }

  // ---------------------------------------------------------------- capacity

  ghost predicate DropsFairly(h: History) {
    match h
    case Begin => true
    case Then(before, Logout(_)) => DropsFairly(before)
    case Then(before, e) => DropsFairly(before) && MayDrop(Live(StoreOf(before), e.now), e.dropped)
  }

  lemma SubMapSize(s: Store, t: Store)
    requires s.Keys <= t.Keys
    ensures |s| <= |t|
  {
    assert t.Keys == s.Keys + (t.Keys - s.Keys);
    assert |s| == |s.Keys| && |t| == |t.Keys|;
  }

  lemma MinusSize(s: Store, keys: set<Digest>)
    requires keys <= s.Keys
    ensures |s - keys| == |s| - |keys|
  {
    assert s.Keys == (s - keys).Keys + keys;
    assert |s| == |s.Keys| && |s - keys| == |(s - keys).Keys|;
  }

  /** One sweep of a store within its limit: at most one session is evicted, only when 2000 are
      live, and the 1999 that stay expire no sooner. */
  lemma SweepOfBoundedStore(s: Store, now: real, dropped: set<Digest>)
    requires |s| <= MAX_SESSIONS && MayDrop(Live(s, now), dropped)
    ensures |Swept(s, now, dropped)| < MAX_SESSIONS
    ensures dropped != {} <==> |Live(s, now)| == MAX_SESSIONS
    ensures dropped != {} ==> |dropped| == 1 && |Swept(s, now, dropped)| == MAX_SESSIONS - 1
    ensures forall d, k :: d in dropped && k in Swept(s, now, dropped) ==> s[d].expiresAt <= s[k].expiresAt
  {
    var live := Live(s, now);
    SubMapSize(live, s);
    MinusSize(live, dropped);
  }

  lemma {:induction false} StoreBounded(h: History)
    requires DropsFairly(h)
    ensures |StoreOf(h)| <= MAX_SESSIONS
  {
    hide MayDrop, Swept, Live;
    match h
    case Begin =>
    case Then(before, e) =>
      StoreBounded(before);
      var s := StoreOf(before);
      if e.Logout? {
        SubMapSize(StoreOf(h), s);
      } else {
        SweepOfBoundedStore(s, e.now, e.dropped);
        if e.Login? {
          var swept := Swept(s, e.now, e.dropped);
          assert swept[Sha256(e.token) := e.session].Keys == swept.Keys + {Sha256(e.token)};
        }
      }
  }

  /** The capacity is 1999 sessions in practice: a look-up in a store of 2000 live sessions
      evicts one, whatever token is presented. */
  lemma FullStoreLookupEvicts(h: History, token: string, now: real, dropped: set<Digest>)
    requires DropsFairly(Then(h, Lookup(token, now, dropped)))
    requires |Live(StoreOf(h), now)| == MAX_SESSIONS
    ensures exists d :: dropped == {d}
    ensures |StoreOf(Then(h, Lookup(token, now, dropped)))| == MAX_SESSIONS - 1
  {
    StoreBounded(h);
    SweepOfBoundedStore(StoreOf(h), now, dropped);
    var d :| d in dropped;
    assert dropped - {d} == {} by { assert |dropped - {d}| == 0; }
    assert dropped == {d};
  }

  /** The token names a live session. */
  predicate LiveToken(live: Store, token: string) {
    token != "" && Sha256(token) in live
  }

  /** Some live session expires before the token's. */
  predicate SomeSooner(live: Store, token: string)
    requires LiveToken(live, token)
  {
    exists k :: k in live && live[k].expiresAt < live[Sha256(token)].expiresAt
  }

  /** Every other live session expires after the token's. */
  predicate OthersLater(live: Store, token: string)
    requires LiveToken(live, token)
  {
    forall k :: k in live && k != Sha256(token) ==> live[Sha256(token)].expiresAt < live[k].expiresAt
  }

  /** A live token loses its session by being presented exactly when the sweep takes it. */
  lemma AnsweredUnlessDropped(s: Store, token: string, now: real, dropped: set<Digest>, anonymous: bool)
    requires LiveToken(Live(s, now), token)
    ensures Answer(Swept(s, now, dropped), token, now, anonymous).AsSession? <==> Sha256(token) !in dropped
  {
  }

  lemma OnlyOne(dropped: set<Digest>, d: Digest)
    requires |dropped| == 1 && d in dropped
    ensures dropped == {d}
  {
    assert |dropped - {d}| == 0;
  }

  /** Dropping this one token is allowed exactly when the store is full and none expires sooner. */
  lemma MayDropToken(live: Store, token: string)
    requires |live| <= MAX_SESSIONS && LiveToken(live, token)
    ensures MayDrop(live, {Sha256(token)}) <==> |live| == MAX_SESSIONS && !SomeSooner(live, token)
  {
  }

  lemma SomeDrop(live: Store, k: Digest)
    requires |live| == MAX_SESSIONS && k in live
    requires forall j :: j in live ==> live[k].expiresAt <= live[j].expiresAt
    ensures MayDrop(live, {k})
  {
  }

  /** A live token presented to a store within its limit is answered, whatever the order of
      sessions that expire together, exactly when the store is not full or some live session
      expires sooner. */
  lemma AnsweredIff(s: Store, token: string, now: real, anonymous: bool)
    requires |s| <= MAX_SESSIONS && LiveToken(Live(s, now), token)
    ensures (forall dropped :: MayDrop(Live(s, now), dropped) ==> Answer(Swept(s, now, dropped), token, now, anonymous).AsSession?)
       <==> |Live(s, now)| < MAX_SESSIONS || SomeSooner(Live(s, now), token)
  {
    hide Swept, Answer;
    var live, mine := Live(s, now), Sha256(token);
    SubMapSize(live, s);
    AnsweredUnlessDropped(s, token, now, {mine}, anonymous);
    MayDropToken(live, token);
    forall dropped | MayDrop(live, dropped)
      ensures mine in dropped ==> MayDrop(live, {mine})
      ensures Answer(Swept(s, now, dropped), token, now, anonymous).AsSession? <==> mine !in dropped
    {
      AnsweredUnlessDropped(s, token, now, dropped, anonymous);
      if mine in dropped {
        SweepOfBoundedStore(s, now, dropped);
        OnlyOne(dropped, mine);
      }
    }
  }

  /** It is refused, whatever that order, exactly when the store is full and every other live
      session expires later: a valid token then ends its own session by being presented. */
  lemma RefusedIff(s: Store, token: string, now: real, anonymous: bool)
    requires |s| <= MAX_SESSIONS && LiveToken(Live(s, now), token)
    ensures (forall dropped :: MayDrop(Live(s, now), dropped) ==> !Answer(Swept(s, now, dropped), token, now, anonymous).AsSession?)
       <==> |Live(s, now)| == MAX_SESSIONS && OthersLater(Live(s, now), token)
  {
    hide Swept, Answer;
    var live, mine := Live(s, now), Sha256(token);
    SubMapSize(live, s);
    forall dropped | MayDrop(live, dropped)
      ensures Answer(Swept(s, now, dropped), token, now, anonymous).AsSession? <==> mine !in dropped
      ensures |live| == MAX_SESSIONS && OthersLater(live, token) ==> mine in dropped
    {
      AnsweredUnlessDropped(s, token, now, dropped, anonymous);
      SweepOfBoundedStore(s, now, dropped);
    }
    if |live| < MAX_SESSIONS {
      assert MayDrop(live, {});
    } else if !OthersLater(live, token) {
      OtherSoonest(live, token);
      var k :| k != mine && MayDrop(live, {k});
    }
  }

  /** A session other than the token's that expires no later than any. */
  lemma OtherSoonest(live: Store, token: string)
    requires |live| == MAX_SESSIONS && LiveToken(live, token) && !OthersLater(live, token)
    ensures exists k :: k != Sha256(token) && MayDrop(live, {k})
  {
    var mine := Sha256(token);
    var j :| j in live && j != mine && live[j].expiresAt <= live[mine].expiresAt;
    assert j in live.Keys - {mine};
    var k := SoonestOf(live, live.Keys - {mine});
    forall i | i in live ensures live[k].expiresAt <= live[i].expiresAt {
      assert i == mine || i in live.Keys - {mine};
      assert live[k].expiresAt <= live[j].expiresAt;
    }
    SomeDrop(live, k);
  }

  lemma {:induction false} SoonestOf(live: Store, keys: set<Digest>) returns (k: Digest)
    requires keys != {} && keys <= live.Keys
    ensures k in keys && forall j :: j in keys ==> live[k].expiresAt <= live[j].expiresAt
    decreases |keys|
  {
    k :| k in keys;
    if keys != {k} {
      assert keys == {k} + (keys - {k});
      var rest := SoonestOf(live, keys - {k});
      if live[rest].expiresAt < live[k].expiresAt {
        k := rest;
      }
    }
  }

  /** When no other session expires together with the token's, one condition decides. */
  lemma AnsweredIffNotSoonest(s: Store, token: string, now: real, dropped: set<Digest>, anonymous: bool)
    requires |s| <= MAX_SESSIONS && LiveToken(Live(s, now), token) && MayDrop(Live(s, now), dropped)
    requires forall k :: k in Live(s, now) && k != Sha256(token) ==> s[k].expiresAt != s[Sha256(token)].expiresAt
    ensures Answer(Swept(s, now, dropped), token, now, anonymous).AsSession?
       <==> |Live(s, now)| < MAX_SESSIONS || SomeSooner(Live(s, now), token)
  {
    hide Swept, Answer, MayDrop;
    var live := Live(s, now);
    SubMapSize(live, s);
    if |live| < MAX_SESSIONS || SomeSooner(live, token) {
      AnsweredIff(s, token, now, anonymous);
    } else {
      assert OthersLater(live, token);
      RefusedIff(s, token, now, anonymous);
    }
  }

  /** A stable sort over the table in order of insertion: of sessions that expire together, the
      one inserted first goes. */
  ghost predicate StablyDropped(live: Store, inserted: map<Digest, nat>, dropped: set<Digest>)
    requires live.Keys <= inserted.Keys
  {
    && MayDrop(live, dropped)
    && forall d, k :: d in dropped && k in live && k !in dropped && live[d].expiresAt == live[k].expiresAt ==>
         inserted[d] < inserted[k]
  }

  /** Some live session goes before the token's. */
  predicate SomeGoesBefore(live: Store, inserted: map<Digest, nat>, token: string)
    requires live.Keys <= inserted.Keys && LiveToken(live, token)
  {
    var mine := Sha256(token);
    exists k :: k in live
             && (live[k].expiresAt < live[mine].expiresAt
                 || (live[k].expiresAt == live[mine].expiresAt && inserted[k] < inserted[mine]))
  }

  lemma LiveSize(s: Store, now: real)
    ensures |Live(s, now)| <= |s|
  {
    SubMapSize(Live(s, now), s);
  }

  /** With ties settled by insertion, as in the source, one condition decides every case. */
  lemma AnsweredIffNotFirst(s: Store, token: string, now: real, inserted: map<Digest, nat>, dropped: set<Digest>, anonymous: bool)
    requires |s| <= MAX_SESSIONS && LiveToken(Live(s, now), token) && Live(s, now).Keys <= inserted.Keys
    requires StablyDropped(Live(s, now), inserted, dropped)
    ensures Answer(Swept(s, now, dropped), token, now, anonymous).AsSession?
       <==> |Live(s, now)| < MAX_SESSIONS || SomeGoesBefore(Live(s, now), inserted, token)
  {
    hide Swept, Answer, Live;
    AnsweredUnlessDropped(s, token, now, dropped, anonymous);
    SweepOfBoundedStore(s, now, dropped);
    LiveSize(s, now);
    if d :| d in dropped {
      OnlyOne(dropped, d);
    }
  }

  // ---------------------------------------------------------------- a full store is reached

  /** n log-ins, one a second, each for a session of eight hours. */
  function Crowd(n: nat, principal: Principal): History {
    if n == 0 then Begin
    else
      Then(Crowd(n - 1, principal),
           Login(Decimal.Print(n), Session(principal, "", n as real + 28_800.0), n as real, {}))
  }

  /** All n sessions are there, the first expiring before the others. */
  predicate IsCrowd(s: Store, n: nat) {
    && |s| == n
    && (n > 0 ==> Sha256("1") in s && s[Sha256("1")].expiresAt == 28_801.0)
    && forall k :: k in s ==>
         Decimal.Value(k.preimage) <= n && s[k].expiresAt >= 28_801.0
         && (k != Sha256("1") ==> s[k].expiresAt > 28_801.0)
  }

  lemma JoinCrowd(s: Store, n: nat, principal: Principal)
    requires IsCrowd(s, n)
    ensures IsCrowd(s[Sha256(Decimal.Print(n + 1)) := Session(principal, "", (n + 1) as real + 28_800.0)], n + 1)
  {
    hide Decimal.Print, Decimal.Value, Decimal.AllDigits;
    var mine := Sha256(Decimal.Print(n + 1));
    Decimal.ValueOfPrint(n + 1);
    assert Decimal.Print(1) == "1" && Decimal.Value("1") == 1 by { PrintOne(); }
    assert mine !in s;
    PutNew(s, mine, Session(principal, "", (n + 1) as real + 28_800.0));
    assert n > 0 ==> mine != Sha256("1");
  }

  lemma PrintOne()
    ensures Decimal.Print(1) == "1" && Decimal.Value("1") == 1
  {
    assert Decimal.Value(""[..0]) == 0;
  }

  lemma PutNew(s: Store, k: Digest, session: Session)
    requires k !in s
    ensures |s[k := session]| == |s| + 1
  {
    assert s[k := session].Keys == s.Keys + {k};
    assert |s[k := session]| == |s[k := session].Keys| && |s| == |s.Keys|;
  }

  /** Nothing has expired by the time of the latest log-in. */
  lemma CrowdLives(s: Store, n: nat, now: real)
    requires IsCrowd(s, n) && now <= MAX_SESSIONS as real
    ensures Live(s, now) == s == Swept(s, now, {})
  {
    assert Live(s, now) == s;
    assert s - {} == s;
  }

  lemma {:induction false} CrowdIs(n: nat, principal: Principal)
    requires n <= MAX_SESSIONS
    ensures var h := Crowd(n, principal);
            && Clocked(h) && IssuedFresh(h) && DropsFairly(h) && IsCrowd(StoreOf(h), n)
            && Clock(h) == if n == 0 then None else Some(n as real)
  {
    hide IsCrowd, Live, Swept;
    if n == 0 {
      assert IsCrowd(map[], 0) by { NoCrowd(); }
    } else {
      var s := StoreOf(Crowd(n - 1, principal));
      CrowdIs(n - 1, principal);
      CrowdLives(s, n - 1, n as real);
      CrowdSize(s, n - 1);
      JoinCrowd(s, n - 1, principal);
      assert MayDrop(s, {});
    }
  }

  lemma NoCrowd()
    ensures IsCrowd(map[], 0)
  {
  }

  lemma CrowdSize(s: Store, n: nat)
    requires IsCrowd(s, n)
    ensures |s| == n
  {
  }

  /** A full store is reached by 2000 log-ins; a look-up of the first token, still valid, is then
      refused, and a look-up of any other is answered. */
  lemma FullStoreIsReached(principal: Principal, dropped: set<Digest>, anonymous: bool)
    requires MayDrop(Live(StoreOf(Crowd(MAX_SESSIONS, principal)), 2_000.0), dropped)
    ensures var h := Crowd(MAX_SESSIONS, principal);
            && Clocked(h) && IssuedFresh(h) && DropsFairly(h)
            && |Live(StoreOf(h), 2_000.0)| == MAX_SESSIONS
            && forall token :: LiveToken(Live(StoreOf(h), 2_000.0), token) ==>
                 (Answer(Swept(StoreOf(h), 2_000.0, dropped), token, 2_000.0, anonymous).AsSession? <==> token != "1")
    ensures LiveToken(Live(StoreOf(Crowd(MAX_SESSIONS, principal)), 2_000.0), "1")
  {
    hide Swept, Answer, MayDrop, Live;
    var h := Crowd(MAX_SESSIONS, principal);
    CrowdIs(MAX_SESSIONS, principal);
    var s := StoreOf(h);
    CrowdLives(s, MAX_SESSIONS, 2_000.0);
    forall token | LiveToken(s, token)
      ensures Answer(Swept(s, 2_000.0, dropped), token, 2_000.0, anonymous).AsSession? <==> token != "1"
    {
      if token == "1" {
        assert OthersLater(s, token);
        RefusedIff(s, token, 2_000.0, anonymous);
      } else {
        assert SomeSooner(s, token);
        AnsweredIff(s, token, 2_000.0, anonymous);
      }
    }
  }
}
