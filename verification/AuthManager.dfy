/** The account manager: log-in with throttling, session look-up and log-out, updating three
    dictionaries in place.

    Each method leaves the dictionaries in the state that LoginThrottle and Sessions compute
    from the calls made so far; `attempts` and `history` record those calls.  The clock, the
    random tokens and the loopback test of the caller's address are parameters.
 */
module AuthManager {
  import opened Wrappers
  import opened Digests
  import opened UserAccounts
  import Decimal
  import PasswordHash
  import LoginThrottle
  import LoginBuckets
  import Sessions

  type Pair = LoginThrottle.Pair
  type Times = LoginThrottle.Times

  // ---------------------------------------------------------------- sorting keys by a rank

  predicate Distinct<K(==)>(xs: seq<K>) {
    forall i, j :: 0 <= i < j < |xs| ==> xs[i] != xs[j]
  }

  lemma {:induction false} DistinctCount<K>(xs: seq<K>)
    requires Distinct(xs)
    ensures |set x | x in xs| == |xs|
    decreases |xs|
  {
    if xs == [] {
      assert (set x | x in xs) == {};
    } else {
      var front, last := xs[..|xs| - 1], xs[|xs| - 1];
      DistinctCount(front);
      assert (set x | x in xs) == (set x | x in front) + {last};
      assert last !in front;
    }
  }

  /** `sorted(ranks, key=ranks.get)`; the order among equal ranks is open. */
  method SortByRank<K(==)>(ranks: map<K, real>) returns (order: seq<K>)
    ensures Distinct(order) && |order| == |ranks|
    ensures forall k :: k in order <==> k in ranks
    ensures SortedBy(ranks, order)
  {
    order := [];
    var left := ranks.Keys;
    while left != {}
      invariant left <= ranks.Keys && Distinct(order) && |order| + |left| == |ranks|
      invariant forall k :: k in ranks <==> k in order || k in left
      invariant forall k :: k in order ==> k !in left
      invariant forall i, j :: 0 <= i < j < |order| ==> ranks[order[i]] <= ranks[order[j]]
      invariant forall i, k :: 0 <= i < |order| && k in left ==> ranks[order[i]] <= ranks[k]
      decreases |left|
    {
      var least :| least in left;
      var rest := left - {least};
      while rest != {}
        invariant least in left && rest < left
        invariant forall k :: k in left && k !in rest ==> ranks[least] <= ranks[k]
        decreases |rest|
      {
        var k :| k in rest;
        rest := rest - {k};
        if ranks[k] < ranks[least] {
          least := k;
        }
      }
      order := order + [least];
      left := left - {least};
    }
  }

  ghost function First<K>(order: seq<K>, n: nat): set<K>
    requires n <= |order|
  {
    set k | k in order[..n]
  }

  lemma FirstOfNone<K>(order: seq<K>)
    ensures First(order, 0) == {}
  {
  }

  lemma FirstGrows<K>(order: seq<K>, n: nat)
    requires n < |order|
    ensures First(order, n + 1) == First(order, n) + {order[n]}
  {
    assert order[..n + 1] == order[..n] + [order[n]];
  }

  ghost predicate SortedBy<K>(ranks: map<K, real>, order: seq<K>)
    requires forall k :: k in order ==> k in ranks
  {
    forall i, j :: 0 <= i < j < |order| ==> ranks[order[i]] <= ranks[order[j]]
  }

  /** The first `n` keys of a sorted order are `n` keys of least rank. */
  lemma FirstOfOrder<K>(ranks: map<K, real>, order: seq<K>, n: nat)
    requires n <= |order| && Distinct(order)
    requires forall k :: k in order <==> k in ranks
    requires SortedBy(ranks, order)
    ensures |First(order, n)| == n && First(order, n) <= ranks.Keys
    ensures forall f, k :: f in First(order, n) && k in ranks && k !in First(order, n) ==> ranks[f] <= ranks[k]
  {
    DistinctCount(order[..n]);
    forall f, k | f in First(order, n) && k in ranks && k !in First(order, n) ensures ranks[f] <= ranks[k] {
      var i :| 0 <= i < n && order[i] == f;
      var j :| 0 <= j < |order| && order[j] == k;
      assert k !in order[..n];
    }
  }

  lemma MinusGrows<K, V>(m: map<K, V>, gone: set<K>, k: K)
    ensures m - {} == m && m - gone - {k} == m - (gone + {k})
  {
  }

  /** `for key in order[:n]: m.pop(key)` */
  method RemoveFirst<K(==), V>(m: map<K, V>, order: seq<K>, n: nat) returns (left: map<K, V>)
    requires n <= |order|
    ensures left == m - First(order, n)
  {
    hide First;
    left := m;
    ghost var gone := {};
    FirstOfNone(order);
    for i := 0 to n
      invariant left == m - gone && gone == First(order, i)
    {
      FirstGrows(order, i);
      MinusGrows(m, gone, order[i]);
      gone := gone + {order[i]};
      left := left - {order[i]};
    }
  }

  /** Pops the `excess` keys of least rank: `for key in sorted(m, key=rank)[:excess]`. */
  method PopLeast<K(==), V>(m: map<K, V>, ranks: map<K, real>, excess: nat)
    returns (left: map<K, V>, ghost gone: set<K>)
    requires ranks.Keys == m.Keys && excess <= |m|
    ensures left == m - gone
    ensures gone <= m.Keys && |gone| == excess
    ensures forall g, k :: g in gone && k in m && k !in gone ==> ranks[g] <= ranks[k]
  {
    hide First, Distinct, SortedBy;
    assert |ranks| == |ranks.Keys| && |m| == |m.Keys|;
    var oldest := SortByRank(ranks);
    FirstOfOrder(ranks, oldest, excess);
    gone := First(oldest, excess);
    left := RemoveFirst(m, oldest, excess);
  }

  // ---------------------------------------------------------------- pruning in place

  /** A dictionary of lists with the keys outside `todo` already pruned. */
  function PartlyPruned<K(!new)>(m: map<K, Times>, todo: set<K>, cutoff: real): map<K, Times> {
    map k | k in m && (k in todo || LoginThrottle.After(m[k], cutoff) != [])
      :: if k in todo then m[k] else LoginThrottle.After(m[k], cutoff)
  }

  lemma PartlyPrunedEnds<K(!new)>(m: map<K, Times>, cutoff: real)
    ensures PartlyPruned(m, m.Keys, cutoff) == m
    ensures PartlyPruned(m, {}, cutoff) == LoginThrottle.Pruned(m, cutoff)
  {
  }

  lemma PruneOneKey<K(!new)>(m: map<K, Times>, todo: set<K>, k: K, cutoff: real)
    requires k in todo && k in m
    ensures var n, active := PartlyPruned(m, todo, cutoff), LoginThrottle.After(m[k], cutoff);
            && k in n && n[k] == m[k]
            && PartlyPruned(m, todo - {k}, cutoff) == if active != [] then n[k := active] else n - {k}
  {
  }

  // ---------------------------------------------------------------- the manager

  datatype LoginReply =
    | LoggedIn(context: Sessions.Access, maxAge: int)
    | AuthenticationFailed
    | LoginThrottled

  datatype InitError = SessionTtlOutOfRange

  class Manager {
    const kdf: PasswordHash.Kdf
    const accounts: map<string, UserAccount>
    const allowAnonymousLocal: bool
    const sessionTtl: int

    var sessions: Sessions.Store
    var loginFailures: map<Pair, Times>
    var remoteLoginFailures: map<string, Times>

    ghost var attempts: LoginThrottle.Run
    ghost var history: Sessions.History

    function Tables(): LoginThrottle.Tables
      reads this
    {
      LoginThrottle.Tables(loginFailures, remoteLoginFailures)
    }

    ghost predicate Valid()
      reads this
    {
      && sessionTtl > 0
      && Tables() == LoginThrottle.State(attempts)
      && EvictsFairly(attempts)
      && sessions == Sessions.StoreOf(history)
      && Sessions.DropsFairly(history)
      && Sessions.IssuedFresh(history)
    }

    /** Every purge of the run evicted only what it may. */
    static ghost predicate EvictsFairly(run: LoginThrottle.Run) {
      run.Then? ==>
        && EvictsFairly(run.before)
        && LoginThrottle.MayEvict(
             LoginThrottle.Pruned(LoginThrottle.State(run.before).pairs, run.last.now - LoginThrottle.WINDOW),
             run.last.gone)
    }

    constructor Init(kdf: PasswordHash.Kdf, accounts: seq<UserAccount>, allowAnonymousLocal: bool, sessionTtl: int)
      requires sessionTtl > 0
      ensures Valid() && fresh(this)
      ensures attempts == LoginThrottle.Start && history == Sessions.Begin
      ensures this.kdf == kdf && this.accounts == ByActor(accounts)
      ensures this.allowAnonymousLocal == allowAnonymousLocal && this.sessionTtl == sessionTtl
    {
      this.kdf, this.accounts := kdf, ByActor(accounts);
      this.allowAnonymousLocal, this.sessionTtl := allowAnonymousLocal, sessionTtl;
      sessions, loginFailures, remoteLoginFailures := map[], map[], map[];
      attempts, history := LoginThrottle.Start, Sessions.Begin;
    }

    static method Create(kdf: PasswordHash.Kdf, accounts: seq<UserAccount>, allowAnonymousLocal: bool, sessionTtl: int)
      returns (r: Result<Manager, InitError>)
      ensures r.Success? <==> 300 <= sessionTtl <= 7 * 24 * 60 * 60
      ensures r.Success? ==>
                && fresh(r.value) && r.value.Valid()
                && r.value.attempts == LoginThrottle.Start && r.value.history == Sessions.Begin
                && r.value.kdf == kdf && r.value.accounts == ByActor(accounts)
                && r.value.allowAnonymousLocal == allowAnonymousLocal && r.value.sessionTtl == sessionTtl
    {
      if !(300 <= sessionTtl <= 7 * 24 * 60 * 60) {
        return Failure(SessionTtlOutOfRange);
      }
      var manager := new Manager.Init(kdf, accounts, allowAnonymousLocal, sessionTtl);
      r := Success(manager);
    }

    /** `_purge`: drop what has expired, then make room for one session. */
    method PurgeSessions(now: real) returns (ghost dropped: set<Digest>)
      modifies this`sessions
      ensures Sessions.MayDrop(Sessions.Live(old(sessions), now), dropped)
      ensures sessions == Sessions.Swept(old(sessions), now, dropped)
      ensures forall k :: k in sessions <==> k in old(sessions) && old(sessions)[k].expiresAt > now && k !in dropped
      ensures forall k :: k in sessions ==> sessions[k] == old(sessions)[k]
    {
      ghost var was := sessions;
      var todo := sessions.Keys;
      while todo != {}
        invariant todo <= was.Keys
        invariant sessions == map k | k in was && (k in todo || was[k].expiresAt > now) :: was[k]
        decreases |todo|
      {
        var key :| key in todo;
        if sessions[key].expiresAt <= now {
          sessions := sessions - {key};
        }
        todo := todo - {key};
      }
      ghost var live := sessions;
      assert live == Sessions.Live(was, now) && live - {} == live;
      dropped := {};
      if |sessions| >= Sessions.MAX_SESSIONS {
        var ranks := map k | k in sessions :: sessions[k].expiresAt;
        sessions, dropped := PopLeast(sessions, ranks, |sessions| - Sessions.MAX_SESSIONS + 1);
      }
    }

    /** `_purge_login_failures` */
    method PurgeLoginFailures(now: real) returns (ghost gone: set<Pair>)
      modifies this`loginFailures, this`remoteLoginFailures
      ensures LoginThrottle.MayEvict(LoginThrottle.Pruned(old(loginFailures), now - LoginThrottle.WINDOW), gone)
      ensures Tables() == LoginThrottle.Purge(old(Tables()), now, gone)
    {
      hide LoginThrottle.After, LoginThrottle.Max, PartlyPruned;
      var cutoff := now - LoginThrottle.WINDOW;
      ghost var pairsWere, remotesWere := loginFailures, remoteLoginFailures;
      PartlyPrunedEnds(loginFailures, cutoff);
      PartlyPrunedEnds(remoteLoginFailures, cutoff);
      var todo := loginFailures.Keys;
      while todo != {}
        invariant todo <= pairsWere.Keys && loginFailures == PartlyPruned(pairsWere, todo, cutoff)
        invariant remoteLoginFailures == remotesWere
        decreases |todo|
      {
        var key :| key in todo;
        PruneOneKey(pairsWere, todo, key, cutoff);
        var active := LoginThrottle.After(loginFailures[key], cutoff);
        if active != [] {
          loginFailures := loginFailures[key := active];
        } else {
          loginFailures := loginFailures - {key};
        }
        todo := todo - {key};
      }
      var remotes := remoteLoginFailures.Keys;
      while remotes != {}
        invariant remotes <= remotesWere.Keys && remoteLoginFailures == PartlyPruned(remotesWere, remotes, cutoff)
        invariant loginFailures == LoginThrottle.Pruned(pairsWere, cutoff)
        decreases |remotes|
      {
        var key :| key in remotes;
        PruneOneKey(remotesWere, remotes, key, cutoff);
        var active := LoginThrottle.After(remoteLoginFailures[key], cutoff);
        if active != [] {
          remoteLoginFailures := remoteLoginFailures[key := active];
        } else {
          remoteLoginFailures := remoteLoginFailures - {key};
        }
        remotes := remotes - {key};
      }
      gone := EvictBuckets();
    }

    /** The capacity eviction at the end of `_purge_login_failures`. */
    method EvictBuckets() returns (ghost gone: set<Pair>)
      requires forall k :: k in loginFailures ==> loginFailures[k] != []
      modifies this`loginFailures
      ensures LoginThrottle.MayEvict(old(loginFailures), gone)
      ensures loginFailures == old(loginFailures) - gone
    {
      hide LoginThrottle.Max;
      gone := {};
      assert loginFailures - {} == loginFailures;
      if |loginFailures| > LoginThrottle.MAX_BUCKETS {
        var ranks := map k | k in loginFailures :: LoginThrottle.Max(loginFailures[k]);
        loginFailures, gone := PopLeast(loginFailures, ranks, |loginFailures| - LoginThrottle.MAX_BUCKETS);
      }
    }

    /** `_record_failure` */
    method RecordFailure(remote: string, actor: Digest, now: real)
      modifies this`loginFailures, this`remoteLoginFailures
      ensures Tables() == LoginThrottle.Record(old(Tables()), LoginThrottle.Pair(remote, actor), now)
    {
      var key := LoginThrottle.Pair(remote, actor);
      var cutoff := now - LoginThrottle.WINDOW;
      var stored := if key in loginFailures then loginFailures[key] else [];
      loginFailures := loginFailures[key := LoginThrottle.After(stored, cutoff) + [now]];
      var remoteStored := if remote in remoteLoginFailures then remoteLoginFailures[remote] else [];
      remoteLoginFailures := remoteLoginFailures[remote := LoginThrottle.After(remoteStored, cutoff) + [now]];
    }

    function CorrectPassword(actor: string, password: string): bool {
      actor in accounts && PasswordHash.VerifyPassword(kdf, password, accounts[actor].passwordHash)
    }

    /** `_check_throttle`: purge, then test both limits. */
    method CheckThrottle(pair: Pair, now: real) returns (throttled: bool, ghost gone: set<Pair>)
      modifies this`loginFailures, this`remoteLoginFailures
      ensures LoginThrottle.MayEvict(LoginThrottle.Pruned(old(loginFailures), now - LoginThrottle.WINDOW), gone)
      ensures Tables() == LoginThrottle.Purge(old(Tables()), now, gone)
      ensures throttled
         <==> || |LoginThrottle.Entry(Tables().remotes, pair.remote)| >= LoginThrottle.MAX_REMOTE_FAILURES
              || |LoginThrottle.Entry(Tables().pairs, pair)| >= LoginThrottle.MAX_PAIR_FAILURES
    {
      gone := PurgeLoginFailures(now);
      if |LoginThrottle.Entry(remoteLoginFailures, pair.remote)| >= LoginThrottle.MAX_REMOTE_FAILURES {
        return true, gone;
      }
      throttled := |LoginThrottle.Entry(loginFailures, pair)| >= LoginThrottle.MAX_PAIR_FAILURES;
    }

    /** The session an admitted account is given. */
    function NewSession(account: UserAccount, csrf: string, now: real): Sessions.Session {
      Sessions.Session(account.AsPrincipal(), csrf, now + sessionTtl as real)
    }

    /** The part of `login` that stores the new session. */
    method IssueSession(account: UserAccount, now: real, token: string, csrf: string)
      returns (context: Sessions.Access, ghost dropped: set<Digest>)
      requires Valid()
      modifies this`sessions, this`history
      ensures Valid()
      ensures var session := NewSession(account, csrf, now);
              && history == Sessions.Then(old(history), Sessions.Login(token, session, now, dropped))
              && context == Sessions.AsSession(session.principal, csrf, token, session.expiresAt.Floor)
              && Sha256(token) in sessions && sessions[Sha256(token)] == session
      ensures forall k :: k in sessions ==> k == Sha256(token) || (k in old(sessions) && sessions[k] == old(sessions)[k])
    {
      hide Sessions.MayDrop, Sessions.Swept, LoginThrottle.MayEvict;
      dropped := PurgeSessions(now);
      var session := NewSession(account, csrf, now);
      sessions := sessions[Sha256(token) := session];
      history := Sessions.Then(history, Sessions.Login(token, session, now, dropped));
      context := Sessions.AsSession(session.principal, csrf, token, session.expiresAt.Floor);
    }

    /** `login`: the reply and the new state are those of one more attempt of the throttle and,
        when admitted, one more issued session. */
    method Login(actorId: string, password: string, remote: string, now: real, token: string, csrf: string)
      returns (reply: LoginReply, ghost gone: set<Pair>, ghost dropped: set<Digest>)
      requires Valid()
      modifies this
      ensures Valid()
      ensures var actor := Decimal.Strip(actorId);
              attempts == LoginThrottle.Then(
                old(attempts),
                LoginThrottle.Attempt(LoginThrottle.Pair(remote, Sha256(actor)), now, CorrectPassword(actor, password), gone))
      ensures var outcome := LoginThrottle.Decide(old(Tables()), attempts.last);
              && (reply.LoginThrottled? <==> outcome.RemoteThrottled? || outcome.PairThrottled?)
              && (reply.AuthenticationFailed? <==> outcome.Refused?)
              && (reply.LoggedIn? <==> outcome.Admitted?)
      ensures Tables() == LoginThrottle.Next(old(Tables()), attempts.last)
      ensures !reply.LoggedIn? ==> history == old(history) && sessions == old(sessions)
      // throttled exactly by the failures of the last minute, and otherwise admitted exactly by the password
      ensures var actor, cutoff := Decimal.Strip(actorId), now - 60.0;
              var pair := LoginThrottle.Pair(remote, Sha256(actor));
              var throttled := || |LoginThrottle.After(LoginThrottle.Entry(old(remoteLoginFailures), remote), cutoff)| >= 1_000
                               || (pair !in gone && |LoginThrottle.After(LoginThrottle.Entry(old(loginFailures), pair), cutoff)| >= 8);
              && (reply.LoginThrottled? <==> throttled)
              && (!throttled ==>
                   (reply.LoggedIn? <==>
                     actor in accounts && PasswordHash.VerifyPassword(kdf, password, accounts[actor].passwordHash)))
      // the session is the account's, for the configured time, under the new token
      ensures reply.LoggedIn? ==>
                var actor := Decimal.Strip(actorId);
                && actor in accounts
                && var a, expiresAt := accounts[actor], now + sessionTtl as real;
                   var principal := Principal(a.actorId, a.name, a.role, a.permissions, a.mustChangePassword, false);
                && reply == LoggedIn(Sessions.AsSession(principal, csrf, token, expiresAt.Floor), sessionTtl)
                && Sha256(token) in sessions && sessions[Sha256(token)] == Sessions.Session(principal, csrf, expiresAt)
      ensures reply.LoggedIn? ==>
                var actor := Decimal.Strip(actorId);
                && actor in accounts
                && var session := NewSession(accounts[actor], csrf, now);
                && history == Sessions.Then(old(history), Sessions.Login(token, session, now, dropped))
                && reply == LoggedIn(Sessions.AsSession(session.principal, csrf, token, session.expiresAt.Floor), sessionTtl)
    {
      hide LoginThrottle.MayEvict, LoginThrottle.Purge, LoginThrottle.Record, LoginThrottle.Pruned,
           Sessions.DropsFairly, Sessions.IssuedFresh, Sessions.StoreOf,
           PasswordHash.VerifyPassword, Decimal.Strip;
      dropped := {};
      var actor := Decimal.Strip(actorId);
      var pair := LoginThrottle.Pair(remote, Sha256(actor));
      var throttled;
      throttled, gone := CheckThrottle(pair, now);
      ghost var attempt := LoginThrottle.Attempt(pair, now, CorrectPassword(actor, password), gone);
      LoginThrottle.DecidedBy(old(Tables()), attempt);
      attempts := LoginThrottle.Then(attempts, attempt);
      if throttled {
        return LoginThrottled, gone, dropped;
      }
      if actor !in accounts {
        RecordFailure(remote, Sha256(actor), now);
        return AuthenticationFailed, gone, dropped;
      }
      var account := accounts[actor];
      if !PasswordHash.VerifyPassword(kdf, password, account.passwordHash) {
        RecordFailure(remote, Sha256(actor), now);
        return AuthenticationFailed, gone, dropped;
      }
      loginFailures := loginFailures - {pair};
      var context;
      context, dropped := IssueSession(account, now, token, csrf);
      reply := LoggedIn(context, sessionTtl);
    }

    /** `authenticate`; the empty token is no token, `loopback` whether the caller is local. */
    method Authenticate(token: string, loopback: bool, now: real)
      returns (access: Sessions.Access, ghost dropped: set<Digest>)
      requires Valid()
      modifies this`sessions, this`history
      ensures Valid()
      ensures history == Sessions.Then(old(history), Sessions.Lookup(token, now, dropped))
      ensures access == Sessions.Answer(sessions, token, now, allowAnonymousLocal && loopback)
      ensures Sessions.MayDrop(Sessions.Live(old(sessions), now), dropped)
      ensures forall k :: k in sessions <==> k in old(sessions) && old(sessions)[k].expiresAt > now && k !in dropped
      ensures forall k :: k in sessions ==> sessions[k] == old(sessions)[k]
      // the token's own session, or the local identity, or nothing
      ensures access == if token != "" && Sha256(token) in sessions then
                          var s := sessions[Sha256(token)];
                          Sessions.AsSession(s.principal, s.csrf, token, s.expiresAt.Floor)
                        else if allowAnonymousLocal && loopback then Sessions.AsLocal
                        else Sessions.Denied
    {
      hide Sessions.MayDrop, Sessions.Swept;
      dropped := PurgeSessions(now);
      history := Sessions.Then(history, Sessions.Lookup(token, now, dropped));
      if token != "" {
        if Sha256(token) in sessions && sessions[Sha256(token)].expiresAt > now {
          var stored := sessions[Sha256(token)];
          return Sessions.AsSession(stored.principal, stored.csrf, token, stored.expiresAt.Floor), dropped;
        }
      }
      if allowAnonymousLocal && loopback {
        return Sessions.AsLocal, dropped;
      }
      access := Sessions.Denied;
    }

    method Logout(token: string)
      requires Valid()
      modifies this`sessions, this`history
      ensures Valid()
      ensures history == Sessions.Then(old(history), Sessions.Logout(token))
      ensures sessions == if token == "" then old(sessions) else old(sessions) - {Sha256(token)}
    {
      history := Sessions.Then(history, Sessions.Logout(token));
      if token == "" {
        return;
      }
      sessions := sessions - {Sha256(token)};
    }
  }

  /** What every manager guarantees, however it was used, provided the clock readings of its
      calls never went back: the window bounds of the throttle, conservation between its two
      tables, and the capacity of the session store. */
  lemma Guarantees(m: Manager, remote: string, p: Pair, s: real)
    requires m.Valid() && LoginThrottle.Clocked(m.attempts)
    ensures LoginThrottle.InWindow(
              LoginThrottle.RemoteFailures(LoginThrottle.LogOf(m.attempts), remote), s) <= LoginThrottle.MAX_REMOTE_FAILURES
    ensures LoginThrottle.InWindow(
              LoginThrottle.PairFailures(LoginThrottle.LogOf(m.attempts), p, true), s) <= LoginThrottle.MAX_PAIR_FAILURES
    ensures LoginBuckets.Backed(m.Tables(), remote)
    ensures |m.sessions| <= Sessions.MAX_SESSIONS
  {
    LoginThrottle.AtMostThousandPerRemoteWindow(m.attempts, remote, s);
    LoginThrottle.AtMostEightPerPairWindow(m.attempts, p, s);
    LoginBuckets.AlwaysBacked(m.attempts, remote);
    Sessions.StoreBounded(m.history);
  }

  function ByActor(accounts: seq<UserAccount>): map<string, UserAccount> {
    if accounts == [] then map[]
    else ByActor(accounts[..|accounts| - 1])[accounts[|accounts| - 1].actorId := accounts[|accounts| - 1]]
  }

  /** Each account is found under its own actor id, and nothing else is found. */
  lemma {:induction false} ByActorIs(accounts: seq<UserAccount>)
    requires DistinctActors(accounts)
    ensures forall actor :: actor in ByActor(accounts) ==>
              ByActor(accounts)[actor] in accounts && ByActor(accounts)[actor].actorId == actor
    ensures forall i :: 0 <= i < |accounts| ==>
              accounts[i].actorId in ByActor(accounts) && ByActor(accounts)[accounts[i].actorId] == accounts[i]
    decreases |accounts|
  {
    if accounts != [] {
      var n := |accounts| - 1;
      ByActorIs(accounts[..n]);
      assert accounts == accounts[..n] + [accounts[n]];
      forall i | 0 <= i < n ensures accounts[i].actorId != accounts[n].actorId && accounts[..n][i] == accounts[i] {
      }
    }
  }

  /** For a manager over configured entries: what admits a log-in is that the entry naming the
      actor carries a record whose digest the password derives. */
  lemma AdmittedIff(m: Manager, entries: seq<Entry>, actor: string, password: string)
    requires Accepted(entries) && m.accounts == ByActor(Accounts(entries))
    ensures actor in m.accounts && PasswordHash.VerifyPassword(m.kdf, password, m.accounts[actor].passwordHash)
       <==> exists i :: 0 <= i < |entries| && EntryAdmits(m.kdf, entries[i], actor, password)
  {
    hide ReadAccount, PasswordHash.VerifyPassword, PasswordHash.ReadRecord, PasswordHash.GateAccepts, ByActor;
    var accounts := Accounts(entries);
    ByActorIs(accounts);
    forall i | 0 <= i < |entries|
      ensures EntryAdmits(m.kdf, entries[i], actor, password)
         <==> accounts[i].actorId == actor && PasswordHash.VerifyPassword(m.kdf, password, accounts[i].passwordHash)
    {
      AccountIsItsEntry(entries[i]);
      AcceptedAccountsVerify(m.kdf, entries, i, password);
    }
    if actor in m.accounts {
      var i :| 0 <= i < |accounts| && accounts[i] == m.accounts[actor];
    }
  }

  /** The entry names the actor, and its record's digest is what the password derives. */
  predicate EntryAdmits(kdf: PasswordHash.Kdf, entry: Entry, actor: string, password: string) {
    && entry.Object?
    && Get(entry.fields, "actor_id").Text? && Decimal.Strip(Get(entry.fields, "actor_id").text) == actor
    && Get(entry.fields, "password_hash").Text?
    && var record := PasswordHash.ReadRecord(Get(entry.fields, "password_hash").text);
    && record.Some? && |password| <= 1_024
    && kdf(password, record.value.salt, record.value.iterations) == record.value.digest
  }
}
