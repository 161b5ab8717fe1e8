/** The two-level sliding-window log-in throttle: failures per remote address and per
    (remote address, actor), kept in pruned tables, against the complete failure log.

    A run is a list of log-in attempts in lock order, their clock readings nondecreasing.
 */
module LoginThrottle {
  import opened Digests

  const WINDOW := 60.0
  const MAX_PAIR_FAILURES := 8
  const MAX_REMOTE_FAILURES := 1_000
  const MAX_BUCKETS := 10_000

  datatype Pair = Pair(remote: string, actor: Digest)
  type Times = seq<real>

  /** The two dictionaries of the manager. */
  datatype Tables = Tables(pairs: map<Pair, Times>, remotes: map<string, Times>)

  const Empty := Tables(map[], map[])

  // ---------------------------------------------------------------- lists of times

  /** `[value for value in xs if value > cutoff]` */
  function After(xs: Times, cutoff: real): Times {
    if xs == [] then []
    else
      var front, last := After(xs[..|xs| - 1], cutoff), xs[|xs| - 1];
      if last > cutoff then front + [last] else front
  }

  function Max(xs: Times): real
    requires xs != []
  {
    if |xs| == 1 then xs[0]
    else
      var m := Max(xs[1..]);
      if xs[0] < m then m else xs[0]
  }

  lemma {:induction false} MaxIs(xs: Times)
    requires xs != []
    ensures Max(xs) in xs && forall i :: 0 <= i < |xs| ==> xs[i] <= Max(xs)
    decreases |xs|
  {
    if |xs| > 1 {
      var rest := xs[1..];
      MaxIs(rest);
      assert forall i :: 0 < i < |xs| ==> xs[i] == rest[i - 1];
    }
  }

  function Entry<K>(m: map<K, Times>, k: K): Times {
    if k in m then m[k] else []
  }

  lemma AfterSnoc(xs: Times, x: real, cutoff: real)
    ensures After(xs + [x], cutoff) == if x > cutoff then After(xs, cutoff) + [x] else After(xs, cutoff)
  {
    assert (xs + [x])[..|xs|] == xs;
  }

  /** Pruning twice is pruning once with the later cutoff. */
  lemma {:induction false} AfterAfter(xs: Times, c: real, d: real)
    requires c <= d
    ensures After(After(xs, c), d) == After(xs, d)
    decreases |xs|
  {
    if xs != [] {
      AfterAfter(xs[..|xs| - 1], c, d);
      if xs[|xs| - 1] > c {
        AfterSnoc(After(xs[..|xs| - 1], c), xs[|xs| - 1], d);
      }
    }
  }

  lemma {:induction false} AfterShrinks(xs: Times, c: real, d: real)
    requires c <= d
    ensures |After(xs, d)| <= |After(xs, c)| <= |xs|
    decreases |xs|
  {
    if xs != [] {
      AfterShrinks(xs[..|xs| - 1], c, d);
    }
  }

  lemma {:induction false} AfterCounts(xs: Times, cutoff: real, x: real)
    ensures multiset(After(xs, cutoff))[x] == if x > cutoff then multiset(xs)[x] else 0
    decreases |xs|
  {
    if xs != [] {
      var front := xs[..|xs| - 1];
      AfterCounts(front, cutoff, x);
      assert xs == front + [xs[|xs| - 1]];
    }
  }

  // ---------------------------------------------------------------- the tables

  /** Every list pruned, empty lists dropped. */
  function Pruned<K(!new)>(m: map<K, Times>, cutoff: real): (r: map<K, Times>)
    ensures forall k :: k in r ==> r[k] != []
  {
    map k | k in m && After(m[k], cutoff) != [] :: After(m[k], cutoff)
  }

  lemma PrunedEntry<K(!new)>(m: map<K, Times>, cutoff: real, k: K)
    ensures Entry(Pruned(m, cutoff), k) == After(Entry(m, k), cutoff)
  {
  }

  /** The buckets a purge may evict: as many as are over the limit, none of them with a later
      last failure than a bucket that stays.  Which of several equally old buckets go is open. */
  ghost predicate MayEvict(pairs: map<Pair, Times>, gone: set<Pair>)
    requires forall k :: k in pairs ==> pairs[k] != []
  {
    && gone <= pairs.Keys
    && |gone| == (if |pairs| > MAX_BUCKETS then |pairs| - MAX_BUCKETS else 0)
    && forall g, k :: g in gone && k in pairs && k !in gone ==> Max(pairs[g]) <= Max(pairs[k])
  }

  function Purge(t: Tables, now: real, gone: set<Pair>): Tables {
    Tables(Pruned(t.pairs, now - WINDOW) - gone, Pruned(t.remotes, now - WINDOW))
  }

  function Record(t: Tables, p: Pair, now: real): Tables {
    Tables(t.pairs[p := After(Entry(t.pairs, p), now - WINDOW) + [now]],
           t.remotes[p.remote := After(Entry(t.remotes, p.remote), now - WINDOW) + [now]])
  }

  datatype Outcome = RemoteThrottled | PairThrottled | Refused | Admitted

  /** One call of `login`; `gone` is what its purge evicts, `correct` whether the account
      exists and its password verifies. */
  datatype Attempt = Attempt(pair: Pair, now: real, correct: bool, gone: set<Pair>)

  function Verdict(remoteFailures: nat, pairFailures: nat, correct: bool): Outcome {
    if remoteFailures >= MAX_REMOTE_FAILURES then RemoteThrottled
    else if pairFailures >= MAX_PAIR_FAILURES then PairThrottled
    else if !correct then Refused
    else Admitted
  }

  function Decide(t: Tables, a: Attempt): Outcome {
    var p := Purge(t, a.now, a.gone);
    Verdict(|Entry(p.remotes, a.pair.remote)|, |Entry(p.pairs, a.pair)|, a.correct)
  }

  function Next(t: Tables, a: Attempt): Tables {
    Apply(Purge(t, a.now, a.gone), a, Decide(t, a))
  }

  function Apply(p: Tables, a: Attempt, outcome: Outcome): Tables {
    match outcome
    case RemoteThrottled => p
    case PairThrottled => p
    case Refused => Record(p, a.pair, a.now)
    case Admitted => p.(pairs := p.pairs - {a.pair})
  }

  // ---------------------------------------------------------------- runs

  /** A run, latest attempt outermost. */
  datatype Run = Start | Then(before: Run, last: Attempt)

  function State(run: Run): Tables {
    match run
    case Start => Empty
    case Then(before, a) => Next(State(before), a)
  }

  /** The clock never goes back. */
  predicate Clocked(run: Run) {
    match run
    case Start => true
    case Then(before, a) => Clocked(before) && (before.Then? ==> before.last.now <= a.now)
  }

  /** What happened, in order. */
  datatype Mark = Failed(pair: Pair, at: real) | Succeeded(pair: Pair) | Evicted(pairs: set<Pair>)

  type Log = seq<Mark>

  function MarksOf(outcome: Outcome, a: Attempt): Log {
    match outcome
    case Refused => [Failed(a.pair, a.now)]
    case Admitted => [Succeeded(a.pair)]
    case _ => []
  }

  function LogOf(run: Run): Log {
    match run
    case Start => []
    case Then(before, a) => Extend(LogOf(before), a, Decide(State(before), a))
  }

  function Extend(log: Log, a: Attempt, outcome: Outcome): Log {
    log + [Evicted(a.gone)] + MarksOf(outcome, a)
  }

  /** All recorded failures of a remote address. */
  function RemoteFailures(log: Log, remote: string): Times {
    if log == [] then []
    else
      var front, last := RemoteFailures(log[..|log| - 1], remote), log[|log| - 1];
      if last.Failed? && last.pair.remote == remote then front + [last.at] else front
  }

  /** The recorded failures of a pair since it last succeeded and, with `forget`, since it was
      last evicted. */
  function PairFailures(log: Log, p: Pair, forget: bool): Times {
    if log == [] then []
    else
      var front := PairFailures(log[..|log| - 1], p, forget);
      match log[|log| - 1]
      case Failed(q, at) => if q == p then front + [at] else front
      case Succeeded(q) => if q == p then [] else front
      case Evicted(gone) => if forget && p in gone then [] else front
  }

  lemma LogSnoc(log: Log, m: Mark, remote: string, p: Pair, forget: bool)
    ensures RemoteFailures(log + [m], remote)
         == if m.Failed? && m.pair.remote == remote then RemoteFailures(log, remote) + [m.at]
            else RemoteFailures(log, remote)
    ensures PairFailures(log + [m], p, forget)
         == match m
            case Failed(q, at) => if q == p then PairFailures(log, p, forget) + [at] else PairFailures(log, p, forget)
            case Succeeded(q) => if q == p then [] else PairFailures(log, p, forget)
            case Evicted(gone) => if forget && p in gone then [] else PairFailures(log, p, forget)
  {
    assert (log + [m])[..|log|] == log;
  }

  /** One attempt's effect on the failures of a remote and of a pair. */
  function AddRemote(xs: Times, a: Attempt, outcome: Outcome, remote: string): Times {
    if outcome.Refused? && a.pair.remote == remote then xs + [a.now] else xs
  }

  function AddPair(xs: Times, a: Attempt, outcome: Outcome, p: Pair, forget: bool): Times {
    var kept := if forget && p in a.gone then [] else xs;
    if outcome.Refused? && a.pair == p then kept + [a.now]
    else if outcome.Admitted? && a.pair == p then []
    else kept
  }

  lemma ExtendFailures(log: Log, a: Attempt, outcome: Outcome, remote: string, p: Pair, forget: bool)
    ensures RemoteFailures(Extend(log, a, outcome), remote) == AddRemote(RemoteFailures(log, remote), a, outcome, remote)
    ensures PairFailures(Extend(log, a, outcome), p, forget) == AddPair(PairFailures(log, p, forget), a, outcome, p, forget)
  {
    var evicted := log + [Evicted(a.gone)];
    LogSnoc(log, Evicted(a.gone), remote, p, forget);
    match outcome
    case Refused => LogSnoc(evicted, Failed(a.pair, a.now), remote, p, forget);
    case Admitted => LogSnoc(evicted, Succeeded(a.pair), remote, p, forget);
    case _ => assert Extend(log, a, outcome) == evicted;
  }

  // ---------------------------------------------------------------- tables = pruned log

  lemma ApplyRemote(p: Tables, a: Attempt, outcome: Outcome, remote: string)
    requires var xs := Entry(p.remotes, remote); After(xs, a.now - WINDOW) == xs
    ensures Entry(Apply(p, a, outcome).remotes, remote) == AddRemote(Entry(p.remotes, remote), a, outcome, remote)
  {
  }

  lemma ApplyPair(p: Tables, a: Attempt, outcome: Outcome, q: Pair)
    requires var xs := Entry(p.pairs, q); After(xs, a.now - WINDOW) == xs
    ensures Entry(Apply(p, a, outcome).pairs, q) == AddPair(Entry(p.pairs, q), a.(gone := {}), outcome, q, true)
  {
  }

  lemma PurgeEntries(t: Tables, now: real, gone: set<Pair>, remote: string, p: Pair)
    ensures var c, t' := now - WINDOW, Purge(t, now, gone);
            && Entry(t'.remotes, remote) == After(Entry(t.remotes, remote), c)
            && Entry(t'.pairs, p) == (if p in gone then [] else After(Entry(t.pairs, p), c))
  {
  }

  /** The entries after one attempt: prune, then add. */
  lemma NextEntries(t: Tables, a: Attempt, remote: string, p: Pair)
    ensures var c, outcome := a.now - WINDOW, Decide(t, a);
            && Entry(Next(t, a).remotes, remote) == AddRemote(After(Entry(t.remotes, remote), c), a, outcome, remote)
            && Entry(Next(t, a).pairs, p) == AddPair(After(Entry(t.pairs, p), c), a, outcome, p, true)
  {
    hide After, Decide, Purge, Apply, AddRemote, AddPair;
    var c, purged := a.now - WINDOW, Purge(t, a.now, a.gone);
    PurgeEntries(t, a.now, a.gone, remote, p);
    AfterAfter(Entry(t.remotes, remote), c, c);
    AfterAfter(Entry(t.pairs, p), c, c);
    AfterNone(c);
    ApplyRemote(purged, a, Decide(t, a), remote);
    ApplyPair(purged, a, Decide(t, a), p);
    AddPairEvicted(After(Entry(t.pairs, p), c), a, Decide(t, a), p);
  }

  lemma AfterNone(cutoff: real)
    ensures After([], cutoff) == []
  {
  }

  lemma AddPairEvicted(xs: Times, a: Attempt, outcome: Outcome, p: Pair)
    ensures AddPair(if p in a.gone then [] else xs, a.(gone := {}), outcome, p, true) == AddPair(xs, a, outcome, p, true)
  {
  }

  /** One attempt, entry by entry: what is older than a minute goes, an evicted bucket goes, a
      refused attempt adds its time for its remote and its pair, and an admitted one clears its
      pair and no other. */
  lemma AttemptDoes(t: Tables, a: Attempt, remote: string, p: Pair)
    ensures var c, outcome := a.now - 60.0, Decide(t, a);
            && Entry(Next(t, a).remotes, remote)
               == After(Entry(t.remotes, remote), c) + (if outcome.Refused? && remote == a.pair.remote then [a.now] else [])
            && Entry(Next(t, a).pairs, p)
               == if outcome.Admitted? && p == a.pair then []
                  else (if p in a.gone then [] else After(Entry(t.pairs, p), c))
                       + (if outcome.Refused? && p == a.pair then [a.now] else [])
  {
    NextEntries(t, a, remote, p);
  }

  /** And what it is decided by. */
  lemma DecidedBy(t: Tables, a: Attempt)
    ensures var c := a.now - 60.0;
            var remoteFull := |After(Entry(t.remotes, a.pair.remote), c)| >= 1_000;
            var pairFull := a.pair !in a.gone && |After(Entry(t.pairs, a.pair), c)| >= 8;
            && (Decide(t, a).RemoteThrottled? <==> remoteFull)
            && (Decide(t, a).PairThrottled? <==> !remoteFull && pairFull)
            && (Decide(t, a).Admitted? <==> !remoteFull && !pairFull && a.correct)
            && (Decide(t, a).Refused? <==> !remoteFull && !pairFull && !a.correct)
  {
    PurgeEntries(t, a.now, a.gone, a.pair.remote, a.pair);
  }

  /** The log grows by each refused attempt's time; a success clears its pair. */
  lemma LogGrows(run: Run, a: Attempt, remote: string, p: Pair, forget: bool)
    ensures var outcome, log, log' := Decide(State(run), a), LogOf(run), LogOf(Then(run, a));
            && RemoteFailures(log', remote)
               == RemoteFailures(log, remote) + (if outcome.Refused? && remote == a.pair.remote then [a.now] else [])
            && PairFailures(log', p, forget)
               == if outcome.Admitted? && p == a.pair then []
                  else (if forget && p in a.gone then [] else PairFailures(log, p, forget))
                       + (if outcome.Refused? && p == a.pair then [a.now] else [])
  {
    hide Extend, Decide;
    ExtendFailures(LogOf(run), a, Decide(State(run), a), remote, p, forget);
  }

  /** Pruning commutes with one attempt's additions. */
  lemma AddPruned(xs: Times, a: Attempt, outcome: Outcome, remote: string, p: Pair)
    ensures var c := a.now - WINDOW;
            && AddRemote(After(xs, c), a, outcome, remote) == After(AddRemote(xs, a, outcome, remote), c)
            && AddPair(After(xs, c), a, outcome, p, true) == After(AddPair(xs, a, outcome, p, true), c)
  {
    AfterSnoc(xs, a.now, a.now - WINDOW);
  }

  /** The tables hold, for `remote` and `p`, the logged failures newer than `cutoff`: per
      remote all of them, per pair those since its last success or eviction. */
  predicate Holds(t: Tables, log: Log, cutoff: real, remote: string, p: Pair) {
    && Entry(t.remotes, remote) == After(RemoteFailures(log, remote), cutoff)
    && Entry(t.pairs, p) == After(PairFailures(log, p, true), cutoff)
  }

  lemma NextHolds(t: Tables, log: Log, cutoff: real, a: Attempt, remote: string, p: Pair)
    requires Holds(t, log, cutoff, remote, p) && cutoff <= a.now - WINDOW
    ensures Holds(Next(t, a), Extend(log, a, Decide(t, a)), a.now - WINDOW, remote, p)
  {
    var outcome := Decide(t, a);
    var rs, ps := RemoteFailures(log, remote), PairFailures(log, p, true);
    AfterAfter(rs, cutoff, a.now - WINDOW);
    AfterAfter(ps, cutoff, a.now - WINDOW);
    ExtendFailures(log, a, outcome, remote, p, true);
    NextEntries(t, a, remote, p);
    AddPruned(rs, a, outcome, remote, p);
    AddPruned(ps, a, outcome, remote, p);
  }

  lemma NothingYet(cutoff: real, remote: string, p: Pair)
    ensures Holds(Empty, [], cutoff, remote, p)
  {
  }

  function LoggedVerdict(log: Log, a: Attempt): Outcome {
    Verdict(|After(RemoteFailures(log, a.pair.remote), a.now - WINDOW)|,
            if a.pair in a.gone then 0 else |After(PairFailures(log, a.pair, true), a.now - WINDOW)|,
            a.correct)
  }

  lemma DecideHolds(t: Tables, log: Log, cutoff: real, a: Attempt)
    requires Holds(t, log, cutoff, a.pair.remote, a.pair) && cutoff <= a.now - WINDOW
    ensures Decide(t, a) == LoggedVerdict(log, a)
  {
    AfterAfter(RemoteFailures(log, a.pair.remote), cutoff, a.now - WINDOW);
    AfterAfter(PairFailures(log, a.pair, true), cutoff, a.now - WINDOW);
    PurgeEntries(t, a.now, a.gone, a.pair.remote, a.pair);
  }

  /** In every reachable state the stored lists are the logged failures newer than the cutoff
      of the last purge, whatever the purges evicted. */
  lemma {:induction false} TablesAreThePrunedLog(run: Run, remote: string, p: Pair)
    requires Clocked(run)
    ensures run.Then? ==> Holds(State(run), LogOf(run), run.last.now - WINDOW, remote, p)
  {
    hide Next, Decide, Extend, Holds;
    if run.Then? {
      var before := run.before;
      TablesAreThePrunedLog(before, remote, p);
      var cutoff := if before.Then? then before.last.now - WINDOW else run.last.now - WINDOW;
      NothingYet(cutoff, remote, p);
      NextHolds(State(before), LogOf(before), cutoff, run.last, remote, p);
    }
  }

  /** The decision reads off the log: what it counts is the logged failures in the window. */
  lemma DecideFromLog(run: Run, a: Attempt)
    requires Clocked(Then(run, a))
    ensures Decide(State(run), a) == LoggedVerdict(LogOf(run), a)
  {
    hide Next, Decide, Extend, Holds, LoggedVerdict;
    TablesAreThePrunedLog(run, a.pair.remote, a.pair);
    NothingYet(a.now - WINDOW, a.pair.remote, a.pair);
    var cutoff := if run.Then? then run.last.now - WINDOW else a.now - WINDOW;
    DecideHolds(State(run), LogOf(run), cutoff, a);
  }

  // ---------------------------------------------------------------- the naive throttle

  /** The decision of a throttle that keeps the complete log and never prunes or evicts. */
  function NaiveDecide(log: Log, a: Attempt): Outcome {
    Verdict(|After(RemoteFailures(log, a.pair.remote), a.now - WINDOW)|,
            |After(PairFailures(log, a.pair, false), a.now - WINDOW)|, a.correct)
  }

  function NaiveLog(run: Run): Log {
    match run
    case Start => []
    case Then(before, a) => Extend(NaiveLog(before), a.(gone := {}), NaiveDecide(NaiveLog(before), a))
  }

  /** Forgetting at evictions only drops the oldest failures of a pair. */
  lemma {:induction false} ForgettingDropsAPrefix(log: Log, p: Pair)
    ensures var all, kept := PairFailures(log, p, false), PairFailures(log, p, true);
            |kept| <= |all| && kept == all[|all| - |kept|..]
    decreases |log|
  {
    if log != [] {
      ForgettingDropsAPrefix(log[..|log| - 1], p);
    }
  }

  lemma {:induction false} AfterSuffix(xs: Times, k: nat, cutoff: real)
    requires k <= |xs|
    ensures |After(xs[k..], cutoff)| <= |After(xs, cutoff)|
    decreases |xs|
  {
    if k < |xs| {
      var front := xs[..|xs| - 1];
      AfterSuffix(front, k, cutoff);
      assert xs[k..][..|xs[k..]| - 1] == front[k..];
    }
  }

  /** Against the complete log: the per-remote decision is exactly the naive one, whatever was
      pruned or evicted, and the per-pair throttle never refuses where the naive one would not. */
  lemma DecisionsAgainstTheFullLog(run: Run, a: Attempt)
    requires Clocked(Then(run, a))
    ensures var actual, naive := Decide(State(run), a), NaiveDecide(LogOf(run), a);
            && (actual.RemoteThrottled? <==> naive.RemoteThrottled?)
            && (actual.PairThrottled? ==> naive.PairThrottled?)
  {
    hide Decide, LogOf, State;
    DecideFromLog(run, a);
    var all, kept := PairFailures(LogOf(run), a.pair, false), PairFailures(LogOf(run), a.pair, true);
    ForgettingDropsAPrefix(LogOf(run), a.pair);
    AfterSuffix(all, |all| - |kept|, a.now - WINDOW);
  }

  predicate NeverEvicts(run: Run) {
    run.Then? ==> NeverEvicts(run.before) && run.last.gone == {}
  }

  lemma {:induction false} NothingToForget(log: Log, p: Pair)
    requires forall i :: 0 <= i < |log| && log[i].Evicted? ==> log[i].pairs == {}
    ensures PairFailures(log, p, true) == PairFailures(log, p, false)
    decreases |log|
  {
    if log != [] {
      NothingToForget(log[..|log| - 1], p);
    }
  }

  lemma SameVerdict(log: Log, a: Attempt)
    requires a.gone == {} && PairFailures(log, a.pair, true) == PairFailures(log, a.pair, false)
    ensures LoggedVerdict(log, a) == NaiveDecide(log, a)
  {
  }

  lemma {:induction false} NaiveLogNeverEvicts(run: Run)
    ensures forall i :: 0 <= i < |NaiveLog(run)| && NaiveLog(run)[i].Evicted? ==> NaiveLog(run)[i].pairs == {}
  {
    if run.Then? {
      NaiveLogNeverEvicts(run.before);
    }
  }

  /** Refinement: while capacity eviction does not fire, the manager and the naive throttle
      that never forgets produce the same log from the same attempts, and so decide the next
      attempt alike. */
  lemma {:induction false} PrunedRefinesNaive(run: Run, a: Attempt)
    requires Clocked(Then(run, a)) && NeverEvicts(Then(run, a))
    ensures LogOf(run) == NaiveLog(run)
    ensures Decide(State(run), a) == NaiveDecide(NaiveLog(run), a)
  {
    hide Next, Decide, Extend, NaiveDecide, LoggedVerdict;
    if run.Then? {
      PrunedRefinesNaive(run.before, run.last);
      assert run.last.(gone := {}) == run.last;
    }
    assert LogOf(run) == NaiveLog(run);
    NaiveLogNeverEvicts(run);
    NothingToForget(LogOf(run), a.pair);
    DecideFromLog(run, a);
    SameVerdict(LogOf(run), a);
  }

  // ---------------------------------------------------------------- bounds on every window

  /** How many of `xs` lie in the window (s - 60, s]. */
  function InWindow(xs: Times, s: real): nat {
    if xs == [] then 0
    else
      var last := xs[|xs| - 1];
      InWindow(xs[..|xs| - 1], s) + if s - WINDOW < last <= s then 1 else 0
  }

  /** What lies in the window is what is later than its start and not later than its end. */
  lemma {:induction false} InWindowIs(xs: Times, s: real)
    ensures InWindow(xs, s) == |After(xs, s - 60.0)| - |After(xs, s)|
    decreases |xs|
  {
    if xs != [] {
      InWindowIs(xs[..|xs| - 1], s);
    }
  }

  /** Each time was added when fewer than `cap` earlier ones were in the window ending there. */
  predicate Rationed(xs: Times, cap: nat) {
    xs != [] ==>
      var front, last := xs[..|xs| - 1], xs[|xs| - 1];
      Rationed(front, cap) && |After(front, last - WINDOW)| < cap
  }

  lemma {:induction false} WindowWithinAfter(xs: Times, s: real)
    ensures InWindow(xs, s) <= |After(xs, s - WINDOW)|
    decreases |xs|
  {
    if xs != [] {
      WindowWithinAfter(xs[..|xs| - 1], s);
    }
  }

  lemma {:induction false} RationedWindows(xs: Times, cap: nat, s: real)
    requires Rationed(xs, cap)
    ensures InWindow(xs, s) <= cap
    decreases |xs|
  {
    if xs != [] {
      var front, last := xs[..|xs| - 1], xs[|xs| - 1];
      RationedWindows(front, cap, s);
      if s - WINDOW < last <= s {
        WindowWithinAfter(front, s);
        AfterShrinks(front, last - WINDOW, s - WINDOW);
      }
    }
  }

  lemma RationedSnoc(xs: Times, x: real, cap: nat)
    requires Rationed(xs, cap) && |After(xs, x - WINDOW)| < cap
    ensures Rationed(xs + [x], cap)
  {
    assert (xs + [x])[..|xs|] == xs;
  }

  lemma {:induction false} LogIsRationed(run: Run, remote: string, p: Pair)
    requires Clocked(run)
    ensures Rationed(RemoteFailures(LogOf(run), remote), MAX_REMOTE_FAILURES)
    ensures Rationed(PairFailures(LogOf(run), p, true), MAX_PAIR_FAILURES)
  {
    hide Next, Decide, Extend;
    if run.Then? {
      var a, before := run.last, LogOf(run.before);
      var outcome := Decide(State(run.before), a);
      LogIsRationed(run.before, remote, p);
      ExtendFailures(before, a, outcome, remote, p, true);
      DecideFromLog(run.before, a);
      if outcome.Refused? && a.pair.remote == remote {
        RationedSnoc(RemoteFailures(before, remote), a.now, MAX_REMOTE_FAILURES);
      }
      if outcome.Refused? && a.pair == p {
        RationedSnoc(if p in a.gone then [] else PairFailures(before, p, true), a.now, MAX_PAIR_FAILURES);
      }
    }
  }

  /** Every 60-second window holds at most 1000 recorded failures of a remote address,
      whatever succeeded or was evicted meanwhile. */
  lemma AtMostThousandPerRemoteWindow(run: Run, remote: string, s: real)
    requires Clocked(run)
    ensures InWindow(RemoteFailures(LogOf(run), remote), s) <= MAX_REMOTE_FAILURES
  {
    LogIsRationed(run, remote, Pair(remote, Sha256("")));
    RationedWindows(RemoteFailures(LogOf(run), remote), MAX_REMOTE_FAILURES, s);
  }

  /** Between two successes or evictions of a pair, every 60-second window holds at most 8 of
      its failures. */
  lemma AtMostEightPerPairWindow(run: Run, p: Pair, s: real)
    requires Clocked(run)
    ensures InWindow(PairFailures(LogOf(run), p, true), s) <= MAX_PAIR_FAILURES
  {
    LogIsRationed(run, p.remote, p);
    RationedWindows(PairFailures(LogOf(run), p, true), MAX_PAIR_FAILURES, s);
  }
}
