/** Cross-table conservation in the log-in throttle: the pair buckets of a remote address are
    drawn from that address's own list, so ten live addresses can never fill the bucket table.
 */
module LoginBuckets {
  import opened LoginThrottle

  /** All times stored in the buckets `keys`, together. */
  ghost function Pooled(m: map<Pair, Times>, keys: set<Pair>): multiset<real>
    requires keys <= m.Keys
  {
    if keys == {} then multiset{}
    else
      var k :| k in keys;
      multiset(m[k]) + Pooled(m, keys - {k})
  }

  ghost function BucketsOf(m: map<Pair, Times>, remote: string): set<Pair> {
    set p | p in m && p.remote == remote
  }

  /** The buckets of `remote` hold a sub-multiset of its list; no stored list is empty and no
      remote list is over its limit. */
  ghost predicate Backed(t: Tables, remote: string) {
    && Pooled(t.pairs, BucketsOf(t.pairs, remote)) <= multiset(Entry(t.remotes, remote))
    && (forall p :: p in BucketsOf(t.pairs, remote) ==> t.pairs[p] != [])
    && (remote in t.remotes ==> t.remotes[remote] != [])
    && |Entry(t.remotes, remote)| <= MAX_REMOTE_FAILURES
  }

  // ---------------------------------------------------------------- pooling

  lemma {:induction false} PooledPick(m: map<Pair, Times>, keys: set<Pair>, k: Pair)
    requires keys <= m.Keys && k in keys
    ensures Pooled(m, keys) == multiset(m[k]) + Pooled(m, keys - {k})
    decreases keys
  {
    var j :| j in keys && Pooled(m, keys) == multiset(m[j]) + Pooled(m, keys - {j});
    if j != k {
      PooledPick(m, keys - {j}, k);
      PooledPick(m, keys - {k}, j);
      assert keys - {j} - {k} == keys - {k} - {j};
    }
  }

  lemma {:induction false} PooledSame(m: map<Pair, Times>, n: map<Pair, Times>, keys: set<Pair>)
    requires keys <= m.Keys && keys <= n.Keys
    requires forall k :: k in keys ==> m[k] == n[k]
    ensures Pooled(m, keys) == Pooled(n, keys)
    decreases keys
  {
    if keys != {} {
      var k :| k in keys;
      PooledPick(m, keys, k);
      PooledPick(n, keys, k);
      PooledSame(m, n, keys - {k});
    }
  }

  lemma {:induction false} PooledSubset(m: map<Pair, Times>, some: set<Pair>, keys: set<Pair>)
    requires some <= keys <= m.Keys
    ensures Pooled(m, some) <= Pooled(m, keys)
    decreases keys
  {
    if keys - some == {} {
      assert some == keys by {
        forall k | k in keys ensures k in some { assert k !in keys - some; }
      }
    } else {
      var k :| k in keys - some;
      PooledPick(m, keys, k);
      PooledSubset(m, some, keys - {k});
    }
  }

  /** Pruning every bucket prunes the pool. */
  lemma {:induction false} PooledPruned(m: map<Pair, Times>, keys: set<Pair>, cutoff: real, x: real)
    requires keys <= m.Keys
    ensures Pooled(Pruned(m, cutoff), keys * Pruned(m, cutoff).Keys)[x]
         == if x > cutoff then Pooled(m, keys)[x] else 0
    decreases keys
  {
    var n := Pruned(m, cutoff);
    if keys == {} {
      assert keys * n.Keys == {};
    } else {
      var k :| k in keys;
      PooledPick(m, keys, k);
      PooledPruned(m, keys - {k}, cutoff, x);
      AfterCounts(m[k], cutoff, x);
      if k in n {
        PooledPick(n, keys * n.Keys, k);
        assert keys * n.Keys - {k} == (keys - {k}) * n.Keys;
      } else {
        assert keys * n.Keys == (keys - {k}) * n.Keys;
      }
    }
  }

  /** Non-empty buckets: there are no more of them than pooled times. */
  lemma {:induction false} BucketsWithinPool(m: map<Pair, Times>, keys: set<Pair>)
    requires keys <= m.Keys && forall k :: k in keys ==> m[k] != []
    ensures |keys| <= |Pooled(m, keys)|
    decreases keys
  {
    if keys != {} {
      var k :| k in keys;
      PooledPick(m, keys, k);
      BucketsWithinPool(m, keys - {k});
      assert |multiset(m[k])| == |m[k]|;
    }
  }

  // ---------------------------------------------------------------- one attempt keeps it

  lemma PurgeBacked(t: Tables, now: real, gone: set<Pair>, remote: string)
    requires Backed(t, remote)
    ensures Backed(Purge(t, now, gone), remote)
  {
    var c, t' := now - WINDOW, Purge(t, now, gone);
    var pruned := Pruned(t.pairs, c);
    var keys := BucketsOf(t.pairs, remote);
    var left := BucketsOf(t'.pairs, remote);
    assert left <= keys * pruned.Keys;
    PooledSubset(pruned, left, keys * pruned.Keys);
    PooledSame(pruned, t'.pairs, left);
    PrunedEntry(t.remotes, c, remote);
    AfterShrinks(Entry(t.remotes, remote), c, c);
    forall x ensures Pooled(t'.pairs, left)[x] <= multiset(Entry(t'.remotes, remote))[x] {
      PooledPruned(t.pairs, keys, c, x);
      AfterCounts(Entry(t.remotes, remote), c, x);
    }
  }

  lemma PopBacked(t: Tables, p: Pair, remote: string)
    requires Backed(t, remote)
    ensures Backed(t.(pairs := t.pairs - {p}), remote)
  {
    var left := BucketsOf(t.pairs - {p}, remote);
    PooledSubset(t.pairs, left, BucketsOf(t.pairs, remote));
    PooledSame(t.pairs, t.pairs - {p}, left);
  }

  /** Replacing one bucket changes the pool by that bucket only. */
  lemma PooledReplace(m: map<Pair, Times>, keys: set<Pair>, p: Pair, xs: Times)
    requires keys <= m.Keys && (p in m ==> p in keys)
    ensures Pooled(m, keys) == multiset(Entry(m, p)) + Pooled(m, keys - {p})
    ensures Pooled(m[p := xs], keys + {p}) == multiset(xs) + Pooled(m, keys - {p})
  {
    hide Pooled;
    var m' := m[p := xs];
    assert keys + {p} - {p} == keys - {p};
    PooledPick(m', keys + {p}, p);
    PooledSame(m, m', keys - {p});
    if p in keys {
      PooledPick(m, keys, p);
    } else {
      assert keys - {p} == keys;
    }
  }

  /** Recording adds the same time to a bucket and to its remote list. */
  lemma RecordBacked(t: Tables, p: Pair, now: real)
    requires Backed(t, p.remote)
    requires |Entry(t.remotes, p.remote)| < MAX_REMOTE_FAILURES
    requires After(Entry(t.remotes, p.remote), now - WINDOW) == Entry(t.remotes, p.remote)
    ensures Backed(Record(t, p, now), p.remote)
  {
    hide After, Pooled;
    var keys := BucketsOf(t.pairs, p.remote);
    var list, bucket := Entry(t.remotes, p.remote), Entry(t.pairs, p);
    var kept := After(bucket, now - WINDOW);
    var t' := Tables(t.pairs[p := kept + [now]], t.remotes[p.remote := list + [now]]);
    assert Record(t, p, now) == t';
    assert BucketsOf(t'.pairs, p.remote) == keys + {p};
    PooledReplace(t.pairs, keys, p, kept + [now]);
    PruneWithin(bucket, now - WINDOW);
    AddToBoth(multiset(bucket), multiset(kept), Pooled(t.pairs, keys - {p}), multiset(list), now);
    assert multiset(kept + [now]) == multiset(kept) + multiset{now};
    assert multiset(list + [now]) == multiset(list) + multiset{now};
    assert Entry(t'.remotes, p.remote) == list + [now];
  }

  lemma AddToBoth(bucket: multiset<real>, kept: multiset<real>, others: multiset<real>, list: multiset<real>, x: real)
    requires bucket + others <= list && kept <= bucket
    ensures (kept + multiset{x}) + others <= list + multiset{x}
  {
  }

  lemma RecordBackedElsewhere(t: Tables, p: Pair, now: real, remote: string)
    requires Backed(t, remote) && p.remote != remote
    ensures Backed(Record(t, p, now), remote)
  {
    hide After;
    var m' := Record(t, p, now).pairs;
    assert BucketsOf(m', remote) == BucketsOf(t.pairs, remote);
    PooledSame(t.pairs, m', BucketsOf(m', remote));
  }

  lemma PruneWithin(xs: Times, cutoff: real)
    ensures multiset(After(xs, cutoff)) <= multiset(xs)
  {
    forall x ensures multiset(After(xs, cutoff))[x] <= multiset(xs)[x] {
      AfterCounts(xs, cutoff, x);
    }
  }

  lemma NextBacked(t: Tables, a: Attempt, remote: string)
    requires Backed(t, remote)
    ensures Backed(Next(t, a), remote)
  {
    hide Backed, Record, After;
    var p := Purge(t, a.now, a.gone);
    PurgeBacked(t, a.now, a.gone, remote);
    match Decide(t, a)
    case Refused =>
      if a.pair.remote == remote {
        PrunedEntry(t.remotes, a.now - WINDOW, remote);
        AfterAfter(Entry(t.remotes, remote), a.now - WINDOW, a.now - WINDOW);
        RecordBacked(p, a.pair, a.now);
      } else {
        RecordBackedElsewhere(p, a.pair, a.now, remote);
      }
    case Admitted =>
      PopBacked(p, a.pair, remote);
    case _ =>
  }

  // ---------------------------------------------------------------- every reachable state

  /** Conservation: whatever attempts are made, and whatever purges evict, the buckets of each
      remote address stay a sub-multiset of its list, with no empty list stored. */
  lemma {:induction false} AlwaysBacked(run: Run, remote: string)
    ensures Backed(State(run), remote)
  {
    hide Next, Backed;
    match run
    case Start => NothingStored(remote);
    case Then(before, a) =>
      AlwaysBacked(before, remote);
      NextBacked(State(before), a, remote);
  }

  lemma NothingStored(remote: string)
    ensures Backed(Empty, remote)
  {
    assert BucketsOf(Empty.pairs, remote) == {};
  }

  /** So no bucket list is empty, and `max` in the eviction order is defined. */
  lemma BucketsNotEmpty(run: Run)
    ensures forall p :: p in State(run).pairs ==> State(run).pairs[p] != []
  {
    forall p | p in State(run).pairs ensures State(run).pairs[p] != [] {
      AlwaysBacked(run, p.remote);
      assert p in BucketsOf(State(run).pairs, p.remote);
    }
  }

  // ---------------------------------------------------------------- ten live addresses

  lemma BucketsPerRemote(t: Tables, remote: string)
    requires Backed(t, remote)
    ensures |BucketsOf(t.pairs, remote)| <= MAX_REMOTE_FAILURES
    ensures BucketsOf(t.pairs, remote) != {} ==> remote in t.remotes
  {
    var keys := BucketsOf(t.pairs, remote);
    var pool, list := Pooled(t.pairs, keys), multiset(Entry(t.remotes, remote));
    BucketsWithinPool(t.pairs, keys);
    assert list == pool + (list - pool);
    assert |list| == |Entry(t.remotes, remote)|;
  }

  ghost function BucketsOfAll(m: map<Pair, Times>, remotes: set<string>): set<Pair> {
    set p | p in m && p.remote in remotes
  }

  lemma {:induction false} BucketsOfMany(t: Tables, remotes: set<string>)
    requires forall r :: r in remotes ==> Backed(t, r)
    ensures |BucketsOfAll(t.pairs, remotes)| <= MAX_REMOTE_FAILURES * |remotes|
    decreases remotes
  {
    hide Backed;
    if remotes == {} {
      assert BucketsOfAll(t.pairs, remotes) == {};
    } else {
      var r :| r in remotes;
      BucketsPerRemote(t, r);
      BucketsOfMany(t, remotes - {r});
      assert BucketsOfAll(t.pairs, remotes) == BucketsOf(t.pairs, r) + BucketsOfAll(t.pairs, remotes - {r});
      assert |remotes - {r}| == |remotes| - 1;
    }
  }

  /** With at most ten live remote addresses there are at most 10000 buckets, so the purge of
      the next attempt evicts none. */
  lemma TenRemotesNeverEvict(run: Run, a: Attempt)
    requires |Pruned(State(run).remotes, a.now - WINDOW)| <= 10
    requires MayEvict(Pruned(State(run).pairs, a.now - WINDOW), a.gone)
    ensures |Pruned(State(run).pairs, a.now - WINDOW)| <= MAX_BUCKETS
    ensures a.gone == {}
  {
    hide Backed, Pruned, State;
    var t := Purge(State(run), a.now, {});
    var remotes := t.remotes.Keys;
    forall r ensures Backed(t, r) {
      AlwaysBacked(run, r);
      PurgeBacked(State(run), a.now, {}, r);
    }
    BucketsOfMany(t, remotes);
    forall p | p in t.pairs ensures p.remote in remotes {
      BucketsPerRemote(t, p.remote);
      assert p in BucketsOf(t.pairs, p.remote);
    }
    assert BucketsOfAll(t.pairs, remotes) == t.pairs.Keys;
    assert t.pairs == Pruned(State(run).pairs, a.now - WINDOW);
    assert |t.remotes| == |remotes| && |t.pairs| == |t.pairs.Keys|;
  }

  /** Every purge of the run evicts just what it may, and finds at most ten live addresses. */
  ghost predicate FewRemotes(run: Run) {
    run.Then? ==>
      && FewRemotes(run.before)
      && |Pruned(State(run.before).remotes, run.last.now - WINDOW)| <= 10
      && MayEvict(Pruned(State(run.before).pairs, run.last.now - WINDOW), run.last.gone)
  }

  lemma {:induction false} FewRemotesNeverEvict(run: Run)
    requires FewRemotes(run)
    ensures NeverEvicts(run)
  {
    hide Pruned, State, MayEvict;
    if run.Then? {
      FewRemotesNeverEvict(run.before);
      TenRemotesNeverEvict(run.before, run.last);
    }
  }

  /** Hence a manager that never sees more than ten live addresses behaves, attempt for
      attempt, like the throttle that keeps the complete log. */
  lemma FewRemotesRefineNaive(run: Run, a: Attempt)
    requires Clocked(Then(run, a)) && FewRemotes(Then(run, a))
    ensures LogOf(run) == NaiveLog(run)
    ensures Decide(State(run), a) == NaiveDecide(NaiveLog(run), a)
  {
    hide *;
    FewRemotesNeverEvict(Then(run, a));
    PrunedRefinesNaive(run, a);
  }
}
