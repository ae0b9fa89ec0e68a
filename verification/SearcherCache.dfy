/**
 The epoch-keyed cache of relation searchers (crates/app/cce-server-shared/src/context.rs).

 A call reads its project's snapshot, looks the snapshot's epoch up in the cache under a read
 lock, and on a miss builds a searcher and stores it under a write lock; other calls,
 publications and invalidations may run between any two of these steps.
 */
module SearcherCache {
  import opened Text

  type ProjectId = int
  type Index = nat

  datatype Snapshot = Snapshot(epoch: int, index: Index)

  /** A searcher over a snapshot's index, or the empty one served without a snapshot. */
  datatype Searcher = Over(index: Index) | Empty

  datatype Entry = Entry(epoch: int, searcher: Searcher)

  type Cache = map<ProjectId, Entry>

  function SearcherFor(read: Option<Snapshot>): Searcher
  {
    match read case None => Empty case Some(s) => Over(s.index)
  }

  /** The read-locked lookup. */
  function Lookup(c: Cache, p: ProjectId, epoch: int): Option<Searcher>
  {
    if p in c && c[p].epoch == epoch then Some(c[p].searcher) else None
  }

  /** The write-locked store: whatever was there is replaced, a newer epoch included. */
  function Store(c: Cache, p: ProjectId, s: Snapshot): Cache { c[p := Entry(s.epoch, Over(s.index))] }

  // ---------------------------------------------------------------- interleavings

  type CallId = nat

  datatype Call =
    | Serving(project: ProjectId)
    | Holding(project: ProjectId, snapshot: Snapshot)
    | Missed(project: ProjectId, snapshot: Snapshot)
    | Returned(project: ProjectId, read: Option<Snapshot>, searcher: Searcher)

  datatype State = State(live: map<ProjectId, Snapshot>, cache: Cache, calls: map<CallId, Call>)

  const INIT := State(map[], map[], map[])

  /** The atomic steps of calls and of the rest of the server. */
  datatype Action =
    | CanServe(call: CallId, project: ProjectId, ok: bool)
    | ReadSnapshot(call: CallId)
    | CheckCache(call: CallId)
    | StoreSearcher(call: CallId)
    | Publish(project: ProjectId, snapshot: Option<Snapshot>)
    | Invalidate(project: ProjectId)
    | InvalidateAll

  function Step(st: State, a: Action): State
  {
    match a
    case CanServe(c, p, ok) =>
      if c in st.calls then st
      else st.(calls := st.calls[c := if ok then Serving(p) else Returned(p, None, Empty)])
    case ReadSnapshot(c) =>
      if c in st.calls && st.calls[c].Serving? then
        var p := st.calls[c].project;
        st.(calls := st.calls[c := if p in st.live then Holding(p, st.live[p]) else Returned(p, None, Empty)])
      else st
    case CheckCache(c) =>
      if c in st.calls && st.calls[c].Holding? then
        var p, s := st.calls[c].project, st.calls[c].snapshot;
        var hit := Lookup(st.cache, p, s.epoch);
        st.(calls := st.calls[c := if hit.Some? then Returned(p, Some(s), hit.value) else Missed(p, s)])
      else st
    case StoreSearcher(c) =>
      if c in st.calls && st.calls[c].Missed? then
        var p, s := st.calls[c].project, st.calls[c].snapshot;
        State(st.live, Store(st.cache, p, s), st.calls[c := Returned(p, Some(s), Over(s.index))])
      else st
    case Publish(p, s) => st.(live := if s.Some? then st.live[p := s.value] else st.live - {p})
    case Invalidate(p) => st.(cache := st.cache - {p})
    case InvalidateAll => st.(cache := map[])
  }

  function Run(st: State, actions: seq<Action>): State
    decreases |actions|
  {
    if actions == [] then st else Run(Step(st, actions[0]), actions[1..])
  }

  /** Every returned searcher is the one built from the snapshot that same call read. */
  predicate Transparent(st: State)
  {
    forall c :: c in st.calls && st.calls[c].Returned? ==> st.calls[c].searcher == SearcherFor(st.calls[c].read)
  }

  type Pool = set<(ProjectId, Snapshot)>

  predicate PublishesFrom(actions: seq<Action>, pool: Pool)
  {
    forall i :: 0 <= i < |actions| && actions[i].Publish? && actions[i].snapshot.Some? ==> (actions[i].project, actions[i].snapshot.value) in pool
  }

  /** Within a project, an epoch names one index. */
  predicate EpochsDetermine(pool: Pool)
  {
    forall x, y :: x in pool && y in pool && x.0 == y.0 && x.1.epoch == y.1.epoch ==> x.1.index == y.1.index
  }

  predicate CachedFrom(p: ProjectId, e: Entry, pool: Pool)
  {
    e.searcher.Over? && (p, Snapshot(e.epoch, e.searcher.index)) in pool
  }

  predicate CallFrom(c: Call, pool: Pool)
  {
    match c
    case Serving(_) => true
    case Holding(p, s) => (p, s) in pool
    case Missed(p, s) => (p, s) in pool
    case Returned(_, read, searcher) => searcher == SearcherFor(read)
  }

  /** Snapshots in use come from the pool, and so do the searchers in the cache. */
  predicate Inv(st: State, pool: Pool)
  {
    && (forall p :: p in st.live ==> (p, st.live[p]) in pool)
    && (forall p :: p in st.cache ==> CachedFrom(p, st.cache[p], pool))
    && (forall c :: c in st.calls ==> CallFrom(st.calls[c], pool))
  }

  lemma StepKeepsInv(st: State, a: Action, pool: Pool)
    requires Inv(st, pool) && EpochsDetermine(pool) && PublishesFrom([a], pool)
    ensures Inv(Step(st, a), pool)
  {
    assert a == [a][0];
    if a.CheckCache? && a.call in st.calls && st.calls[a.call].Holding? {
      var p, s := st.calls[a.call].project, st.calls[a.call].snapshot;
      assert CallFrom(st.calls[a.call], pool);
      if p in st.cache && st.cache[p].epoch == s.epoch {
        var e := st.cache[p];
        assert CachedFrom(p, e, pool);
        assert (p, s).1.index == (p, Snapshot(e.epoch, e.searcher.index)).1.index;
      }
    }
  }

  lemma {:induction false} RunKeepsInv(st: State, actions: seq<Action>, pool: Pool)
    requires Inv(st, pool) && EpochsDetermine(pool) && PublishesFrom(actions, pool)
    ensures Inv(Run(st, actions), pool)
    decreases |actions|
  {
    hide Step, Inv, EpochsDetermine;
    if actions != [] {
      assert PublishesFrom([actions[0]], pool) by { assert actions[0] == [actions[0]][0]; }
      StepKeepsInv(st, actions[0], pool);
      RunKeepsInv(Step(st, actions[0]), actions[1..], pool);
    }
  }

  lemma InvIsTransparent(st: State, pool: Pool)
    requires Inv(st, pool)
    ensures Transparent(st)
  {
    forall c | c in st.calls && st.calls[c].Returned? ensures st.calls[c].searcher == SearcherFor(st.calls[c].read) {
      assert CallFrom(st.calls[c], pool);
    }
  }

  // A run in which an epoch that names two indices serves the first for the second.

  function FirstHalf(p: ProjectId, s: Snapshot): seq<Action>
  {
    [Publish(p, Some(s)), CanServe(0, p, true), ReadSnapshot(0), CheckCache(0), StoreSearcher(0)]
  }

  function SecondHalf(p: ProjectId, t: Snapshot): seq<Action>
  {
    [Publish(p, Some(t)), CanServe(1, p, true), ReadSnapshot(1), CheckCache(1)]
  }

  function StaleRun(p: ProjectId, s: Snapshot, t: Snapshot): seq<Action> { FirstHalf(p, s) + SecondHalf(p, t) }

  lemma RunFirst(st: State, a: Action, rest: seq<Action>)
    ensures Run(st, [a] + rest) == Run(Step(st, a), rest)
  {
    assert ([a] + rest)[1..] == rest;
  }

  lemma {:induction false} RunAppend(st: State, a: seq<Action>, b: seq<Action>)
    ensures Run(st, a + b) == Run(Run(st, a), b)
    decreases |a|
  {
    hide Step;
    if a == [] {
      assert a + b == b;
    } else {
      assert (a + b)[1..] == a[1..] + b;
      RunAppend(Step(st, a[0]), a[1..], b);
    }
  }

  lemma RunFour(st: State, a: Action, b: Action, c: Action, d: Action)
    ensures Run(st, [a, b, c, d]) == Step(Step(Step(Step(st, a), b), c), d)
  {
    hide Step;
    assert [a, b, c, d] == [a] + [b, c, d] && [b, c, d] == [b] + [c, d] && [c, d] == [c] + [d] && [d] == [d] + [];
    RunFirst(st, a, [b, c, d]);
    RunFirst(Step(st, a), b, [c, d]);
    RunFirst(Step(Step(st, a), b), c, [d]);
    RunFirst(Step(Step(Step(st, a), b), c), d, []);
  }

  lemma StaleRunIsNotTransparent(p: ProjectId, s: Snapshot, t: Snapshot)
    requires s.epoch == t.epoch && s.index != t.index
    ensures !Transparent(Run(INIT, StaleRun(p, s, t)))
  {
    var st := State(map[p := s], map[p := Entry(s.epoch, Over(s.index))], map[0 := Returned(p, Some(s), Over(s.index))]);
    assert FirstHalf(p, s) == [Publish(p, Some(s))] + [CanServe(0, p, true), ReadSnapshot(0), CheckCache(0), StoreSearcher(0)];
    RunFirst(INIT, Publish(p, Some(s)), [CanServe(0, p, true), ReadSnapshot(0), CheckCache(0), StoreSearcher(0)]);
    RunFour(Step(INIT, Publish(p, Some(s))), CanServe(0, p, true), ReadSnapshot(0), CheckCache(0), StoreSearcher(0));
    assert Run(INIT, FirstHalf(p, s)) == st;
    RunAppend(INIT, FirstHalf(p, s), SecondHalf(p, t));
    RunFour(st, Publish(p, Some(t)), CanServe(1, p, true), ReadSnapshot(1), CheckCache(1));
    var last := Run(st, SecondHalf(p, t));
    assert last.calls[1] == Returned(p, Some(t), Over(s.index));
  }

  /** Transparency under every interleaving of runs that publish from the pool. */
  ghost predicate AlwaysTransparent(pool: Pool)
  {
    forall actions :: PublishesFrom(actions, pool) ==> Transparent(Run(INIT, actions))
  }

  /**
   Under any interleaving of calls, publications and invalidations, late stores of older
   epochs included, the cache is invisible exactly when an epoch determines its index.
   */
  lemma TransparentIff(pool: Pool)
    ensures AlwaysTransparent(pool) <==> EpochsDetermine(pool)
  {
    if EpochsDetermine(pool) {
      forall actions | PublishesFrom(actions, pool) ensures Transparent(Run(INIT, actions)) {
        RunKeepsInv(INIT, actions, pool);
        InvIsTransparent(Run(INIT, actions), pool);
      }
    } else {
      var x, y :| x in pool && y in pool && x.0 == y.0 && x.1.epoch == y.1.epoch && x.1.index != y.1.index;
      StaleRunIsNotTransparent(x.0, x.1, y.1);
      assert PublishesFrom(StaleRun(x.0, x.1, y.1), pool);
    }
  }

  /** The action stores a searcher for the project, of this snapshot. */
  predicate Stores(st: State, a: Action, p: ProjectId, s: Snapshot)
  {
    a.StoreSearcher? && a.call in st.calls && st.calls[a.call] == Missed(p, s)
  }

  lemma StepFills(st: State, a: Action, p: ProjectId)
    requires p in Step(st, a).cache
    ensures (exists s :: Stores(st, a, p, s) && Step(st, a).cache[p] == Entry(s.epoch, Over(s.index)))
            || (p in st.cache && Step(st, a).cache[p] == st.cache[p] && a != Invalidate(p) && a != InvalidateAll)
  {
    if a.StoreSearcher? && a.call in st.calls && st.calls[a.call].Missed? && st.calls[a.call].project == p {
      assert Stores(st, a, p, st.calls[a.call].snapshot);
    }
  }

  /** At some point of the run the project's entry was stored as it is. */
  ghost predicate StoredSince(st: State, actions: seq<Action>, p: ProjectId, e: Entry)
  {
    exists i, s :: 0 <= i < |actions| && Stores(Run(st, actions[..i]), actions[i], p, s) && e == Entry(s.epoch, Over(s.index))
  }

  lemma {:induction false} FilledSince(st: State, actions: seq<Action>, p: ProjectId)
    requires p in Run(st, actions).cache
    ensures StoredSince(st, actions, p, Run(st, actions).cache[p]) || (p in st.cache && Run(st, actions).cache[p] == st.cache[p])
    decreases |actions|
  {
    hide Step, Stores;
    if actions != [] {
      var n := |actions| - 1;
      var before := Run(st, actions[..n]);
      assert actions == actions[..n] + [actions[n]];
      RunAppend(st, actions[..n], [actions[n]]);
      RunOne(before, actions[n]);
      StepFills(before, actions[n], p);
      if s :| Stores(before, actions[n], p, s) && Step(before, actions[n]).cache[p] == Entry(s.epoch, Over(s.index)) {
        assert StoredSince(st, actions, p, Run(st, actions).cache[p]);
      } else {
        FilledSince(st, actions[..n], p);
        if i, s :| 0 <= i < n && Stores(Run(st, actions[..n][..i]), actions[..n][i], p, s) && before.cache[p] == Entry(s.epoch, Over(s.index)) {
          assert actions[..n][..i] == actions[..i];
          assert Stores(Run(st, actions[..i]), actions[i], p, s);
        }
      }
    }
  }

  lemma RunOne(st: State, a: Action)
    ensures Run(st, [a]) == Step(st, a)
  {
    hide Step;
    assert [a][1..] == [];
  }

  /**
   What an invalidation is for: whatever calls were under way, an entry that the project has some time
   after it was stored after it, by a call that found none for its snapshot.
   */
  lemma InvalidationHolds(st: State, p: ProjectId, all: bool, actions: seq<Action>)
    ensures var after := Step(st, if all then InvalidateAll else Invalidate(p));
            && p !in after.cache
            && (p in Run(after, actions).cache ==> StoredSince(after, actions, p, Run(after, actions).cache[p]))
  {
    var after := Step(st, if all then InvalidateAll else Invalidate(p));
    assert p !in after.cache;
    hide Step, StoredSince;
    if p in Run(after, actions).cache { FilledSince(after, actions, p); }
  }

  lemma {:induction false} ReturnedStays(st: State, c: CallId, actions: seq<Action>)
    requires c in st.calls && st.calls[c].Returned?
    ensures c in Run(st, actions).calls && Run(st, actions).calls[c] == st.calls[c]
    decreases |actions|
  {
    if actions != [] {
      OtherCallsStay(st, c, actions[0]);
      hide Step;
      ReturnedStays(Step(st, actions[0]), c, actions[1..]);
    }
  }

  lemma OtherCallsStay(st: State, c: CallId, a: Action)
    requires c in st.calls && st.calls[c].Returned?
    ensures c in Step(st, a).calls && Step(st, a).calls[c] == st.calls[c]
  {}

  /** A call for a project that cannot serve queries gets the empty searcher, whatever is published or cached. */
  lemma CannotServeIsEmpty(st: State, c: CallId, p: ProjectId, actions: seq<Action>)
    requires c !in st.calls
    ensures var last := Run(Step(st, CanServe(c, p, false)), actions); c in last.calls && last.calls[c] == Returned(p, None, Empty)
  {
    ReturnedStays(Step(st, CanServe(c, p, false)), c, actions);
  }

  /** A call that can serve goes on from the last publication of its project: with that snapshot, or with nothing. */
  lemma PublicationIsRead(st: State, c: CallId, p: ProjectId, published: Option<Snapshot>)
    requires c !in st.calls
    ensures var last := Run(Step(st, Publish(p, published)), [CanServe(c, p, true), ReadSnapshot(c)]);
            c in last.calls && last.calls[c] == if published.Some? then Holding(p, published.value) else Returned(p, None, Empty)
  {
    var after := Step(st, Publish(p, published));
    RunFirst(after, CanServe(c, p, true), [ReadSnapshot(c)]);
    assert [CanServe(c, p, true)] + [ReadSnapshot(c)] == [CanServe(c, p, true), ReadSnapshot(c)];
    RunOne(Step(after, CanServe(c, p, true)), ReadSnapshot(c));
  }

  // ---------------------------------------------------------------- one call

  /** The locked cache of `SharedContext`. */
  class SharedContext {
    var relationSearcherCache: Cache

    constructor ()
      ensures relationSearcherCache == map[]
    {
      relationSearcherCache := map[];
    }

    /** `get_relation_searcher` without interference: `read` is the snapshot it reads, if the
        project can serve queries and has one. */
    method GetRelationSearcher(projectId: ProjectId, read: Option<Snapshot>) returns (searcher: Searcher)
      modifies this
      ensures read.None? ==> searcher == Empty && relationSearcherCache == old(relationSearcherCache)
      ensures read.Some? ==> Lookup(relationSearcherCache, projectId, read.value.epoch) == Some(searcher)
      ensures read.Some? && Lookup(old(relationSearcherCache), projectId, read.value.epoch).Some?
              ==> relationSearcherCache == old(relationSearcherCache)
      ensures read.Some? && Lookup(old(relationSearcherCache), projectId, read.value.epoch).None?
              ==> searcher == SearcherFor(read) && relationSearcherCache == Store(old(relationSearcherCache), projectId, read.value)
    {
      if read.None? { return Empty; }
      var snapshot := read.value;
      var hit := Lookup(relationSearcherCache, projectId, snapshot.epoch);
      if hit.Some? { return hit.value; }
      searcher := Over(snapshot.index);
      relationSearcherCache := relationSearcherCache[projectId := Entry(snapshot.epoch, searcher)];
    }

    /** `invalidate_relation_searcher`. */
    method InvalidateRelationSearcher(projectId: ProjectId)
      modifies this
      ensures relationSearcherCache == old(relationSearcherCache) - {projectId}
    {
      relationSearcherCache := relationSearcherCache - {projectId};
    }

    /** `invalidate_relation_searcher_all`. */
    method InvalidateRelationSearcherAll()
      modifies this
      ensures relationSearcherCache == map[]
    {
      relationSearcherCache := map[];
    }
  }
}
