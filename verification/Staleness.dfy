/**
 How stale a reused hash can be over whole runs of the gateway's poll loop
 (crates/app/cce-gateway/src/watch.rs, crates/app/cce-gateway/src/sync.rs).

 A full pass scans first and only then uploads and commits, while the loop takes the time at
 which the pass is over for the time of its scan.
 */
module Staleness {
  import opened Text
  import opened Ordering
  import opened Clock
  import opened Mirror
  import opened Supply
  import opened Watch

  /** A scan whose entries the loop keeps, with the tree it saw: a full one, or one that may reuse hashes. */
  datatype Mark = Full(at: Instant, tree: LocalTree) | Reuse(at: Instant, tree: LocalTree)

  /** The scans of one round: the poll's, and the fallback pass's when it succeeds. */
  function RoundMarks(p: Params, s: WatchState, m: Mirror, r: Round): seq<Mark>
  {
    if !r.scanOk then []
    else
      [if ShouldForceFull(s.pollsSinceFull, s.lastFullScan, r.now) then Full(r.now, r.local) else Reuse(r.now, r.local)]
      + if FallsBack(p, s, r) && SyncSucceeds(p, m, r)
        then [if Reusable(p, r).None? then Full(r.syncScanned, r.syncLocal) else Reuse(r.syncScanned, r.syncLocal)]
        else []
  }

  function Trace(p: Params, s: WatchState, m: Mirror, rs: Rounds): seq<Mark>
    decreases |rs|
  {
    if rs == [] then []
    else RoundMarks(p, s, m, rs[0]) + Trace(p, Step(p, s, m, rs[0]).0, Step(p, s, m, rs[0]).1, rs[1..])
  }

  predicate FreshAt(t: seq<Mark>, j: nat, limit: nat)
    requires j < |t|
  {
    t[j].Reuse? ==>
      exists i :: 0 <= i < j && j - i <= FULL_SCAN_EVERY_POLLS && t[i].Full? && DurationSince(t[j].at, t[i].at) < limit
  }

  /** Every reusing scan has a full one at most 60 scans and less than `limit` before it. */
  predicate Fresh(t: seq<Mark>, limit: nat) { forall j: nat :: j < |t| ==> FreshAt(t, j, limit) }

  /** A pass that lasts at most `d` from its scan to its end. */
  predicate Timely(d: nat, scanned: Instant, over: Instant) { scanned <= over <= scanned + d }

  /** The loop's counters describe the trace: the scans since the last full one, and when its pass was over. */
  predicate Grounded(t: seq<Mark>, s: WatchState, d: nat)
  {
    && s.pollsSinceFull <= FULL_SCAN_EVERY_POLLS && s.pollsSinceFull < |t|
    && var last := t[|t| - 1 - s.pollsSinceFull]; last.Full? && Timely(d, last.at, s.lastFullScan)
  }

  lemma FreshAppendFull(t: seq<Mark>, x: Mark, limit: nat)
    requires Fresh(t, limit) && x.Full?
    ensures Fresh(t + [x], limit)
  {
    var u := t + [x];
    forall j: nat | j < |u| ensures FreshAt(u, j, limit) { if j < |t| { FreshAtExtends(t, u, j, limit); } }
  }

  lemma FreshAtExtends(t: seq<Mark>, u: seq<Mark>, j: nat, limit: nat)
    requires t <= u && j < |t| && FreshAt(t, j, limit)
    ensures FreshAt(u, j, limit)
  {
    if t[j].Reuse? {
      var i :| 0 <= i < j && j - i <= FULL_SCAN_EVERY_POLLS && t[i].Full? && DurationSince(t[j].at, t[i].at) < limit;
      assert u[i] == t[i] && u[j] == t[j];
    }
  }

  lemma FreshAppendReuse(t: seq<Mark>, s: WatchState, now: Instant, tree: LocalTree, d: nat)
    requires Fresh(t, FULL_SCAN_INTERVAL + d) && Grounded(t, s, d) && !ShouldForceFull(s.pollsSinceFull, s.lastFullScan, now)
    ensures Fresh(t + [Reuse(now, tree)], FULL_SCAN_INTERVAL + d)
  {
    var u, limit := t + [Reuse(now, tree)], FULL_SCAN_INTERVAL + d;
    forall j: nat | j < |u| ensures FreshAt(u, j, limit) {
      if j < |t| {
        FreshAtExtends(t, u, j, limit);
      } else {
        var i := |t| - 1 - s.pollsSinceFull;
        assert u[i] == t[i];
      }
    }
  }

  lemma StepIsFresh(p: Params, s: WatchState, m: Mirror, r: Round, t: seq<Mark>, d: nat)
    requires !p.cacheFile && Timely(d, r.syncScanned, r.syncDone)
    requires Fresh(t, FULL_SCAN_INTERVAL + d) && Grounded(t, s, d)
    ensures var u := t + RoundMarks(p, s, m, r); Fresh(u, FULL_SCAN_INTERVAL + d) && Grounded(u, Step(p, s, m, r).0, d)
  {
    hide PollEvents, Scan, ApplyAll, Deliver, Fresh, SyncSucceeds, Delivered;
    var limit := FULL_SCAN_INTERVAL + d;
    if !r.scanOk {
      assert t + [] == t;
    } else {
      var force := ShouldForceFull(s.pollsSinceFull, s.lastFullScan, r.now);
      var mark := if force then Full(r.now, r.local) else Reuse(r.now, r.local);
      if force { FreshAppendFull(t, mark, limit); } else { FreshAppendReuse(t, s, r.now, r.local, d); }
      var u := t + [mark];
      if FallsBack(p, s, r) && SyncSucceeds(p, m, r) {
        FreshAppendFull(u, Full(r.syncScanned, r.syncLocal), limit);
        assert t + RoundMarks(p, s, m, r) == u + [Full(r.syncScanned, r.syncLocal)];
      } else {
        assert t + RoundMarks(p, s, m, r) == u;
      }
    }
  }

  predicate AllTimely(d: nat, rs: Rounds) { forall i :: 0 <= i < |rs| ==> Timely(d, rs[i].syncScanned, rs[i].syncDone) }

  /**
   Without a cache file and with passes that last at most `d`, every reused hash is less than
   300 s plus `d` old, in every run, through failed rescans and fallbacks.
   */
  lemma {:induction false} RunIsFresh(p: Params, s: WatchState, m: Mirror, rs: Rounds, t: seq<Mark>, d: nat)
    requires !p.cacheFile && AllTimely(d, rs)
    requires Fresh(t, FULL_SCAN_INTERVAL + d) && Grounded(t, s, d)
    ensures Fresh(t + Trace(p, s, m, rs), FULL_SCAN_INTERVAL + d) && Grounded(t + Trace(p, s, m, rs), Run(p, s, m, rs).0, d)
    decreases |rs|
  {
    hide Step, RoundMarks, Fresh, Grounded;
    if rs == [] {
      assert t + [] == t;
    } else {
      var s', m' := Step(p, s, m, rs[0]).0, Step(p, s, m, rs[0]).1;
      var u := t + RoundMarks(p, s, m, rs[0]);
      StepIsFresh(p, s, m, rs[0], t, d);
      RunIsFresh(p, s', m', rs[1..], u, d);
      assert u + Trace(p, s', m', rs[1..]) == t + Trace(p, s, m, rs);
    }
  }

  // ---------------------------------------------------------------- what a reused hash is a hash of

  /** The entry is what a full scan of that tree makes of the file. */
  predicate SeenIn(tree: LocalTree, id: Identity, e: FileEntry)
  {
    && id in tree && e.size == |tree[id].content| && e.modified == tree[id].modified
    && (e.contentHash.Some? ==> e.contentHash == Some(Digest(tree[id].content)))
  }

  ghost predicate SeenAt(t: seq<Mark>, s: WatchState, id: Identity)
    requires id in s.previousEntries
  {
    exists j :: 0 <= j < |t| && |t| - 1 - s.pollsSinceFull <= j && SeenIn(t[j].tree, id, s.previousEntries[id])
  }

  /** Every entry the loop keeps was true of a tree that it scanned since its last full scan. */
  ghost predicate Seen(t: seq<Mark>, s: WatchState) { forall id :: id in s.previousEntries ==> SeenAt(t, s, id) }

  lemma ScanSees(local: LocalTree, previous: Option<Entries>, id: Identity)
    requires id in Scan(local, previous).entries
    ensures var e := Scan(local, previous).entries[id];
            SeenIn(local, id, e) || (previous.Some? && id in previous.value && e == previous.value[id])
  {}

  lemma StepIsSeen(p: Params, s: WatchState, m: Mirror, r: Round, t: seq<Mark>)
    requires !p.cacheFile && Seen(t, s)
    ensures Seen(t + RoundMarks(p, s, m, r), Step(p, s, m, r).0)
  {
    hide PollEvents, Scan, ApplyAll, Deliver, SyncSucceeds, Delivered, SeenIn;
    var u, s' := t + RoundMarks(p, s, m, r), Step(p, s, m, r).0;
    if r.scanOk {
      var byPass := FallsBack(p, s, r) && SyncSucceeds(p, m, r);
      forall id | id in s'.previousEntries ensures SeenAt(u, s', id) {
        if byPass {
          ScanSees(r.syncLocal, None, id);
          assert SeenIn(u[|t| + 1].tree, id, s'.previousEntries[id]);
        } else {
          ScanSees(r.local, Reused(s, r), id);
          if SeenIn(r.local, id, s'.previousEntries[id]) {
            assert SeenIn(u[|t|].tree, id, s'.previousEntries[id]);
          } else {
            var j :| 0 <= j < |t| && |t| - 1 - s.pollsSinceFull <= j && SeenIn(t[j].tree, id, s.previousEntries[id]);
            assert u[j] == t[j];
          }
        }
      }
    } else {
      assert u == t;
    }
  }

  lemma {:induction false} RunIsSeen(p: Params, s: WatchState, m: Mirror, rs: Rounds, t: seq<Mark>)
    requires !p.cacheFile && Seen(t, s)
    ensures Seen(t + Trace(p, s, m, rs), Run(p, s, m, rs).0)
    decreases |rs|
  {
    hide Step, RoundMarks, Seen;
    if rs == [] {
      assert t + [] == t;
    } else {
      var s', m' := Step(p, s, m, rs[0]).0, Step(p, s, m, rs[0]).1;
      var u := t + RoundMarks(p, s, m, rs[0]);
      StepIsSeen(p, s, m, rs[0], t);
      RunIsSeen(p, s', m', rs[1..], u);
      assert u + Trace(p, s', m', rs[1..]) == t + Trace(p, s, m, rs);
    }
  }

  /**
   A change that a poll does not see, in any run from a first full scan on: the file's size and
   time are those of an earlier scan, whose content the poll still reports; and the last full scan,
   no later than that one, is at most 60 scans and less than 300 s plus `d` back.
   */
  lemma HiddenChangeIsRecent(p: Params, first: Mark, s: WatchState, m: Mirror, rs: Rounds, d: nat, r: Round, id: Identity)
      returns (t: seq<Mark>, full: nat, j: nat)
    requires !p.cacheFile && AllTimely(d, rs) && first.Full? && Timely(d, first.at, s.lastFullScan)
    requires s.pollsSinceFull == 0 && s.previousEntries == Scan(first.tree, None).entries
    requires id in Supplied(r.local)
    requires var files := PollScan(Run(p, s, m, rs).0, r).files;
             id in files ==> files[id].contentHash != Some(Digest(r.local[id].content))
    ensures t == [first] + Trace(p, s, m, rs) && full <= j < |t| && |t| - full <= FULL_SCAN_EVERY_POLLS
    ensures t[full].Full? && DurationSince(r.now, t[full].at) < FULL_SCAN_INTERVAL + d
    ensures var files, past := PollScan(Run(p, s, m, rs).0, r).files, t[j].tree;
            && id in files && id in past && files[id].contentHash == Some(Digest(past[id].content))
            && |past[id].content| == |r.local[id].content| && past[id].modified == r.local[id].modified
            && past[id].content != r.local[id].content
  {
    hide Trace, Run, Scan, Fresh, SeenIn;
    var last := Run(p, s, m, rs).0;
    t := [first] + Trace(p, s, m, rs);
    FirstIsFresh(first, s, d);
    RunIsFresh(p, s, m, rs, [first], d);
    forall x | x in s.previousEntries ensures SeenAt([first], s, x) {
      ScanSees(first.tree, None, x);
      assert SeenIn([first][0].tree, x, s.previousEntries[x]);
    }
    RunIsSeen(p, s, m, rs, [first]);
    full := |t| - 1 - last.pollsSinceFull;
    HidesOnlyReused(last, r, id);
    assert SeenAt(t, last, id);
    j :| full <= j < |t| && SeenIn(t[j].tree, id, last.previousEntries[id]);
    SeenSays(t[j].tree, id, last.previousEntries[id]);
  }

  lemma FirstIsFresh(first: Mark, s: WatchState, d: nat)
    requires first.Full? && Timely(d, first.at, s.lastFullScan) && s.pollsSinceFull == 0
    ensures Fresh([first], FULL_SCAN_INTERVAL + d) && Grounded([first], s, d)
  {}

  lemma SeenSays(tree: LocalTree, id: Identity, e: FileEntry)
    requires SeenIn(tree, id, e) && e.contentHash.Some?
    ensures id in tree && e.contentHash == Some(Digest(tree[id].content)) && e.size == |tree[id].content| && e.modified == tree[id].modified
  {}

  lemma FullScanHidesNothing(local: LocalTree, id: Identity)
    requires id in Supplied(local)
    ensures var files := Scan(local, None).files; id in files && files[id].contentHash == Some(Digest(local[id].content))
  {}

  /** A poll that reports a wrong hash reuses it, behind an unchanged size and time. */
  lemma HidesOnlyReused(s: WatchState, r: Round, id: Identity)
    requires id in Supplied(r.local)
    requires id in PollScan(s, r).files ==> PollScan(s, r).files[id].contentHash != Some(Digest(r.local[id].content))
    ensures !ShouldForceFull(s.pollsSinceFull, s.lastFullScan, r.now) && id in s.previousEntries && id in PollScan(s, r).files
    ensures var e := s.previousEntries[id];
            && e.contentHash.Some? && e.contentHash != Some(Digest(r.local[id].content))
            && PollScan(s, r).files[id].contentHash == e.contentHash
            && e.size == |r.local[id].content| && e.modified == r.local[id].modified
  {
    hide ShouldForceFull;
    if Reused(s, r).Some? { HiddenChangeIff(r.local, s.previousEntries, id); } else { FullScanHidesNothing(r.local, id); }
  }

  // ---------------------------------------------------------------- runs that reach the bound

  // Rounds that toggle more files than the threshold, so that each falls back to a pass.

  function Name(n: nat): Identity { seq(n, _ => 'a') }

  function Names(k: nat): (s: set<Identity>)
    ensures |s| == k
    ensures forall id :: id in s ==> |id| < k && '/' !in id
  {
    if k == 0 then {} else Names(k - 1) + {Name(k - 1)}
  }

  function Bit(on: bool): Content { [if on then 1 else 0] }

  function Time(on: bool): int { if on then 1 else 0 }

  function Toggled(k: nat, on: bool): LocalTree
  {
    FlatIsPrefixFree(Names(k));
    var tree := map id | id in Names(k) :: LocalFile(Bit(on), Time(on));
    assert tree.Keys == Names(k);
    tree
  }

  function ToggleEntries(k: nat, on: bool): Entries
  {
    map id | id in Names(k) :: FileEntry(1, Time(on), Some(Digest(Bit(on))))
  }

  function ToggleFiles(k: nat, on: bool): Files
  {
    map id | id in Names(k) :: Fingerprint(1, 0, Some(Digest(Bit(on))))
  }

  /** A round whose pass scans at `at` and lasts `d`. */
  function ToggleRound(k: nat, on: bool, at: Instant, d: nat): Round
  {
    var local := Toggled(k, on);
    Round(at, local, true, Supplied(local), NotApplied, at, local, Some(ToggleEntries(k, on)), {}, true, at + d)
  }

  function ToggleState(k: nat, on: bool, last: Instant): WatchState
  {
    WatchState(ToggleFiles(k, on), ToggleEntries(k, on), 0, last)
  }

  /** Rounds with a gap between them, the first one that long after `last`. */
  function ToggleRounds(k: nat, on: bool, n: nat, last: Instant, gap: nat): Rounds
    decreases n
  {
    if n == 0 then [] else [ToggleRound(k, on, last + gap, 0)] + ToggleRounds(k, !on, n - 1, last + gap, gap)
  }

  lemma {:induction false} EventsOfAll(baseline: Files, files: Files, disk: map<Identity, Content>, ids: seq<Identity>)
    requires forall id :: id in ids ==> EventOf(baseline, files, disk, id).Some?
    ensures |EventsOf(baseline, files, disk, ids)| == |ids|
  {
    hide EventOf;
    if ids != [] {
      assert ids[0] in ids;
      EventsOfAll(baseline, files, disk, ids[1..]);
    }
  }

  lemma ToggleScan(k: nat, on: bool, previous: Option<Entries>, was: bool)
    requires previous == None || previous == Some(ToggleEntries(k, was))
    ensures Scan(Toggled(k, on), previous) == ScanOutcome(ToggleFiles(k, on), ToggleEntries(k, on))
  {
    hide Names;
    var out := Scan(Toggled(k, on), previous);
    assert out.entries == ToggleEntries(k, on);
    assert Secs(Time(on)) == 0;
    assert out.files == ToggleFiles(k, on);
  }

  lemma ToggleEvent(k: nat, on: bool, id: Identity)
    requires id in Names(k)
    ensures EventOf(ToggleFiles(k, !on), ToggleFiles(k, on), Supplied(Toggled(k, on)), id).Some?
  {
    hide Names;
    assert Bit(on)[0] != Bit(!on)[0];
  }

  lemma ToggleEvents(k: nat, on: bool, last: Instant, at: Instant, d: nat)
    ensures |EventsIn(ToggleState(k, !on, last), ToggleRound(k, on, at, d))| == k
  {
    hide Scan, EventOf, EventsOf, SortedKeys, Supplied, Names, Toggled, ShouldForceFull;
    var s, r := ToggleState(k, !on, last), ToggleRound(k, on, at, d);
    ToggleScan(k, on, Reused(s, r), !on);
    var files := ToggleFiles(k, on);
    var ids := SortedKeys(files.Keys);
    assert files.Keys == Names(k);
    forall id | id in ids ensures EventOf(s.baseline, files, r.disk, id).Some? { ToggleEvent(k, on, id); }
    EventsOfAll(s.baseline, files, r.disk, ids);
    assert s.baseline.Keys - files.Keys == {};
    assert ids + SortedKeys(s.baseline.Keys - files.Keys) == ids;
  }

  /** A round that falls back: the poll's scan reuses hashes, and the pass's does as the cache file says. */
  lemma ToggleStep(p: Params, m: Mirror, on: bool, last: Instant, at: Instant, d: nat)
    requires DurationSince(at, last) < FULL_SCAN_INTERVAL
    ensures var k := p.fullSyncThreshold + 1;
            && RoundMarks(p, ToggleState(k, !on, last), m, ToggleRound(k, on, at, d))
               == [Reuse(at, Toggled(k, on)), if p.cacheFile then Reuse(at, Toggled(k, on)) else Full(at, Toggled(k, on))]
            && FallsBack(p, ToggleState(k, !on, last), ToggleRound(k, on, at, d))
            && Step(p, ToggleState(k, !on, last), m, ToggleRound(k, on, at, d)).0 == ToggleState(k, on, at + d)
  {
    hide Scan, PollEvents, Deliver, Names, Toggled;
    var k := p.fullSyncThreshold + 1;
    var s, r := ToggleState(k, !on, last), ToggleRound(k, on, at, d);
    ToggleEvents(k, on, last, at, d);
    ToggleScan(k, on, Reused(s, r), !on);
    assert r.cached.value.Keys == Names(k);
    ToggleScan(k, on, Reusable(p, r), on);
    ScansAreHashed(r.syncLocal, Reusable(p, r));
    assert SyncSucceeds(p, m, r);
  }

  lemma {:induction false} ToggleTrace(p: Params, m: Mirror, on: bool, n: nat, last: Instant, gap: nat)
    requires p.cacheFile && gap < FULL_SCAN_INTERVAL
    ensures var k := p.fullSyncThreshold + 1;
            var s, rs := ToggleState(k, !on, last), ToggleRounds(k, on, n, last, gap);
            && |Trace(p, s, m, rs)| == 2 * n && (forall i :: 0 <= i < 2 * n ==> Trace(p, s, m, rs)[i].Reuse?)
            && Spaced(p, s, m, rs, last, gap)
    decreases n
  {
    hide Step, RoundMarks, ToggleState, ToggleRound, FallsBack;
    if n > 0 {
      var k := p.fullSyncThreshold + 1;
      var s, rs := ToggleState(k, !on, last), ToggleRounds(k, on, n, last, gap);
      ToggleStep(p, m, on, last, last + gap, 0);
      ToggleTimes(k, on, last + gap, 0);
      assert rs[0] == ToggleRound(k, on, last + gap, 0) && rs[1..] == ToggleRounds(k, !on, n - 1, last + gap, gap);
      var m' := Step(p, s, m, rs[0]).1;
      ToggleTrace(p, m', !on, n - 1, last + gap, gap);
      assert ToggleState(k, !!on, last + gap) == ToggleState(k, on, last + gap);
    }
  }

  lemma ToggleTimes(k: nat, on: bool, at: Instant, d: nat)
    ensures var r := ToggleRound(k, on, at, d); r.now == at && r.syncDone == at + d && Timely(d, r.syncScanned, r.syncDone)
  {
    hide Toggled;
  }

  lemma {:induction false} ToggleTimely(k: nat, on: bool, n: nat, last: Instant, gap: nat, d: nat)
    ensures AllTimely(d, ToggleRounds(k, on, n, last, gap))
    decreases n
  {
    hide ToggleRound;
    if n > 0 {
      ToggleTimely(k, !on, n - 1, last + gap, gap, d);
      ToggleTimes(k, on, last + gap, 0);
      var rs := ToggleRounds(k, on, n, last, gap);
      assert rs[1..] == ToggleRounds(k, !on, n - 1, last + gap, gap);
      forall i | 0 <= i < |rs| ensures Timely(d, rs[i].syncScanned, rs[i].syncDone) { if i > 0 { assert rs[i] == rs[1..][i - 1]; } }
    }
  }

  lemma NotFresh(t: seq<Mark>, j: nat, limit: nat)
    requires FULL_SCAN_EVERY_POLLS < j < |t| && forall i :: 1 <= i <= j ==> t[i].Reuse?
    ensures !Fresh(t, limit)
  {
    assert !FreshAt(t, j, limit);
  }

  /** When the round is over: with its pass, if it takes one. */
  function Over(p: Params, s: WatchState, r: Round): Instant { if FallsBack(p, s, r) then r.syncDone else r.now }

  /** Rounds between which the loop sleeps, the first one after `over`. */
  predicate Spaced(p: Params, s: WatchState, m: Mirror, rs: Rounds, over: Instant, gap: nat)
    decreases |rs|
  {
    rs != [] ==>
      && over + gap <= rs[0].now
      && Spaced(p, Step(p, s, m, rs[0]).0, Step(p, s, m, rs[0]).1, rs[1..], Over(p, s, rs[0]), gap)
  }

  /**
   The staleness bound over all runs from a first full pass on, with passes that last at most `d`
   and a loop that sleeps for `gap` between its rounds.
   */
  ghost predicate AlwaysFresh(p: Params, d: nat, gap: nat, limit: nat)
  {
    forall s: WatchState, first: Mark, m, rs ::
      first.Full? && s.pollsSinceFull == 0 && Timely(d, first.at, s.lastFullScan)
      && AllTimely(d, rs) && Spaced(p, s, m, rs, s.lastFullScan, gap) ==>
        Fresh([first] + Trace(p, s, m, rs), limit)
  }

  /** With a cache file some run never scans fully again. */
  lemma NeverFullAgain(p: Params, d: nat, gap: nat, limit: nat)
    requires p.cacheFile && gap < FULL_SCAN_INTERVAL
    ensures !AlwaysFresh(p, d, gap, limit)
  {
    hide Trace, ToggleRounds, Fresh, Spaced;
    var k := p.fullSyncThreshold + 1;
    var s, rs := ToggleState(k, false, 0), ToggleRounds(k, true, 31, 0, gap);
    var first := Full(0, map[]);
    ToggleTrace(p, EMPTY, true, 31, 0, gap);
    ToggleTimely(k, true, 31, 0, gap, d);
    NotFresh([first] + Trace(p, s, EMPTY, rs), 62, limit);
    assert Timely(d, first.at, s.lastFullScan);
  }

  /** A poll over an unchanged tree, just before the next full scan is due. */
  function LastReuse(k: nat, on: bool, over: Instant): Round
  {
    ToggleRound(k, on, over + FULL_SCAN_INTERVAL - 1, 0)
  }

  lemma QuietMarks(p: Params, m: Mirror, on: bool, over: Instant)
    ensures RoundMarks(p, ToggleState(p.fullSyncThreshold + 1, on, over), m, LastReuse(p.fullSyncThreshold + 1, on, over))
            == [Reuse(over + FULL_SCAN_INTERVAL - 1, Toggled(p.fullSyncThreshold + 1, on))]
  {
    hide Scan, PollEvents, Names, SyncSucceeds, Toggled;
    var k := p.fullSyncThreshold + 1;
    var s, r := ToggleState(k, on, over), LastReuse(k, on, over);
    ToggleScan(k, on, Reused(s, r), on);
    forall id | id in ToggleFiles(k, on) && NeedsEvent(s.baseline, ToggleFiles(k, on), id) ensures false {}
    NoEventsIff(s.baseline, ToggleFiles(k, on), r.disk);
  }

  function SlowRounds(k: nat, d: nat, gap: nat): Rounds { [ToggleRound(k, true, gap, d), LastReuse(k, true, gap + d)] }

  /**
   A slow pass: it scans after one sleep and is over `d` later; just before 300 s have passed since
   then, a poll still reuses its hashes.
   */
  lemma SlowPass(p: Params, m: Mirror, d: nat, gap: nat)
    requires !p.cacheFile && gap < FULL_SCAN_INTERVAL
    ensures var k := p.fullSyncThreshold + 1;
            var s, rs, tree := ToggleState(k, false, 0), SlowRounds(k, d, gap), Toggled(k, true);
            && Trace(p, s, m, rs) == [Reuse(gap, tree), Full(gap, tree), Reuse(gap + d + FULL_SCAN_INTERVAL - 1, tree)]
            && Spaced(p, s, m, rs, 0, gap)
  {
    hide Step, RoundMarks, ToggleState, ToggleRound, LastReuse, FallsBack, Toggled;
    var k := p.fullSyncThreshold + 1;
    var s, rs := ToggleState(k, false, 0), SlowRounds(k, d, gap);
    ToggleStep(p, m, true, 0, gap, d);
    var m' := Step(p, s, m, rs[0]).1;
    QuietMarks(p, m', true, gap + d);
    var s' := Step(p, s, m, rs[0]).0;
    assert ToggleState(k, !true, 0) == s && s' == ToggleState(k, true, gap + d);
    var last := LastReuse(k, true, gap + d);
    assert rs[1..] == [last] && rs[1..][1..] == [];
    var s'', m'' := Step(p, s', m', last).0, Step(p, s', m', last).1;
    OneRound(p, s', m', last);
    ToggleTimes(k, true, gap, d);
    LastTimes(k, true, gap + d);
    assert Spaced(p, s', m', [last], gap + d, gap) by { assert [last][1..] == []; assert Spaced(p, s'', m'', [], Over(p, s', last), gap); }
  }

  lemma OneRound(p: Params, s: WatchState, m: Mirror, r: Round)
    ensures Trace(p, s, m, [r]) == RoundMarks(p, s, m, r)
  {
    hide RoundMarks, Step;
    assert [r][1..] == [];
    assert Trace(p, Step(p, s, m, r).0, Step(p, s, m, r).1, []) == [];
  }

  lemma LastTimes(k: nat, on: bool, over: Instant)
    ensures var r := LastReuse(k, on, over); r.now == over + FULL_SCAN_INTERVAL - 1 && Timely(0, r.syncScanned, r.syncDone)
  {
    hide Toggled;
  }

  lemma SlowIsStale(p: Params, d: nat, gap: nat, limit: nat)
    requires !p.cacheFile && limit < FULL_SCAN_INTERVAL + d && gap < FULL_SCAN_INTERVAL
    ensures !AlwaysFresh(p, d, gap, limit)
  {
    hide Trace, ToggleState, SlowRounds, Spaced, Toggled;
    var k := p.fullSyncThreshold + 1;
    var s, rs, tree := ToggleState(k, false, 0), SlowRounds(k, d, gap), Toggled(k, true);
    SlowPass(p, EMPTY, d, gap);
    var first := Full(0, map[]);
    var t := [first] + Trace(p, s, EMPTY, rs);
    assert t == [first, Reuse(gap, tree), Full(gap, tree), Reuse(gap + d + FULL_SCAN_INTERVAL - 1, tree)];
    SlowIsTimely(k, d, gap);
    assert !FreshAt(t, 3, limit);
  }

  lemma SlowIsTimely(k: nat, d: nat, gap: nat)
    ensures AllTimely(d, SlowRounds(k, d, gap)) && ToggleState(k, false, 0).lastFullScan == 0 && ToggleState(k, false, 0).pollsSinceFull == 0
  {
    hide Toggled;
  }

  /**
   With passes that last at most `d` and any sleep shorter than 300 s, reused hashes are always less
   than `limit` old exactly when no cache file is configured and `limit` is at least 300 s plus `d`:
   so 300 s hold only for passes that take no time.
   */
  lemma AlwaysFreshIff(p: Params, d: nat, gap: nat, limit: nat)
    requires gap < FULL_SCAN_INTERVAL
    ensures AlwaysFresh(p, d, gap, limit) <==> !p.cacheFile && limit >= FULL_SCAN_INTERVAL + d
  {
    hide Trace, Spaced;
    if p.cacheFile {
      NeverFullAgain(p, d, gap, limit);
    } else if limit < FULL_SCAN_INTERVAL + d {
      SlowIsStale(p, d, gap, limit);
    } else {
      forall s: WatchState, first: Mark, m, rs
        | first.Full? && s.pollsSinceFull == 0 && Timely(d, first.at, s.lastFullScan)
          && AllTimely(d, rs) && Spaced(p, s, m, rs, s.lastFullScan, gap)
        ensures Fresh([first] + Trace(p, s, m, rs), limit)
      {
        FirstIsFresh(first, s, d);
        RunIsFresh(p, s, m, rs, [first], d);
        FresherLimit([first] + Trace(p, s, m, rs), FULL_SCAN_INTERVAL + d, limit);
      }
    }
  }

  lemma FresherLimit(t: seq<Mark>, a: nat, b: nat)
    requires Fresh(t, a) && a <= b
    ensures Fresh(t, b)
  {
    forall j: nat | j < |t| ensures FreshAt(t, j, b) { assert FreshAt(t, j, a); }
  }
}
