/**
 When the mirror catches up with a tree that no longer changes
 (crates/app/cce-gateway/src/watch.rs).
 */
module Convergence {
  import opened Text
  import opened Ordering
  import opened Mirror
  import opened Supply
  import opened Watch
  import opened LostChanges

  /** The round sees one unchanging tree, reads what it holds, and the host's disk does not fail. */
  predicate StaticRound(local: LocalTree, r: Round)
  {
    && r.local == local && r.syncLocal == local && r.disk == Supplied(local)
    && (r.push.Applied? ==> r.push.faulty == {})
  }

  /** The poll scans, and its pass has no error, or its events, if there are any, are taken. */
  predicate RoundSucceeds(p: Params, s: WatchState, r: Round)
  {
    r.scanOk && if FallsBack(p, s, r) then r.syncOk else EventsIn(s, r) == [] || r.push.Applied?
  }

  /** On the mirror, no directory stands where the tree has a file, and no file where it has a directory. */
  ghost predicate Clear(local: LocalTree, m: Mirror)
  {
    forall id :: id in Supplied(local) ==> !Blocked(m, id)
  }

  /** It is so when no path of the tree is a directory on the way to one the mirror ever held, or the other way round. */
  lemma ClearIfTreesAgree(local: LocalTree, m: Mirror, held: set<Identity>)
    requires m.files.Keys <= held && forall d :: d in m.dirs ==> exists id :: id in held && d in Parents(id)
    requires PrefixFree(held + Supplied(local).Keys)
    ensures Clear(local, m)
  {
    var all := held + Supplied(local).Keys;
    forall id | id in Supplied(local) ensures !Blocked(m, id) {
      assert id in all && forall x :: x in held ==> x in all;
      forall a | a in Parents(id) ensures a !in m.files { assert a in m.files ==> a in all; }
    }
  }

  /** The baseline credits the mirror with nothing of this tree that it lacks. */
  predicate SoundAt(local: LocalTree, fp: Option<Fingerprint>, content: Option<Content>, id: Identity)
  {
    fp.Some? && id in Supplied(local) && fp.value.contentHash == Some(Digest(local[id].content)) ==> content == Some(local[id].content)
  }

  ghost predicate Sound(local: LocalTree, baseline: Files, m: Mirror)
  {
    forall id :: SoundAt(local, At(baseline, id), At(m.files, id), id)
  }

  lemma InStepIsSound(local: LocalTree, baseline: Files, m: Mirror)
    requires InStep(baseline, m)
    ensures Sound(local, baseline, m) && m.files.Keys == baseline.Keys
  {
    forall id ensures SoundAt(local, At(baseline, id), At(m.files, id), id) && (id in m.files <==> id in baseline) {
      assert InStepAt(At(baseline, id), At(m.files, id));
    }
  }

  lemma SoundAtKept(local: LocalTree, baseline: Files, m: Mirror, files: Files, id: Identity)
    requires PrefixFree(files.Keys) && files.Keys == Supplied(local).Keys && Clear(local, m)
    requires SoundAt(local, At(baseline, id), At(m.files, id), id)
    ensures SoundAt(local, At(files, id), At(ApplyAll(m, PollEvents(baseline, files, Supplied(local)), {}).files, id), id)
  {
    hide PollEvents, ApplyAll, Blocked, PrefixFree;
    PollEffectAt(m, baseline, files, Supplied(local), {}, id);
  }

  /** Events read from an unchanging tree never credit the mirror with content it lacks. */
  lemma SoundKept(local: LocalTree, baseline: Files, m: Mirror, files: Files)
    requires PrefixFree(files.Keys) && files.Keys == Supplied(local).Keys && Clear(local, m)
    requires Sound(local, baseline, m)
    ensures Sound(local, files, ApplyAll(m, PollEvents(baseline, files, Supplied(local)), {}))
  {
    hide PrefixFree, Clear;
    forall id ensures SoundAt(local, At(files, id), At(ApplyAll(m, PollEvents(baseline, files, Supplied(local)), {}).files, id), id) {
      SoundAtKept(local, baseline, m, files, id);
    }
  }

  /** If the round takes a pass that succeeds, this leaves out nothing that the mirror lacks. */
  predicate OmitsHeld(p: Params, s: WatchState, m: Mirror, r: Round)
  {
    ScansAreHashed(r.syncLocal, Reusable(p, r));
    FallsBack(p, s, r) && SyncSucceeds(p, m, r) ==> RestHeld(m, SyncScan(p, r).files, Delivered(p, m, r))
  }

  lemma DeliveredIsSound(local: LocalTree, files: Files, m: Mirror, ids: set<Identity>)
    requires AllHashed(files) && RestHeld(m, files, ids)
    ensures Sound(local, files, Deliver(m, files, ids))
  {
    forall id ensures SoundAt(local, At(files, id), At(Deliver(m, files, ids).files, id), id) { DeliverAt(m, files, ids, id); }
  }

  /** A failed pass that has delivered true contents leaves the old baseline sound. */
  lemma PartIsSound(local: LocalTree, baseline: Files, m: Mirror, ids: set<Identity>)
    requires Sound(local, baseline, m) && AllHashed(TrueFiles(local))
    ensures Sound(local, baseline, Deliver(m, TrueFiles(local), ids))
  {
    TrueFilesAre(local);
    forall id ensures SoundAt(local, At(baseline, id), At(Deliver(m, TrueFiles(local), ids).files, id), id) {
      DeliverAt(m, TrueFiles(local), ids, id);
      assert SoundAt(local, At(baseline, id), At(m.files, id), id);
    }
  }

  /** The mirror holds every file of the tree, and maybe others. */
  ghost predicate Holds(local: LocalTree, m: Mirror)
  {
    forall id :: id in Supplied(local) ==> At(m.files, id) == Some(local[id].content)
  }

  /** What the mirror holds beyond the tree. */
  function Leftovers(local: LocalTree, m: Mirror): set<Identity> { m.files.Keys - Supplied(local).Keys }

  lemma HoldsNothingElseIff(local: LocalTree, m: Mirror)
    requires Holds(local, m)
    ensures m.files == Supplied(local) <==> Leftovers(local, m) == {}
  {
    if Leftovers(local, m) == {} {
      forall id ensures id in m.files <==> id in Supplied(local) {
        assert id !in Leftovers(local, m);
        if id in Supplied(local) { assert At(m.files, id).Some?; }
      }
      forall id | id in m.files ensures m.files[id] == Supplied(local)[id] { assert At(m.files, id) == Some(local[id].content); }
      assert m.files == Supplied(local);
    }
  }

  /** A sound baseline that tells the truth means the mirror holds the whole tree. */
  lemma SoundAndTrue(local: LocalTree, m: Mirror)
    requires Sound(local, TrueFiles(local), m)
    ensures Holds(local, m)
  {
    var files := TrueFiles(local);
    forall id | id in Supplied(local) ensures At(m.files, id) == Some(local[id].content) {
      assert SoundAt(local, At(files, id), At(m.files, id), id);
    }
  }

  ghost predicate Settled(local: LocalTree, s: WatchState, m: Mirror)
  {
    && s.baseline == TrueFiles(local)
    && EntriesTrue(local, s.previousEntries)
    && Holds(local, m)
  }

  /** How many more successful rounds are certain to settle the mirror. */
  ghost function Needed(local: LocalTree, s: WatchState): nat
  {
    if EntriesTrue(local, s.previousEntries) then 1
    else if s.pollsSinceFull < FULL_SCAN_EVERY_POLLS then FULL_SCAN_EVERY_POLLS + 1 - s.pollsSinceFull
    else 1
  }

  lemma SettledStays(p: Params, local: LocalTree, s: WatchState, m: Mirror, r: Round)
    requires Settled(local, s, m) && r.local == local
    ensures Settled(local, Step(p, s, m, r).0, Step(p, s, m, r).1)
  {
    hide Step, EntriesTrue, TrueFiles;
    QuietStep(p, local, s, m, r);
  }

  lemma ApplyNone(m: Mirror)
    ensures ApplyAll(m, [], {}) == m
  {}

  lemma SyncSettles(p: Params, local: LocalTree, r: Round)
    requires !p.cacheFile && r.syncLocal == local
    ensures var out := SyncScan(p, r); AllHashed(out.files) && out.files == TrueFiles(local) && EntriesTrue(local, out.entries)
  {
    hide Scan, EntriesTrue;
    assert ScanIsTrue(local, None);
    ScansAreHashed(local, None);
    TrueScan(local, None);
  }

  lemma SoundStays(p: Params, local: LocalTree, s: WatchState, m: Mirror, r: Round)
    requires !p.cacheFile && Sound(local, s.baseline, m) && Clear(local, m) && StaticRound(local, r) && OmitsHeld(p, s, m, r)
    ensures Sound(local, Step(p, s, m, r).0.baseline, Step(p, s, m, r).1)
  {
    hide Scan, PollEvents, ApplyAll, Sound, Clear, RestHeld, Deliver, Delivered, SyncSucceeds, ShouldForceFull, AllHashed, Supplied, PrefixFree;
    ScanKeys(local, Reused(s, r));
    SoundKept(local, s.baseline, m, PollScan(s, r).files);
    SyncSettles(p, local, r);
    if FallsBack(p, s, r) && SyncSucceeds(p, m, r) { DeliveredIsSound(local, SyncScan(p, r).files, m, Delivered(p, m, r)); }
    PartIsSound(local, s.baseline, m, Delivered(p, m, r));
    assert EventsIn(s, r) == [] ==> ApplyAll(m, EventsIn(s, r), {}) == m by { ApplyNone(m); }
  }

  lemma PollPaths(baseline: Files, files: Files, disk: map<Identity, Content>)
    ensures forall k :: 0 <= k < |PollEvents(baseline, files, disk)| ==>
              PollEvents(baseline, files, disk)[k].relativePath in files || PollEvents(baseline, files, disk)[k].kind.Deleted?
  {
    hide PollEvents, EventOf;
    PollEventsExact(baseline, files, disk);
    var es := PollEvents(baseline, files, disk);
    forall k | 0 <= k < |es| ensures es[k].relativePath in files || es[k].kind.Deleted? { EventShape(baseline, files, disk, es[k].relativePath); }
  }

  /** Over an unchanging tree, nothing ever comes to stand in a file's way. */
  lemma ClearStays(p: Params, local: LocalTree, s: WatchState, m: Mirror, r: Round)
    requires Clear(local, m) && StaticRound(local, r)
    ensures Clear(local, Step(p, s, m, r).1)
  {
    hide Scan, PollEvents, ApplyAll, Deliver, Delivered, SyncSucceeds, ShouldForceFull, AllHashed, Supplied, PrefixFree, Blocked;
    var files, events := PollScan(s, r).files, EventsIn(s, r);
    ScanKeys(local, Reused(s, r));
    ScanKeys(local, Reusable(p, r));
    ScansAreHashed(local, Reusable(p, r));
    PollPaths(s.baseline, files, r.disk);
    forall id | id in Supplied(local) ensures !Blocked(Step(p, s, m, r).1, id) {
      EventsBlockNone(m, events, {}, files.Keys, id);
      DeliverKeepsBlocked(m, SyncScan(p, r).files, Delivered(p, m, r), id);
    }
  }

  /** Every round brings the mirror closer or leaves it where it was; a successful one brings it closer. */
  lemma Progress(p: Params, local: LocalTree, s: WatchState, m: Mirror, r: Round)
    requires !p.cacheFile && Sound(local, s.baseline, m) && Clear(local, m) && StaticRound(local, r) && OmitsHeld(p, s, m, r)
    ensures var (s', m') := Step(p, s, m, r);
            || Settled(local, s', m')
            || (Needed(local, s') <= Needed(local, s) && (RoundSucceeds(p, s, r) ==> Needed(local, s') < Needed(local, s)))
  {
    hide Scan, PollEvents, ApplyAll, Sound, Deliver, Delivered, OmitsHeld, AllHashed, Supplied, EntriesTrue, Holds, Blocked;
    var s', m' := Step(p, s, m, r).0, Step(p, s, m, r).1;
    if r.scanOk {
      SoundStays(p, local, s, m, r);
      SyncSettles(p, local, r);
      ScanKeys(local, None);
      assert FallsBack(p, s, r) && r.syncOk ==> SyncSucceeds(p, m, r);
      if ScansTruly(local, s, r) { PollScanTrue(local, s, r); }
      if s'.baseline == TrueFiles(local) { SoundAndTrue(local, m'); }
    }
  }

  function Successes(p: Params, s: WatchState, m: Mirror, rs: Rounds): nat
    decreases |rs|
  {
    if rs == [] then 0
    else
      (if RoundSucceeds(p, s, rs[0]) then 1 else 0) + Successes(p, Step(p, s, m, rs[0]).0, Step(p, s, m, rs[0]).1, rs[1..])
  }

  /** Rounds over one unchanging tree, whose passes leave out nothing that the mirror lacks. */
  predicate StaticRun(p: Params, local: LocalTree, s: WatchState, m: Mirror, rs: Rounds)
    decreases |rs|
  {
    rs != [] ==>
      && StaticRound(local, rs[0]) && OmitsHeld(p, s, m, rs[0])
      && StaticRun(p, local, Step(p, s, m, rs[0]).0, Step(p, s, m, rs[0]).1, rs[1..])
  }

  lemma {:induction false} RunSettles(p: Params, local: LocalTree, s: WatchState, m: Mirror, rs: Rounds)
    requires !p.cacheFile && StaticRun(p, local, s, m, rs)
    requires Sound(local, s.baseline, m) && Clear(local, m)
    requires Settled(local, s, m) || Successes(p, s, m, rs) >= Needed(local, s)
    ensures Settled(local, Run(p, s, m, rs).0, Run(p, s, m, rs).1)
    decreases |rs|
  {
    hide Step, Settled, OmitsHeld, Sound, RoundSucceeds, Clear;
    if rs != [] {
      var s', m' := Step(p, s, m, rs[0]).0, Step(p, s, m, rs[0]).1;
      SoundStays(p, local, s, m, rs[0]);
      ClearStays(p, local, s, m, rs[0]);
      if Settled(local, s, m) {
        SettledStays(p, local, s, m, rs[0]);
      } else {
        Progress(p, local, s, m, rs[0]);
      }
      RunSettles(p, local, s', m', rs[1..]);
    }
  }

  // ---------------------------------------------------------------- files that are gone

  /** No round over an unchanging tree adds a file that the tree does not hold. */
  lemma LeftoversShrink(p: Params, local: LocalTree, s: WatchState, m: Mirror, r: Round)
    requires StaticRound(local, r)
    ensures Leftovers(local, Step(p, s, m, r).1) <= Leftovers(local, m)
  {
    hide Scan, PollEvents, ApplyAll, AllHashed, Supplied, ShouldForceFull, EventOf, Deliver, Delivered, SyncSucceeds, PrefixFree, Blocked;
    ScanKeys(local, Reused(s, r));
    ScanKeys(local, Reusable(p, r));
    ScansAreHashed(local, Reusable(p, r));
    var m' := Step(p, s, m, r).1;
    forall id | id !in Supplied(local) && id !in m.files ensures id !in m'.files {
      PollEffectAt(m, s.baseline, PollScan(s, r).files, r.disk, {}, id);
      DeliverAt(m, SyncScan(p, r).files, Delivered(p, m, r), id);
      assert At(m'.files, id) == None;
    }
  }

  lemma {:induction false} RunLeftoversShrink(p: Params, local: LocalTree, s: WatchState, m: Mirror, rs: Rounds)
    requires StaticRun(p, local, s, m, rs)
    ensures Leftovers(local, Run(p, s, m, rs).1) <= Leftovers(local, m)
    decreases |rs|
  {
    hide Step, StaticRound, OmitsHeld, Leftovers;
    if rs != [] {
      LeftoversShrink(p, local, s, m, rs[0]);
      RunLeftoversShrink(p, local, Step(p, s, m, rs[0]).0, Step(p, s, m, rs[0]).1, rs[1..]);
    }
  }

  /**
   Convergence: when baseline and mirror are in step, no file and directory have changed places,
   and the tree stops changing, any run with 61 successful rounds, however many failed polls,
   pushes and half-finished passes lie between, leaves the mirror with every file of the tree,
   whatever stale hashes the scans may have reused; and with nothing else if no file was waiting
   to be removed.
   */
  lemma Converges(p: Params, local: LocalTree, s: WatchState, m: Mirror, rs: Rounds)
    requires !p.cacheFile && InStep(s.baseline, m) && Clear(local, m)
    requires StaticRun(p, local, s, m, rs)
    requires Successes(p, s, m, rs) > FULL_SCAN_EVERY_POLLS
    ensures Holds(local, Run(p, s, m, rs).1)
    ensures Leftovers(local, m) == {} ==> Run(p, s, m, rs).1.files == Supplied(local)
  {
    hide Run, Successes, Sound, InStep, EntriesTrue, StaticRun, Leftovers, Clear, Holds;
    InStepIsSound(local, s.baseline, m);
    RunSettles(p, local, s, m, rs);
    RunLeftoversShrink(p, local, s, m, rs);
    HoldsNothingElseIff(local, Run(p, s, m, rs).1);
  }

  /** The mirror holds nothing that the baseline does not know of, and the baseline nothing new. */
  predicate Tracked(known: set<Identity>, baseline: Files, m: Mirror)
  {
    m.files.Keys <= baseline.Keys <= known
  }

  lemma {:induction false} FewEventsOf(baseline: Files, files: Files, disk: map<Identity, Content>, ids: seq<Identity>)
    ensures |EventsOf(baseline, files, disk, ids)| <= |ids|
  {
    hide EventOf;
    if ids != [] { FewEventsOf(baseline, files, disk, ids[1..]); }
  }

  lemma FewEvents(known: set<Identity>, baseline: Files, files: Files, disk: map<Identity, Content>)
    requires baseline.Keys <= known && files.Keys <= known
    ensures |PollEvents(baseline, files, disk)| <= |known|
  {
    hide EventsOf, SortedKeys;
    var gone := baseline.Keys - files.Keys;
    FewEventsOf(baseline, files, disk, SortedKeys(files.Keys) + SortedKeys(gone));
    assert |files.Keys + gone| == |files.Keys| + |gone|;
    SubsetSize(files.Keys + gone, known);
  }

  lemma EventsTrack(local: LocalTree, baseline: Files, m: Mirror, files: Files)
    requires PrefixFree(files.Keys) && m.files.Keys <= baseline.Keys
    ensures ApplyAll(m, PollEvents(baseline, files, Supplied(local)), {}).files.Keys <= files.Keys
  {
    hide PollEvents, ApplyAll, PrefixFree, Blocked;
    var m' := ApplyAll(m, PollEvents(baseline, files, Supplied(local)), {});
    forall id | id in m'.files ensures id in files {
      PollEffectAt(m, baseline, files, Supplied(local), {}, id);
      assert At(m'.files, id).Some?;
    }
  }

  lemma StepTracks(p: Params, local: LocalTree, s: WatchState, m: Mirror, r: Round, known: set<Identity>)
    requires StaticRound(local, r) && Supplied(local).Keys <= known && |known| <= p.fullSyncThreshold
    requires Tracked(known, s.baseline, m)
    ensures !FallsBack(p, s, r)
    ensures Tracked(known, Step(p, s, m, r).0.baseline, Step(p, s, m, r).1)
  {
    hide Scan, PollEvents, ApplyAll, Supplied, ShouldForceFull, PrefixFree;
    var files := PollScan(s, r).files;
    ScanKeys(local, Reused(s, r));
    FewEvents(known, s.baseline, files, r.disk);
    EventsTrack(local, s.baseline, m, files);
    assert EventsIn(s, r) == [] ==> ApplyAll(m, EventsIn(s, r), {}) == m by { ApplyNone(m); }
  }

  lemma NoPassOmits(p: Params, s: WatchState, m: Mirror, r: Round)
    requires !FallsBack(p, s, r)
    ensures OmitsHeld(p, s, m, r)
  {}

  lemma {:induction false} RunTracks(p: Params, local: LocalTree, s: WatchState, m: Mirror, rs: Rounds, known: set<Identity>)
    requires (forall i :: 0 <= i < |rs| ==> StaticRound(local, rs[i])) && Supplied(local).Keys <= known && |known| <= p.fullSyncThreshold
    requires Tracked(known, s.baseline, m)
    ensures StaticRun(p, local, s, m, rs)
    ensures Tracked(known, Run(p, s, m, rs).0.baseline, Run(p, s, m, rs).1)
    decreases |rs|
  {
    hide Step, StaticRound, OmitsHeld, Supplied, Tracked;
    if rs != [] {
      StepTracks(p, local, s, m, rs[0], known);
      NoPassOmits(p, s, m, rs[0]);
      RunTracks(p, local, Step(p, s, m, rs[0]).0, Step(p, s, m, rs[0]).1, rs[1..], known);
    }
  }

  /** When the threshold covers every known file, no pass is taken, and removals arrive as well. */
  lemma ConvergesByEvents(p: Params, local: LocalTree, s: WatchState, m: Mirror, rs: Rounds)
    requires !p.cacheFile && InStep(s.baseline, m) && Clear(local, m)
    requires forall i :: 0 <= i < |rs| ==> StaticRound(local, rs[i])
    requires Successes(p, s, m, rs) > FULL_SCAN_EVERY_POLLS
    requires |s.baseline.Keys + Supplied(local).Keys| <= p.fullSyncThreshold
    ensures Run(p, s, m, rs).1.files == Supplied(local)
  {
    hide Run, Successes, Sound, InStep, EntriesTrue, StaticRun, Supplied, Holds, Clear;
    InStepIsSound(local, s.baseline, m);
    RunTracks(p, local, s, m, rs, s.baseline.Keys + Supplied(local).Keys);
    RunSettles(p, local, s, m, rs);
    ScanKeys(local, None);
    HoldsNothingElseIff(local, Run(p, s, m, rs).1);
  }

  // ---------------------------------------------------------------- exactly when one round settles

  lemma TrueReadsVerify(local: LocalTree, baseline: Files)
    ensures ReadsVerify(baseline, TrueFiles(local), Supplied(local))
  {
    forall id | id in TrueFiles(local) && NeedsEvent(baseline, TrueFiles(local), id)
      ensures EventOf(baseline, TrueFiles(local), Supplied(local), id).Some?
    {
      TrueReadPasses(baseline, TrueFiles(local), Supplied(local), id, local);
    }
  }

  lemma TrueContents(local: LocalTree)
    ensures AllHashed(TrueFiles(local)) && ContentsOf(TrueFiles(local)) == Supplied(local)
  {
    ScansAreHashed(local, None);
    assert ScanIsTrue(local, None);
    TrueScan(local, None);
  }

  lemma EventRoundSettlesIff(p: Params, local: LocalTree, s: WatchState, m: Mirror, r: Round)
    requires InStep(s.baseline, m) && AllHashed(s.baseline) && StaticRound(local, r)
    requires r.scanOk && (EventsIn(s, r) == [] || r.push.Applied?) && ScansTruly(local, s, r) && !FallsBack(p, s, r)
    ensures Step(p, s, m, r).1.files == Supplied(local) <==>
            forall id :: id in Supplied(local) && NeedsEvent(s.baseline, TrueFiles(local), id) ==> !Blocked(m, id)
  {
    hide Scan, PollEvents, ApplyAll, InStep, AllHashed, Supplied, ShouldForceFull, Blocked, TrueFiles, NeedsEvent, EntriesTrue, ContentsOf, ReadsVerify;
    PollScanTrue(local, s, r);
    EventRoundEffect(p, s, m, r);
    TrueReadsVerify(local, s.baseline);
    TrueFilesAre(local);
    TrueContents(local);
    DiffExactIff(s.baseline, m, TrueFiles(local), r.disk);
  }

  lemma PassRoundSettlesIff(p: Params, local: LocalTree, s: WatchState, m: Mirror, r: Round)
    requires !p.cacheFile && OnDisk(m) && StaticRound(local, r) && OmitsHeld(p, s, m, r)
    requires FallsBack(p, s, r) && r.syncOk
    ensures Step(p, s, m, r).1.files == Supplied(local) <==> SyncSucceeds(p, m, r) && Leftovers(local, m) == {}
  {
    hide Scan, PollEvents, ApplyAll, AllHashed, Supplied, ShouldForceFull, Deliver, RestHeld, TrueFiles, ContentsOf;
    SyncSettles(p, local, r);
    TrueContents(local);
    TrueFilesAre(local);
    var files, ids := SyncScan(p, r).files, Delivered(p, m, r);
    DeliverIsSnapshotIff(m, files, ids);
    assert Step(p, s, m, r).1 == Deliver(m, files, ids);
    if !SyncSucceeds(p, m, r) {
      var id :| id in r.syncDelivers && id in files && Blocked(m, id);
      DeliverAt(m, files, ids, id);
      BlockedIsNotThere(m, id);
      assert id in Supplied(local);
      assert At(Step(p, s, m, r).1.files, id) == None;
    } else {
      assert files.Keys == Supplied(local).Keys;
      NothingLeftIff(m.files.Keys, files.Keys);
    }
  }

  lemma NothingLeftIff(a: set<Identity>, b: set<Identity>)
    ensures a - b == {} <==> a <= b
  {
    if a - b == {} {
      forall x | x in a ensures x in b { assert x !in a - b; }
    }
  }

  lemma BlockedIsNotThere(m: Mirror, id: Identity)
    requires OnDisk(m) && Blocked(m, id)
    ensures id !in m.files
  {}

  /**
   The first successful round whose scan tells the truth brings the mirror to the tree exactly
   when its changes go as events of which none is blocked, or a pass meets no blocked file and no
   file was waiting to be removed.
   */
  lemma TrueRoundSettlesIff(p: Params, local: LocalTree, s: WatchState, m: Mirror, r: Round)
    requires !p.cacheFile && InStep(s.baseline, m) && AllHashed(s.baseline) && OnDisk(m)
    requires StaticRound(local, r) && OmitsHeld(p, s, m, r) && RoundSucceeds(p, s, r) && ScansTruly(local, s, r)
    ensures Step(p, s, m, r).1.files == Supplied(local) <==>
            if FallsBack(p, s, r) then SyncSucceeds(p, m, r) && Leftovers(local, m) == {}
            else forall id :: id in Supplied(local) && NeedsEvent(s.baseline, TrueFiles(local), id) ==> !Blocked(m, id)
  {
    hide Step, InStep, AllHashed, OnDisk, StaticRound, OmitsHeld, ScansTruly, Supplied, TrueFiles, Blocked, NeedsEvent, SyncSucceeds, Leftovers, FallsBack;
    if FallsBack(p, s, r) { PassRoundSettlesIff(p, local, s, m, r); } else { EventRoundSettlesIff(p, local, s, m, r); }
  }
}
