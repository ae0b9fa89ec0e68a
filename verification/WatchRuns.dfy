/**
 Whole runs of the gateway's poll loop (crates/app/cce-gateway/src/watch.rs): when baseline and
 mirror stay in step, and what the mirror's disk allows.
 */
module WatchRuns {
  import opened Text
  import opened Clock
  import opened Mirror
  import opened Supply
  import opened Watch

  // ---------------------------------------------------------------- exactly when the run stays in step

  lemma BaselineStaysHashed(p: Params, s: WatchState, m: Mirror, r: Round)
    requires AllHashed(s.baseline)
    ensures AllHashed(Step(p, s, m, r).0.baseline)
  {
    hide PollEvents, Scan, AllHashed, ApplyAll, Deliver, Delivered, SyncSucceeds;
    ScansAreHashed(r.local, Reused(s, r));
    ScansAreHashed(r.syncLocal, Reusable(p, r));
  }

  /** One round from a hashed baseline stays in step exactly when it loses nothing. */
  lemma StepKeepsStepIff(p: Params, s: WatchState, m: Mirror, r: Round)
    requires InStep(s.baseline, m) && AllHashed(s.baseline)
    ensures InStep(Step(p, s, m, r).0.baseline, Step(p, s, m, r).1) <==> RoundLossFree(p, s, m, r)
  {
    hide PollEvents, Scan, AllHashed, InStep, LossFree, ShouldForceFull, Deliver, Delivered, PassLossFree, SyncSucceeds, PrefixFree;
    if RoundLossFree(p, s, m, r) {
      StepKeepsStep(p, s, m, r);
    } else {
      var files, events := PollScan(s, r).files, EventsIn(s, r);
      ScansAreHashed(r.local, Reused(s, r));
      ScanKeys(r.local, Reused(s, r));
      if |events| > p.fullSyncThreshold {
        if SyncSucceeds(p, m, r) { PassInStepIff(p, s, m, r); } else { FailedPassInStepIff(p, s, m, r); }
      } else {
        var faulty := if events == [] || r.push.NotApplied? then {} else r.push.faulty;
        KeepsStepIff(s.baseline, m, files, r.disk, faulty);
      }
    }
  }

  /** In step before the first round and after each one. */
  ghost predicate AlwaysInStep(p: Params, s: WatchState, m: Mirror, rs: Rounds)
    decreases |rs|
  {
    && InStep(s.baseline, m)
    && (rs != [] ==> AlwaysInStep(p, Step(p, s, m, rs[0]).0, Step(p, s, m, rs[0]).1, rs[1..]))
  }

  /** A run stays in step throughout exactly when no round of it loses a change. */
  lemma {:induction false} RunInStepIff(p: Params, s: WatchState, m: Mirror, rs: Rounds)
    requires InStep(s.baseline, m) && AllHashed(s.baseline)
    ensures AlwaysInStep(p, s, m, rs) <==> RunLossFree(p, s, m, rs)
    decreases |rs|
  {
    hide Step, InStep, RoundLossFree, AllHashed;
    if rs != [] {
      var s', m' := Step(p, s, m, rs[0]).0, Step(p, s, m, rs[0]).1;
      StepKeepsStepIff(p, s, m, rs[0]);
      BaselineStaysHashed(p, s, m, rs[0]);
      if InStep(s'.baseline, m') { RunInStepIff(p, s', m', rs[1..]); }
    }
  }

  /** The state a first successful pass leaves, as `watch_loop` starts from it. */
  function FirstState(local: LocalTree, previous: Option<Entries>, started: Instant): WatchState
  {
    var out := Scan(local, previous);
    WatchState(out.files, out.entries, 0, started)
  }

  /**
   From the first successful pass on, over a mirror that may hold anything: the run stays in step
   exactly when that pass leaves nothing to remove or deliver, and no round loses a change.
   */
  lemma RunFromFirstPass(p: Params, local: LocalTree, previous: Option<Entries>, started: Instant, before: Mirror, ids: set<Identity>, rs: Rounds)
    ensures AllHashed(Scan(local, previous).files)
    ensures var files := Scan(local, previous).files;
            var s, m := FirstState(local, previous, started), Deliver(before, files, ids);
            AlwaysInStep(p, s, m, rs) <==>
            before.files.Keys <= files.Keys && RestHeld(before, files, ids) && RunLossFree(p, s, m, rs)
  {
    hide Scan, RunLossFree, InStep, Deliver, RestHeld, AllHashed, ContentsOf;
    ScansAreHashed(local, previous);
    var files := Scan(local, previous).files;
    var s, m := FirstState(local, previous, started), Deliver(before, files, ids);
    InStepIsSnapshotIff(files, m);
    DeliverIsSnapshotIff(before, files, ids);
    if InStep(files, m) { RunInStepIff(p, s, m, rs); }
  }

  // ---------------------------------------------------------------- the mirror is a disk

  lemma {:induction false} EventsStayOnDisk(m: Mirror, es: seq<Event>, faulty: set<Identity>)
    requires OnDisk(m)
    ensures OnDisk(ApplyAll(m, es, faulty)) && m.dirs <= ApplyAll(m, es, faulty).dirs
    decreases |es|
  {
    hide Written, OnDisk, Blocked;
    if es != [] {
      var e := es[0];
      if Written(e).Some? && !Blocked(m, e.relativePath) { WriteStaysOnDisk(m, e.relativePath, Written(e).value); }
      RemoveStaysOnDisk(m, e.relativePath);
      EventsStayOnDisk(ApplyEvent(m, e, faulty), es[1..], faulty);
    }
  }

  lemma RemoveStaysOnDisk(m: Mirror, id: Identity)
    requires OnDisk(m)
    ensures OnDisk(Remove(m, id))
  {}

  lemma DeliverStaysOnDisk(m: Mirror, files: Files, ids: set<Identity>)
    requires AllHashed(files) && PrefixFree(files.Keys) && OnDisk(m)
    requires forall id :: id in ids && id in files ==> !Blocked(m, id)
    ensures OnDisk(Deliver(m, files, ids)) && m.dirs <= Deliver(m, files, ids).dirs
  {
    var m' := Deliver(m, files, ids);
    forall x | x in m'.files ensures x !in m'.dirs && Parents(x) <= m'.dirs {}
  }

  /** Every round leaves what a disk can hold, and never fewer directories. */
  lemma StepStaysOnDisk(p: Params, s: WatchState, m: Mirror, r: Round)
    requires OnDisk(m)
    ensures OnDisk(Step(p, s, m, r).1) && m.dirs <= Step(p, s, m, r).1.dirs
  {
    hide Scan, PollEvents, ApplyAll, OnDisk, Deliver, PrefixFree, Blocked;
    var events := EventsIn(s, r);
    if r.push.Applied? { EventsStayOnDisk(m, events, r.push.faulty); }
    ScansAreHashed(r.syncLocal, Reusable(p, r));
    ScanKeys(r.syncLocal, Reusable(p, r));
    DeliverStaysOnDisk(m, SyncScan(p, r).files, Delivered(p, m, r));
  }

  /** Where a directory once was, no run ever puts a file again. */
  lemma {:induction false} DirectoryStays(p: Params, s: WatchState, m: Mirror, rs: Rounds, id: Identity)
    requires OnDisk(m) && id in m.dirs
    ensures id !in Run(p, s, m, rs).1.files
    decreases |rs|
  {
    hide Step;
    if rs != [] {
      StepStaysOnDisk(p, s, m, rs[0]);
      DirectoryStays(p, Step(p, s, m, rs[0]).0, Step(p, s, m, rs[0]).1, rs[1..], id);
    }
  }
}
