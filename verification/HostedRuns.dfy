/**
 Runs of the poll loop together with the host's staging and index, each fallback pass with the
 batches it posts (crates/app/cce-gateway/src/{watch,sync}.rs with
 crates/app/cce-server/src/api/handlers/ingest).

 Over a tree that no longer changes, all passes are over one snapshot, so what a pass leaves
 behind in the staging and in the index is what the next one builds on.
 */
module HostedRuns {
  import opened Text
  import opened Ordering
  import opened Mirror
  import opened Supply
  import opened Upload
  import opened Ingest
  import opened FullPass
  import opened PassHistory
  import opened Watch
  import opened RoundPass
  import opened LostChanges
  import opened Convergence

  // ---------------------------------------------------------------- a host that skips nothing it lacks

  /** Only chunks of the file are staged, and all of them only if the mirror has the file. */
  predicate KeptAt(h: Host, files: Files, id: Identity)
    requires AllHashed(files) && id in files
  {
    InBounds(h, files, id) && (Complete(h, files, id) ==> !Missing(h.mirror, files, id))
  }

  ghost predicate StagingSound(h: Host, files: Files)
    requires AllHashed(files)
  {
    TrueStaged(h, files) && Unblocked(h.mirror, files) && forall id :: id in files ==> KeptAt(h, files, id)
  }

  /** The index records no hash of the snapshot that the mirror lacks. */
  predicate IndexSound(h: Host, files: Files)
    requires AllHashed(files)
  {
    forall id :: id in files && Fresh(h, files, id) ==> !Missing(h.mirror, files, id)
  }

  ghost predicate HostSound(h: Host, files: Files)
    requires AllHashed(files)
  {
    StagingSound(h, files) && IndexSound(h, files)
  }

  /** It is so if nothing of the snapshot is staged yet. */
  lemma UnstagedIsSound(h: Host, files: Files)
    requires AllHashed(files) && Unstaged(h, files) && Unblocked(h.mirror, files) && IndexSound(h, files)
    ensures HostSound(h, files)
  {
    hide Missing, Fresh;
    forall id | id in files ensures KeptAt(h, files, id) { NothingReceived(h, files, id); }
    UnstagedIsTrue(h, files);
  }

  /** A sound host asks for every file of the snapshot that its mirror lacks. */
  lemma SkippedIsHeld(h: Host, files: Files, id: Identity)
    requires AllHashed(files) && HostSound(h, files) && id in Unasked(h, files)
    ensures !Missing(h.mirror, files, id)
  {
    hide Missing, TotalChunks, Complete, InBounds, TrueStaged, Unblocked;
    assert KeptAt(h, files, id);
    CountIsComplete(h, files, id);
  }

  /** So a pass over a sound host that can succeed leaves the mirror with every file of the snapshot. */
  lemma TruePassHolds(c: Setting, h: Host, posted: seq<seq<Piece>>, unzip: Unzip, commit: Commit, id: Identity)
    requires AllHashed(c.files) && Sized(c.files) && PrefixFree(c.files.Keys) && Unpacks(c, unzip) && TrueReads(c)
    requires HostSound(h, c.files) && SentFor(c, h, posted) && Answers(c, h, posted, unzip, NoFaults())
    requires commit.Wanted? ==> commit.ok
    ensures PassSucceeds(c, h, |posted|, true, commit)
    ensures id in c.files ==> !Missing(PassLeaves(c, h, posted, unzip, NoFaults(), commit).host.mirror, c.files, id)
  {
    hide Unpacks, TrueStaged, Unblocked, AfterBatches, SentFor, Uploaded, Deliver, Unasked, PrefixFree, Sized, TrueReads, Answers, PassLeaves, IndexSound;
    TruePassSucceeds(c, h, posted, unzip, commit);
    DeliverAt(h.mirror, c.files, Asked(h, c.files), id);
    if id in c.files && id !in Asked(h, c.files) { SkippedIsHeld(h, c.files, id); }
  }

  // ---------------------------------------------------------------- passes keep it sound

  /** The mirror loses no file of the snapshot. */
  predicate LosesNothing(m: Mirror, m': Mirror, files: Files)
    requires AllHashed(files)
  {
    forall id :: id in files && !Missing(m, files, id) ==> !Missing(m', files, id)
  }

  lemma KeptElsewhere(h: Host, h': Host, files: Files, id: Identity)
    requires AllHashed(files) && id in files && KeptAt(h, files, id) && Received(h', id) == Received(h, id)
    requires !Missing(h.mirror, files, id) ==> !Missing(h'.mirror, files, id)
    ensures KeptAt(h', files, id)
  {
    hide Received, Missing, TotalChunks;
  }

  lemma WriteLosesNothing(m: Mirror, files: Files, id: Identity)
    requires AllHashed(files) && PrefixFree(files.Keys) && id in files && Unblocked(m, files)
    ensures var m' := Write(m, id, ContentOf(files, id));
            LosesNothing(m, m', files) && Unblocked(m', files) && !Missing(m', files, id)
  {
    hide Blocked, PrefixFree;
    forall x | x in files ensures !Blocked(Write(m, id, ContentOf(files, id)), x) {
      WriteKeepsBlocked(m, id, ContentOf(files, id), files.Keys, x);
    }
  }

  lemma GroupKeeps(h: Host, batch: seq<Piece>, id: Identity, unzip: Unzip, faults: Faults, files: Files)
    requires AllHashed(files) && Sized(files) && PrefixFree(files.Keys) && Mentions(batch, id) && Good(files, unzip, batch)
    requires faults.unwritten == {} && StagingSound(h, files)
    ensures var h' := StageGroup(h, batch, id, unzip, faults).0; StagingSound(h', files) && LosesNothing(h.mirror, h'.mirror, files)
  {
    hide StageGroup, TrueStaged, Blocked, Write, TotalChunks, Received, Missing, PrefixFree, Sized, InOrder, TruePiece, Mentions;
    var (h', o) := StageGroup(h, batch, id, unzip, faults);
    StageGroupShape(h, batch, id, unzip, faults, files);
    StageGroupTrue(h, batch, id, unzip, faults, files);
    WriteLosesNothing(h.mirror, files, id);
    GroupInBounds(h, h', batch, id, files, o.Rejected?);
    forall x | x in files ensures KeptAt(h', files, x) {
      assert KeptAt(h, files, x);
      if x != id {
        StageGroupOthers(h, batch, id, unzip, faults, x);
        KeptElsewhere(h, h', files, x);
      }
    }
  }

  lemma GroupInBounds(h: Host, h': Host, batch: seq<Piece>, id: Identity, files: Files, rejected: bool)
    requires AllHashed(files) && id in files && Conform(files, batch) && InBounds(h, files, id)
    requires if rejected then h' == h else forall k :: k in Received(h', id) <==> k in Received(h, id) || Brings(batch, id, k)
    ensures InBounds(h', files, id)
  {
    hide Received, TotalChunks;
  }

  lemma {:induction false} GroupsKeep(l: Log, batch: seq<Piece>, ids: seq<Identity>, unzip: Unzip, faults: Faults, files: Files)
    requires AllHashed(files) && Sized(files) && PrefixFree(files.Keys) && (forall x :: x in ids ==> Mentions(batch, x))
    requires Good(files, unzip, batch) && faults.unwritten == {} && StagingSound(l.host, files)
    ensures var h' := StageGroups(l, batch, ids, unzip, faults).0.host; StagingSound(h', files) && LosesNothing(l.host.mirror, h'.mirror, files)
  {
    hide StageGroup, StagingSound, Good, Mentions, Missing, PrefixFree, Sized;
    if ids != [] {
      var n := |ids| - 1;
      assert ids[n] in ids;
      GroupsKeep(l, batch, ids[..n], unzip, faults, files);
      GroupKeeps(StageGroups(l, batch, ids[..n], unzip, faults).0.host, batch, ids[n], unzip, faults, files);
    }
  }

  /** The disk never fails to write a completed file. */
  ghost predicate WritesSucceed(fate: nat -> Delivery)
  {
    forall i {:trigger fate(i)} :: fate(i).Handled? ==> fate(i).faults.unwritten == {}
  }

  lemma {:induction false} BatchesKeep(l: Log, batches: seq<seq<Piece>>, n: nat, unzip: Unzip, fate: nat -> Delivery, files: Files)
    requires n <= |batches| && AllHashed(files) && Sized(files) && PrefixFree(files.Keys)
    requires (forall i :: 0 <= i < |batches| ==> Good(files, unzip, batches[i])) && WritesSucceed(fate) && StagingSound(l.host, files)
    ensures var h' := AfterBatches(l, batches, n, unzip, fate).host; StagingSound(h', files) && LosesNothing(l.host.mirror, h'.mirror, files)
  {
    hide StageGroups, StagingSound, Good, SortedKeys, Mentions, Missing, PrefixFree, Sized;
    if n > 0 {
      BatchesKeep(l, batches, n - 1, unzip, fate, files);
      PathsAreMentioned(batches[n - 1]);
      if fate(n - 1).Handled? {
        GroupsKeep(AfterBatches(l, batches, n - 1, unzip, fate), batches[n - 1], SortedKeys(PathsOf(batches[n - 1])), unzip, fate(n - 1).faults, files);
      }
    }
  }

  /** So does a commit, which may drop the staging. */
  lemma CommitKeeps(h: Host, commit: Commit, files: Files)
    requires AllHashed(files) && StagingSound(h, files)
    ensures StagingSound(AfterCommit(h, commit), files)
  {
    hide Received, Missing, Unblocked, TrueStaged, Complete;
    var h' := AfterCommit(h, commit);
    CommitTrue(h, commit, files);
    forall id | id in files ensures KeptAt(h', files, id) {
      assert KeptAt(h, files, id);
      CommitReceived(h, commit, id);
      if Drops(commit) { NothingReceived(h', files, id); } else { KeptElsewhere(h, h', files, id); }
    }
  }

  // ---------------------------------------------------------------- one round of loop and host

  /** A round, the pass it takes if it falls back, and what the index records after it if it does not. */
  datatype Turn = Turn(round: Round, pass: Pass, recorded: map<Identity, Digest>)

  /** How many of a pass's batches get to the host. */
  function Posted(t: Pass): nat { if t.handled <= |t.batches| then t.handled else |t.batches| }

  function LogOf(h: Host, t: Pass, unzip: Unzip): Log { AfterBatches(Log(h, {}, {}), t.batches, Posted(t), unzip, t.fate) }

  function HostAfter(p: Params, s: WatchState, h: Host, t: Turn, unzip: Unzip): Host
  {
    if FallsBack(p, s, t.round) then AfterPass(Log(h, {}, {}), t.pass, unzip).host
    else Host(Step(p, s, h.mirror, t.round).1, h.staged, t.recorded)
  }

  /** The pass posts what its manifest was asked for; without an error, all of it was sent and taken. */
  ghost predicate TakesPass(p: Params, h: Host, t: Turn, unzip: Unzip)
  {
    var c, batches := t.pass.setting, t.pass.batches;
    && IsPassOf(p, t.round, c, LogOf(h, t.pass, unzip), t.round.syncOk) && SentFor(c, h, batches)
    && (t.round.syncOk ==>
          Posted(t.pass) == |batches| && NoProblems(c, h) && AllClean(Log(h, {}, {}), batches, |batches|, unzip, t.pass.fate))
  }

  /** What an index run may leave recorded of a file: what was, or the hash of what the mirror holds. */
  predicate Indexes(before: map<Identity, Digest>, m: Mirror, after: map<Identity, Digest>)
  {
    forall id :: id in after ==> (id in before && after[id] == before[id]) || (id in m.files && after[id] == Digest(m.files[id]))
  }

  /**
   A round over an unchanging tree, with a host whose disk writes what it is asked to write. Passes
   may fail to read files, to stage chunks or to be committed, and may be refused or cut short anywhere.
   */
  ghost predicate SteadyTurn(p: Params, local: LocalTree, s: WatchState, h: Host, t: Turn, unzip: Unzip)
  {
    && StaticRound(local, t.round)
    && Indexes(h.recorded, HostAfter(p, s, h, t, unzip).mirror, HostAfter(p, s, h, t, unzip).recorded)
    && (FallsBack(p, s, t.round) ==>
          TakesPass(p, h, t, unzip) && Unpacks(t.pass.setting, unzip) && WritesSucceed(t.pass.fate))
  }

  lemma SteadyFiles(local: LocalTree)
    ensures var files := TrueFiles(local);
            AllHashed(files) && Sized(files) && PrefixFree(files.Keys) && files.Keys == Supplied(local).Keys
            && forall id :: id in files ==> ContentOf(files, id) == local[id].content
  {
    hide Scan, PrefixFree;
    TrueFilesAre(local);
    ScansAreSized(local, None);
  }

  lemma ClearIsUnblocked(local: LocalTree, m: Mirror)
    ensures Clear(local, m) <==> Unblocked(m, TrueFiles(local))
  {
    hide Blocked, TrueFiles;
    SteadyFiles(local);
  }

  lemma PassSnapshotIsTrue(p: Params, local: LocalTree, r: Round)
    requires !p.cacheFile && r.syncLocal == local
    ensures CacheIsSized(p, r) && SyncScan(p, r).files == TrueFiles(local)
  {
    hide Scan;
    SyncSettles(p, local, r);
  }

  /** The mirror after a turn is the one the loop's step leaves. */
  lemma SameMirror(p: Params, local: LocalTree, s: WatchState, h: Host, t: Turn, unzip: Unzip)
    requires !p.cacheFile && SteadyTurn(p, local, s, h, t, unzip)
    ensures HostAfter(p, s, h, t, unzip).mirror == Step(p, s, h.mirror, t.round).1
    ensures FallsBack(p, s, t.round) ==>
              && Delivered(p, h.mirror, t.round) == LogOf(h, t.pass, unzip).done
              && (SyncSucceeds(p, h.mirror, t.round) <==> t.round.syncOk)
  {
    hide AfterBatches, Scan, SentFor, NoProblems, AllClean, Indexes, Unpacks, WritesSucceed, Step, FallsBack, Delivered, SyncSucceeds, CacheIsSized;
    if FallsBack(p, s, t.round) {
      PassSnapshotIsTrue(p, local, t.round);
      PassIsRound(p, s, t.round, t.pass.setting, h, t.pass.batches, Posted(t.pass), unzip, t.pass.fate, t.round.syncOk);
    }
  }

  /** A pass that succeeds over a sound host leaves out nothing that the mirror lacks. */
  lemma TurnOmitsHeld(p: Params, local: LocalTree, s: WatchState, h: Host, t: Turn, unzip: Unzip)
    requires !p.cacheFile && SteadyTurn(p, local, s, h, t, unzip) && AllHashed(TrueFiles(local)) && HostSound(h, TrueFiles(local))
    ensures OmitsHeld(p, s, h.mirror, t.round)
  {
    hide AfterBatches, Scan, SentFor, NoProblems, AllClean, Indexes, Unpacks, WritesSucceed, HostAfter, HostSound, Step, FallsBack, Delivered, SyncSucceeds, CacheIsSized, RestHeld, Skips, TrueFiles;
    SameMirror(p, local, s, h, t, unzip);
    if FallsBack(p, s, t.round) && SyncSucceeds(p, h.mirror, t.round) {
      PassSnapshotIsTrue(p, local, t.round);
      var files := TrueFiles(local);
      CleanPassOmits(p, t.round, t.pass.setting, h, t.pass.batches, unzip, t.pass.fate, t.round.syncOk);
      forall id | id in Unasked(h, files) ensures At(h.mirror.files, id) == Some(ContentOf(files, id)) {
        SkippedIsHeld(h, files, id);
      }
    }
  }

  // ---------------------------------------------------------------- every round keeps the host sound

  /** Events read from the unchanging tree take away no file of it. */
  lemma EventsLoseNothing(local: LocalTree, baseline: Files, m: Mirror, files: Files)
    requires PrefixFree(files.Keys) && files.Keys == Supplied(local).Keys && AllHashed(TrueFiles(local))
    ensures LosesNothing(m, ApplyAll(m, PollEvents(baseline, files, Supplied(local)), {}), TrueFiles(local))
  {
    hide PollEvents, ApplyAll, EventOf, PrefixFree, Blocked, TrueFiles, Supplied;
    SteadyFiles(local);
    var m' := ApplyAll(m, PollEvents(baseline, files, Supplied(local)), {});
    forall id | id in TrueFiles(local) && !Missing(m, TrueFiles(local), id) ensures !Missing(m', TrueFiles(local), id) {
      PollEffectAt(m, baseline, files, Supplied(local), {}, id);
      SuppliedAt(local, id);
    }
  }

  lemma SuppliedAt(local: LocalTree, id: Identity)
    requires id in Supplied(local)
    ensures At(Supplied(local), id) == Some(local[id].content)
  {}

  /** A round without a pass, too. */
  lemma EventTurnLosesNothing(p: Params, local: LocalTree, s: WatchState, m: Mirror, r: Round)
    requires StaticRound(local, r) && !FallsBack(p, s, r) && AllHashed(TrueFiles(local))
    ensures LosesNothing(m, Step(p, s, m, r).1, TrueFiles(local))
  {
    hide Scan, PollEvents, ApplyAll, Missing, TrueFiles, Supplied, ShouldForceFull, Deliver, Delivered, PrefixFree;
    ScanKeys(local, Reused(s, r));
    EventsLoseNothing(local, s.baseline, m, PollScan(s, r).files);
  }

  lemma IndexStays(h: Host, h': Host, files: Files)
    requires AllHashed(files) && IndexSound(h, files) && LosesNothing(h.mirror, h'.mirror, files)
    requires Indexes(h.recorded, h'.mirror, h'.recorded)
    ensures IndexSound(h', files)
  {
    forall id | id in files && Fresh(h', files, id) ensures !Missing(h'.mirror, files, id) {
      if id in h.recorded && h'.recorded[id] == h.recorded[id] { assert Fresh(h, files, id); }
    }
  }

  lemma StagingStays(h: Host, h': Host, files: Files)
    requires AllHashed(files) && StagingSound(h, files) && LosesNothing(h.mirror, h'.mirror, files) && Unblocked(h'.mirror, files)
    requires h'.staged == h.staged
    ensures StagingSound(h', files)
  {
    hide Missing, TrueChunk, TotalChunks, Unblocked;
    forall id | id in files ensures KeptAt(h', files, id) && TrueAt(h', files, id) {
      assert KeptAt(h, files, id) && TrueAt(h, files, id);
      KeptElsewhere(h, h', files, id);
    }
  }

  lemma PassKeepsHost(p: Params, local: LocalTree, h: Host, t: Turn, unzip: Unzip)
    requires !p.cacheFile && StaticRound(local, t.round) && AllHashed(TrueFiles(local)) && StagingSound(h, TrueFiles(local))
    requires TakesPass(p, h, t, unzip) && Unpacks(t.pass.setting, unzip) && WritesSucceed(t.pass.fate)
    ensures var h' := AfterPass(Log(h, {}, {}), t.pass, unzip).host;
            StagingSound(h', TrueFiles(local)) && LosesNothing(h.mirror, h'.mirror, TrueFiles(local))
  {
    hide AfterBatches, Scan, SentFor, NoProblems, AllClean, Unpacks, WritesSucceed, StagingSound, LosesNothing, Good, TrueFiles, CacheIsSized, Sized, PrefixFree;
    var files := TrueFiles(local);
    PassSnapshotIsTrue(p, local, t.round);
    SteadyFiles(local);
    PostedIsGood(t.pass.setting, h, t.pass.batches, unzip);
    BatchesKeep(Log(h, {}, {}), t.pass.batches, Posted(t.pass), unzip, t.pass.fate, files);
    CommitKeeps(LogOf(h, t.pass, unzip).host, t.pass.commit, files);
  }

  lemma TurnKeepsHost(p: Params, local: LocalTree, s: WatchState, h: Host, t: Turn, unzip: Unzip)
    requires !p.cacheFile && SteadyTurn(p, local, s, h, t, unzip) && AllHashed(TrueFiles(local)) && HostSound(h, TrueFiles(local))
    ensures HostSound(HostAfter(p, s, h, t, unzip), TrueFiles(local))
  {
    hide AfterPass, Scan, StaticRound, TakesPass, Indexes, Unpacks, WritesSucceed, StagingSound, IndexSound, LosesNothing, Step, FallsBack, TrueFiles, Clear, Unblocked;
    var files, h' := TrueFiles(local), HostAfter(p, s, h, t, unzip);
    SameMirror(p, local, s, h, t, unzip);
    if FallsBack(p, s, t.round) {
      PassKeepsHost(p, local, h, t, unzip);
    } else {
      EventTurnLosesNothing(p, local, s, h.mirror, t.round);
      SoundIsUnblocked(h, files);
      ClearIsUnblocked(local, h.mirror);
      ClearStays(p, local, s, h.mirror, t.round);
      ClearIsUnblocked(local, h'.mirror);
      StagingStays(h, h', files);
    }
    IndexStays(h, h', files);
  }

  lemma SoundIsUnblocked(h: Host, files: Files)
    requires AllHashed(files) && StagingSound(h, files)
    ensures Unblocked(h.mirror, files)
  {}

  // ---------------------------------------------------------------- runs

  function RoundsOf(ts: seq<Turn>): (rs: Rounds)
    ensures |rs| == |ts| && forall i :: 0 <= i < |rs| ==> rs[i] == ts[i].round
  {
    seq(|ts|, i requires 0 <= i < |ts| => ts[i].round)
  }

  function RunTurns(p: Params, s: WatchState, h: Host, ts: seq<Turn>, unzip: Unzip): (WatchState, Host)
    decreases |ts|
  {
    if ts == [] then (s, h)
    else RunTurns(p, Step(p, s, h.mirror, ts[0].round).0, HostAfter(p, s, h, ts[0], unzip), ts[1..], unzip)
  }

  ghost predicate SteadyRun(p: Params, local: LocalTree, s: WatchState, h: Host, ts: seq<Turn>, unzip: Unzip)
    decreases |ts|
  {
    ts != [] ==>
      && SteadyTurn(p, local, s, h, ts[0], unzip)
      && SteadyRun(p, local, Step(p, s, h.mirror, ts[0].round).0, HostAfter(p, s, h, ts[0], unzip), ts[1..], unzip)
  }

  /**
   Over an unchanging tree, a sound host stays sound; the loop does what its own run says; and each
   of its successful passes leaves out nothing that the mirror lacks.
   */
  lemma {:induction false} SteadyRunIsStatic(p: Params, local: LocalTree, s: WatchState, h: Host, ts: seq<Turn>, unzip: Unzip)
    requires !p.cacheFile && SteadyRun(p, local, s, h, ts, unzip) && AllHashed(TrueFiles(local)) && HostSound(h, TrueFiles(local))
    ensures StaticRun(p, local, s, h.mirror, RoundsOf(ts))
    ensures var (s', h') := RunTurns(p, s, h, ts, unzip);
            HostSound(h', TrueFiles(local)) && Run(p, s, h.mirror, RoundsOf(ts)) == (s', h'.mirror)
    decreases |ts|
  {
    hide Step, HostAfter, SteadyTurn, HostSound, StaticRound, OmitsHeld, TrueFiles;
    if ts != [] {
      var h' := HostAfter(p, s, h, ts[0], unzip);
      var s' := Step(p, s, h.mirror, ts[0].round).0;
      SameMirror(p, local, s, h, ts[0], unzip);
      TurnOmitsHeld(p, local, s, h, ts[0], unzip);
      TurnKeepsHost(p, local, s, h, ts[0], unzip);
      SteadyIsStatic(p, local, s, h, ts[0], unzip);
      SteadyRunIsStatic(p, local, s', h', ts[1..], unzip);
      assert RoundsOf(ts)[1..] == RoundsOf(ts[1..]);
    }
  }

  lemma SteadyIsStatic(p: Params, local: LocalTree, s: WatchState, h: Host, t: Turn, unzip: Unzip)
    requires SteadyTurn(p, local, s, h, t, unzip)
    ensures StaticRound(local, t.round)
  {}

  /**
   Convergence with the host's side spelled out: start in step, with nothing in the files' way, chunks
   of this snapshot staged only as they are and completely only if the mirror has the file, and an
   index that records no hash of it that the mirror lacks. Once the tree stops changing, any run with
   61 successful rounds leaves the mirror with every file of the tree, whatever failed in between but
   the host's own writes; and with nothing else if no file was waiting to be removed.
   */
  lemma SteadyRunConverges(p: Params, local: LocalTree, s: WatchState, h: Host, ts: seq<Turn>, unzip: Unzip)
    requires !p.cacheFile && InStep(s.baseline, h.mirror)
    requires AllHashed(TrueFiles(local)) && HostSound(h, TrueFiles(local))
    requires SteadyRun(p, local, s, h, ts, unzip)
    requires Successes(p, s, h.mirror, RoundsOf(ts)) > FULL_SCAN_EVERY_POLLS
    ensures var (s', h') := RunTurns(p, s, h, ts, unzip);
            Holds(local, h'.mirror) && (Leftovers(local, h.mirror) == {} ==> h'.mirror.files == Supplied(local))
  {
    hide Run, RunTurns, Successes, SteadyRun, StaticRun, InStep, StagingSound, IndexSound, TrueFiles, Clear, Unblocked, Holds, Leftovers;
    SoundIsUnblocked(h, TrueFiles(local));
    ClearIsUnblocked(local, h.mirror);
    SteadyRunIsStatic(p, local, s, h, ts, unzip);
    Converges(p, local, s, h.mirror, RoundsOf(ts));
  }
}
