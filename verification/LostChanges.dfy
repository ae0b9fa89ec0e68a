/**
 Changes that the gateway's poll loop loses, and when it sends them again
 (crates/app/cce-gateway/src/watch.rs).
 */
module LostChanges {
  import opened Text
  import opened Mirror
  import opened Supply
  import opened Watch

  function TrueFiles(local: LocalTree): Files { Scan(local, None).files }

  /** Whether the poll's scan tells the truth about its tree. */
  predicate ScansTruly(local: LocalTree, s: WatchState, r: Round)
  {
    ShouldForceFull(s.pollsSinceFull, s.lastFullScan, r.now) || EntriesTrue(local, s.previousEntries)
  }

  lemma PollScanTrue(local: LocalTree, s: WatchState, r: Round)
    requires r.local == local && ScansTruly(local, s, r)
    ensures PollScan(s, r).files == TrueFiles(local) && EntriesTrue(local, PollScan(s, r).entries)
  {
    hide Scan;
    TrueScan(local, Reused(s, r));
  }

  lemma TrueFilesAre(local: LocalTree)
    ensures TrueFiles(local).Keys == Supplied(local).Keys && PrefixFree(TrueFiles(local).Keys) && AllHashed(TrueFiles(local))
    ensures forall id :: id in TrueFiles(local) ==> TrueFiles(local)[id].contentHash == Some(Digest(Supplied(local)[id]))
  {
    ScanKeys(local, None);
    ScansAreHashed(local, None);
  }

  // ---------------------------------------------------------------- lost for good

  /** A truthful baseline asks for nothing. */
  lemma TrueBaselineIsQuiet(local: LocalTree, disk: map<Identity, Content>)
    ensures PollEvents(TrueFiles(local), TrueFiles(local), disk) == []
  {
    hide Scan, PollEvents;
    var files := TrueFiles(local);
    forall id | id in files && NeedsEvent(files, files, id) ensures false { MatchIffSameKey(files[id], files[id]); }
    NoEventsIff(files, files, disk);
  }

  lemma QuietStep(p: Params, local: LocalTree, s: WatchState, m: Mirror, r: Round)
    requires r.local == local && s.baseline == TrueFiles(local) && EntriesTrue(local, s.previousEntries)
    ensures var (s', m') := Step(p, s, m, r);
            s'.baseline == s.baseline && EntriesTrue(local, s'.previousEntries) && m' == m
  {
    hide Scan, PollEvents, EntriesTrue, Deliver, Delivered, SyncSucceeds;
    PollScanTrue(local, s, r);
    TrueBaselineIsQuiet(local, r.disk);
  }

  /**
   A lost change stays lost: once the baseline tells the truth, no later round over the
   unchanged tree, full rescans included, touches the mirror, whatever it lacks.
   */
  lemma {:induction false} LostStaysLost(p: Params, local: LocalTree, s: WatchState, m: Mirror, rs: Rounds)
    requires s.baseline == TrueFiles(local) && EntriesTrue(local, s.previousEntries)
    requires forall i :: 0 <= i < |rs| ==> rs[i].local == local
    ensures Run(p, s, m, rs).1 == m
    decreases |rs|
  {
    hide Step, EntriesTrue, TrueFiles;
    if rs != [] {
      QuietStep(p, local, s, m, rs[0]);
      var s', m' := Step(p, s, m, rs[0]).0, Step(p, s, m, rs[0]).1;
      LostStaysLost(p, local, s', m', rs[1..]);
    }
  }

  lemma RunCons(p: Params, s: WatchState, m: Mirror, r: Round, rs: Rounds)
    ensures Run(p, s, m, [r] + rs) == Run(p, Step(p, s, m, r).0, Step(p, s, m, r).1, rs)
  {
    assert ([r] + rs)[1..] == rs;
  }

  lemma RunNone(p: Params, s: WatchState, m: Mirror)
    ensures Run(p, s, m, []) == (s, m)
  {}

  /** Round by round, one file is scanned with the same fingerprint, and no pass delivers it. */
  ghost predicate FileStays(p: Params, s: WatchState, m: Mirror, rs: Rounds, id: Identity, key: Key)
    decreases |rs|
  {
    rs != [] ==>
      var r, files, pass := rs[0], PollScan(s, rs[0]).files, SyncScan(p, rs[0]).files;
      && (r.scanOk ==> id in files && KeyOf(files[id]) == key)
      && (FallsBack(p, s, r) ==> id in pass && KeyOf(pass[id]) == key && id !in Delivered(p, m, r))
      && FileStays(p, Step(p, s, m, r).0, Step(p, s, m, r).1, rs[1..], id, key)
  }

  lemma FileUntouched(p: Params, s: WatchState, m: Mirror, r: Round, id: Identity, key: Key)
    requires id in s.baseline && KeyOf(s.baseline[id]) == key && FileStays(p, s, m, [r], id, key)
    ensures var (s', m') := Step(p, s, m, r);
            id in s'.baseline && KeyOf(s'.baseline[id]) == key && At(m'.files, id) == At(m.files, id)
  {
    hide Scan, PollEvents, ApplyAll, SyncSucceeds, Delivered, FingerprintsMatch, PrefixFree, KeyOf, Blocked, Deliver;
    if r.scanOk {
      var files := PollScan(s, r).files;
      MatchIffSameKey(s.baseline[id], files[id]);
      ScanKeys(r.local, Reused(s, r));
      ScansAreHashed(r.syncLocal, Reusable(p, r));
      DeliverAt(m, SyncScan(p, r).files, Delivered(p, m, r), id);
      if r.push.Applied? { PollEffectAt(m, s.baseline, files, r.disk, r.push.faulty, id); }
    }
  }

  /**
   While a file is scanned with the fingerprint that the baseline has, no poll touches it on the
   mirror, whatever happens to other files: a dropped, failed or blocked change is not sent again.
   */
  lemma {:induction false} UntouchedWhileUnchanged(p: Params, s: WatchState, m: Mirror, rs: Rounds, id: Identity, key: Key)
    requires id in s.baseline && KeyOf(s.baseline[id]) == key && FileStays(p, s, m, rs, id, key)
    ensures At(Run(p, s, m, rs).1.files, id) == At(m.files, id)
    decreases |rs|
  {
    hide Step, KeyOf, PollScan, SyncScan, EventsIn, Delivered;
    if rs != [] {
      assert FileStays(p, s, m, [rs[0]], id, key);
      FileUntouched(p, s, m, rs[0], id, key);
      UntouchedWhileUnchanged(p, Step(p, s, m, rs[0]).0, Step(p, s, m, rs[0]).1, rs[1..], id, key);
    }
  }

  // ---------------------------------------------------------------- when a dropped change is sent again

  /** A round that advances the baseline through its events. */
  predicate EventRound(p: Params, s: WatchState, r: Round)
  {
    r.scanOk && |EventsIn(s, r)| <= p.fullSyncThreshold && (EventsIn(s, r) == [] || r.push.Applied?)
  }

  function FaultsOf(r: Round): set<Identity> { if r.push.Applied? then r.push.faulty else {} }

  lemma EventRoundEffect(p: Params, s: WatchState, m: Mirror, r: Round)
    requires EventRound(p, s, r)
    ensures Step(p, s, m, r).0.baseline == PollScan(s, r).files
    ensures Step(p, s, m, r).1 == ApplyAll(m, EventsIn(s, r), FaultsOf(r))
  {
    hide Scan, PollEvents;
  }

  /**
   Two polls that scan truly, the first of which drops the event of a file although it needs one:
   the second repairs the file exactly when its content has changed since the first one's scan.
   */
  lemma RetriedIff(p: Params, s: WatchState, m: Mirror, r: Round, r2: Round, id: Identity)
    requires EventRound(p, s, r) && ScansTruly(r.local, s, r)
    requires NeedsEvent(s.baseline, TrueFiles(r.local), id) && EventOf(s.baseline, TrueFiles(r.local), r.disk, id).None?
    requires var (s1, m1) := Step(p, s, m, r);
             && EventRound(p, s1, r2) && ScansTruly(r2.local, s1, r2)
             && (id in Supplied(r2.local) ==> !Blocked(m1, id))
    requires r2.disk == Supplied(r2.local) && id !in FaultsOf(r2)
    ensures var (s1, m1) := Step(p, s, m, r);
            var first, second := At(Supplied(r.local), id), At(Supplied(r2.local), id);
            At(Step(p, s1, m1, r2).1.files, id) == if first == second then At(m.files, id) else second
  {
    hide Scan, PollEvents, ApplyAll, Step, Blocked, EntriesTrue, Supplied, TrueFiles, ScansTruly, PrefixFree, EventRound;
    var s1, m1 := Step(p, s, m, r).0, Step(p, s, m, r).1;
    PollScanTrue(r.local, s, r);
    PollScanTrue(r2.local, s1, r2);
    EventRoundEffect(p, s, m, r);
    EventRoundEffect(p, s1, m1, r2);
    var files, files2 := TrueFiles(r.local), TrueFiles(r2.local);
    TrueFilesAre(r.local);
    TrueFilesAre(r2.local);
    PollEffectAt(m, s.baseline, files, r.disk, FaultsOf(r), id);
    PollEffectAt(m1, files, files2, r2.disk, FaultsOf(r2), id);
    DroppedIsCurrent(s.baseline, files, r.disk, id);
    NeededIffChanged(files, files2, Supplied(r2.local), id);
    if id in files2 && NeedsEvent(files, files2, id) { TrueReadPasses(files, files2, Supplied(r2.local), id, r2.local); }
  }

  lemma DroppedIsCurrent(baseline: Files, files: Files, disk: map<Identity, Content>, id: Identity)
    requires NeedsEvent(baseline, files, id) && EventOf(baseline, files, disk, id).None?
    ensures id in files
  {}

  lemma NeededIffChanged(files: Files, files2: Files, disk: map<Identity, Content>, id: Identity)
    requires id in files && AllHashed(files) && AllHashed(files2)
    ensures NeedsEvent(files, files2, id) <==> !(id in files2 && files[id].contentHash == files2[id].contentHash)
    ensures id !in files2 ==> EventOf(files, files2, disk, id) == Some(Event(id, Deleted, None, None))
    ensures !NeedsEvent(files, files2, id) ==> EventOf(files, files2, disk, id).None?
  {}

  lemma TrueReadPasses(baseline: Files, files: Files, disk: map<Identity, Content>, id: Identity, local: LocalTree)
    requires files == TrueFiles(local) && disk == Supplied(local) && id in files && NeedsEvent(baseline, files, id)
    ensures EventOf(baseline, files, disk, id).Some?
  {}

  // ---------------------------------------------------------------- a read that drifts

  const ORIGINAL: LocalTree := OneFile([1], 0)
  const DRIFTED: LocalTree := OneFile([2, 2], 1)

  function OneFile(bytes: Content, modified: int): LocalTree
  {
    FlatIsPrefixFree({"f"});
    var tree := map["f" := LocalFile(bytes, modified)];
    assert tree.Keys == {"f"};
    tree
  }

  /** The poll scans the original tree, but the read already gives the drifted file. */
  function Drifting(): Round
  {
    Round(0, ORIGINAL, true, Supplied(DRIFTED), Applied({}), 0, ORIGINAL, None, {}, true, 0)
  }

  const FRESH: WatchState := WatchState(map[], map[], 0, 0)

  lemma DriftEvent(id: Identity)
    ensures EventOf(map[], TrueFiles(ORIGINAL), Supplied(DRIFTED), id).None?
  {
    hide Scan, TrueFiles;
    TrueFilesAre(ORIGINAL);
    assert Supplied(ORIGINAL).Keys == {"f"} && Supplied(DRIFTED)["f"] == [2, 2] && Supplied(ORIGINAL)["f"] == [1];
    assert [1][0] != [2, 2][0];
    if id in TrueFiles(ORIGINAL) { assert id == "f"; }
  }

  lemma DriftIsDropped()
    ensures ScansTruly(ORIGINAL, FRESH, Drifting()) && NeedsEvent(map[], TrueFiles(ORIGINAL), "f")
    ensures EventOf(map[], TrueFiles(ORIGINAL), Supplied(DRIFTED), "f").None?
    ensures EventsIn(FRESH, Drifting()) == []
  {
    hide PollEvents;
    PollScanTrue(ORIGINAL, FRESH, Drifting());
    TrueFilesAre(ORIGINAL);
    assert "f" in Supplied(ORIGINAL);
    DriftEvent("f");
    PollEventsExact(map[], TrueFiles(ORIGINAL), Supplied(DRIFTED));
    var es := EventsIn(FRESH, Drifting());
    if es != [] {
      DriftEvent(es[0].relativePath);
      assert false;
    }
  }

  /** A drifted read is dropped, and the file goes back to what was scanned: no later poll sends it. */
  lemma DriftAndBackStaysLost(p: Params, rs: Rounds)
    requires forall i :: 0 <= i < |rs| ==> rs[i].local == ORIGINAL
    ensures Run(p, FRESH, EMPTY, [Drifting()] + rs).1.files == map[] != Supplied(ORIGINAL)
  {
    hide Scan, PollEvents, Run, EntriesTrue, TrueFiles;
    DriftIsDropped();
    PollScanTrue(ORIGINAL, FRESH, Drifting());
    var s', m' := Step(p, FRESH, EMPTY, Drifting()).0, Step(p, FRESH, EMPTY, Drifting()).1;
    RunCons(p, FRESH, EMPTY, Drifting(), rs);
    LostStaysLost(p, ORIGINAL, s', m', rs);
    assert "f" in Supplied(ORIGINAL);
  }

  /** Where the drift stays, the next poll sends it, as the source promises. */
  lemma DriftIsSentNext(p: Params, r2: Round)
    requires var s1 := Step(p, FRESH, EMPTY, Drifting()).0; EventRound(p, s1, r2) && ScansTruly(DRIFTED, s1, r2)
    requires r2.local == DRIFTED && r2.disk == Supplied(DRIFTED) && "f" !in FaultsOf(r2)
    ensures At(Run(p, FRESH, EMPTY, [Drifting(), r2]).1.files, "f") == Some([2, 2])
  {
    hide Scan, PollEvents, ApplyAll, EntriesTrue, TrueFiles, Run;
    DriftIsDropped();
    PollScanTrue(ORIGINAL, FRESH, Drifting());
    EventRoundEffect(p, FRESH, EMPTY, Drifting());
    var s1, m1 := Step(p, FRESH, EMPTY, Drifting()).0, Step(p, FRESH, EMPTY, Drifting()).1;
    PollEventsExact(map[], TrueFiles(ORIGINAL), Supplied(DRIFTED));
    assert At(Supplied(ORIGINAL), "f") == Some([1]) && At(Supplied(DRIFTED), "f") == Some([2, 2]) && [1][0] != [2, 2][0];
    assert m1 == EMPTY && !Blocked(EMPTY, "f");
    RetriedIff(p, FRESH, EMPTY, Drifting(), r2, "f");
    assert [Drifting(), r2] == [Drifting()] + [r2] && [r2] == [r2] + [];
    RunCons(p, FRESH, EMPTY, Drifting(), [r2]);
    RunCons(p, s1, m1, r2, []);
    RunNone(p, Step(p, s1, m1, r2).0, Step(p, s1, m1, r2).1);
  }

  // ---------------------------------------------------------------- full passes

  /** A full pass that removes nothing: a file it should remove is on the mirror for good. */
  lemma FallbackForgetsRemovals(p: Params, local: LocalTree, s: WatchState, m: Mirror, r: Round, rs: Rounds, id: Identity)
    requires !p.cacheFile && FallsBack(p, s, r) && SyncSucceeds(p, m, r) && r.syncLocal == local
    requires id in m.files && id !in Supplied(local)
    requires forall i :: 0 <= i < |rs| ==> rs[i].local == local
    ensures At(Run(p, s, m, [r] + rs).1.files, id) == At(m.files, id)
  {
    hide PollEvents, Run, EventsIn, EntriesTrue, Supplied, SyncSucceeds, Delivered, Scan, Deliver;
    ScansAreHashed(local, None);
    ScanKeys(local, None);
    TrueScan(local, None);
    DeliverAt(m, TrueFiles(local), Delivered(p, m, r), id);
    var s', m' := Step(p, s, m, r).0, Step(p, s, m, r).1;
    assert s'.baseline == TrueFiles(local) && EntriesTrue(local, s'.previousEntries);
    RunCons(p, s, m, r, rs);
    LostStaysLost(p, local, s', m', rs);
  }

  /**
   A full pass that fails after delivering a file: if the tree goes back to what the baseline
   describes, no later poll takes the delivered content back.
   */
  lemma FailedPassStays(p: Params, local: LocalTree, s: WatchState, m: Mirror, r: Round, rs: Rounds, id: Identity)
    requires FallsBack(p, s, r) && !SyncSucceeds(p, m, r) && id in Delivered(p, m, r)
    requires s.baseline == TrueFiles(local) && EntriesTrue(local, PollScan(s, r).entries)
    requires forall i :: 0 <= i < |rs| ==> rs[i].local == local
    ensures AllHashed(SyncScan(p, r).files) && id in SyncScan(p, r).files
    ensures At(Run(p, s, m, [r] + rs).1.files, id) == Some(ContentOf(SyncScan(p, r).files, id))
  {
    hide PollEvents, Run, EventsIn, EntriesTrue, SyncSucceeds, Scan, Deliver;
    ScansAreHashed(r.syncLocal, Reusable(p, r));
    DeliverAt(m, SyncScan(p, r).files, Delivered(p, m, r), id);
    var s', m' := Step(p, s, m, r).0, Step(p, s, m, r).1;
    RunCons(p, s, m, r, rs);
    LostStaysLost(p, local, s', m', rs);
  }
}
