/**
 The gateway's poll loop (crates/app/cce-gateway/src/watch.rs), with the remote mirror its
 events are applied to (crates/app/cce-server/src/api/handlers/ingest/event.rs).
 */
module Watch {
  import opened Text
  import opened Ordering
  import opened Clock
  import opened Mirror
  import opened Supply

  // ---------------------------------------------------------------- events

  datatype EventKind = Created | Modified | Deleted

  datatype Event = Event(relativePath: Identity, kind: EventKind, contentHash: Option<Digest>, content: Option<Content>)

  /** `read_event`; `disk` holds the files that can be read, with the bytes they give. */
  function ReadEvent(files: Files, id: Identity, kind: EventKind, disk: map<Identity, Content>): Option<Event>
    requires id in files
  {
    if id !in disk then None
    else if |disk[id]| > MAX_INGEST_FILE_BYTES then None
    else if files[id].contentHash.Some? && Digest(disk[id]) != files[id].contentHash.value then None
    else Some(Event(id, kind, files[id].contentHash, Some(disk[id])))
  }

  /** The event of one identity, if it needs one and the read does not drop it. */
  function EventOf(baseline: Files, files: Files, disk: map<Identity, Content>, id: Identity): Option<Event>
  {
    if id in files then
      if id !in baseline then ReadEvent(files, id, Created, disk)
      else if !FingerprintsMatch(baseline[id], files[id]) then ReadEvent(files, id, Modified, disk)
      else None
    else if id in baseline then Some(Event(id, Deleted, None, None))
    else None
  }

  predicate NeedsEvent(baseline: Files, files: Files, id: Identity)
  {
    if id in files then id !in baseline || !FingerprintsMatch(baseline[id], files[id]) else id in baseline
  }

  /** The events of a list of identities, in its order. */
  function EventsOf(baseline: Files, files: Files, disk: map<Identity, Content>, ids: seq<Identity>): seq<Event>
  {
    if ids == [] then []
    else
      var e := EventOf(baseline, files, disk, ids[0]);
      AsSeq(e) + EventsOf(baseline, files, disk, ids[1..])
  }

  lemma EventsOfNone(baseline: Files, files: Files, disk: map<Identity, Content>)
    ensures EventsOf(baseline, files, disk, []) == []
  {}

  lemma {:induction false} EventsOfAppend(baseline: Files, files: Files, disk: map<Identity, Content>, a: seq<Identity>, b: seq<Identity>)
    ensures EventsOf(baseline, files, disk, a + b) == EventsOf(baseline, files, disk, a) + EventsOf(baseline, files, disk, b)
  {
    hide EventOf;
    if a == [] {
      assert a + b == b;
    } else {
      assert (a + b)[1..] == a[1..] + b;
      EventsOfAppend(baseline, files, disk, a[1..], b);
    }
  }

  function AsSeq(e: Option<Event>): seq<Event> { if e.Some? then [e.value] else [] }

  lemma EventsOfNext(baseline: Files, files: Files, disk: map<Identity, Content>, ids: seq<Identity>, i: nat)
    requires i < |ids|
    ensures EventsOf(baseline, files, disk, ids[..i + 1])
            == EventsOf(baseline, files, disk, ids[..i]) + AsSeq(EventOf(baseline, files, disk, ids[i]))
  {
    assert ids[..i + 1] == ids[..i] + [ids[i]];
    EventsOfAppend(baseline, files, disk, ids[..i], [ids[i]]);
    assert [ids[i]][1..] == [];
  }

  /** The poll's events: the current files in order, then the baseline files that are gone. */
  function PollEvents(baseline: Files, files: Files, disk: map<Identity, Content>): seq<Event>
  {
    EventsOf(baseline, files, disk, SortedKeys(files.Keys) + SortedKeys(baseline.Keys - files.Keys))
  }

  predicate DistinctPaths(es: seq<Event>) { forall i, j :: 0 <= i < j < |es| ==> es[i].relativePath != es[j].relativePath }

  lemma EventHasPath(baseline: Files, files: Files, disk: map<Identity, Content>, id: Identity)
    ensures EventOf(baseline, files, disk, id).Some? ==> EventOf(baseline, files, disk, id).value.relativePath == id
  {}

  lemma {:induction false} EventsOfEach(baseline: Files, files: Files, disk: map<Identity, Content>, ids: seq<Identity>)
    requires Distinct(ids)
    ensures var es := EventsOf(baseline, files, disk, ids);
            && DistinctPaths(es)
            && (forall k :: 0 <= k < |es| ==> es[k].relativePath in ids && EventOf(baseline, files, disk, es[k].relativePath) == Some(es[k]))
            && (forall id :: id in ids && EventOf(baseline, files, disk, id).Some? ==> EventOf(baseline, files, disk, id).value in es)
  {
    if ids != [] {
      hide EventOf;
      EventHasPath(baseline, files, disk, ids[0]);
      EventsOfEach(baseline, files, disk, ids[1..]);
      var rest := EventsOf(baseline, files, disk, ids[1..]);
      forall k | 0 <= k < |rest| ensures rest[k].relativePath != ids[0] { assert rest[k].relativePath in ids[1..]; }
    }
  }

  /** Every identity has at most one event, and exactly the events `EventOf` says. */
  lemma PollEventsExact(baseline: Files, files: Files, disk: map<Identity, Content>)
    ensures var es := PollEvents(baseline, files, disk);
            && DistinctPaths(es)
            && (forall k :: 0 <= k < |es| ==> EventOf(baseline, files, disk, es[k].relativePath) == Some(es[k]))
            && (forall id :: EventOf(baseline, files, disk, id).Some? ==> EventOf(baseline, files, disk, id).value in es)
  {
    var a, b := SortedKeys(files.Keys), SortedKeys(baseline.Keys - files.Keys);
    var ids := a + b;
    forall i, j | 0 <= i < j < |ids| ensures ids[i] != ids[j] {
      assert ids[i] in (if i < |a| then a else b) && ids[j] in (if j < |a| then a else b);
    }
    EventsOfEach(baseline, files, disk, ids);
    forall id | EventOf(baseline, files, disk, id).Some? ensures id in ids {
      assert id in a || id in b;
    }
  }

  /** What the kind of an event says. */
  lemma EventKindIff(baseline: Files, files: Files, disk: map<Identity, Content>, k: nat)
    requires k < |PollEvents(baseline, files, disk)|
    ensures var e := PollEvents(baseline, files, disk)[k];
            var id := e.relativePath;
            && (e.kind.Created? <==> id in files && id !in baseline)
            && (e.kind.Modified? <==> id in files && id in baseline)
            && (e.kind.Deleted? <==> id in baseline && id !in files)
            && (e.kind.Deleted? <==> e.content.None?)
  {
    hide PollEvents;
    PollEventsExact(baseline, files, disk);
  }

  // ---------------------------------------------------------------- the server

  /** The content an event brings, if it is one that the server verifies. */
  function Written(e: Event): Option<Content>
  {
    if e.kind.Deleted? || e.content.None? || |e.content.value| > MAX_INGEST_FILE_BYTES
       || (e.contentHash.Some? && Digest(e.content.value) != e.contentHash.value)
    then None
    else e.content
  }

  /** One event on the server; `faulty` are the paths at which the disk fails. */
  function ApplyEvent(m: Mirror, e: Event, faulty: set<Identity>): Mirror
  {
    if e.relativePath in faulty then m
    else if e.kind.Deleted? then Remove(m, e.relativePath)
    else if Written(e).None? || Blocked(m, e.relativePath) then m
    else Write(m, e.relativePath, Written(e).value)
  }

  function ApplyAll(m: Mirror, es: seq<Event>, faulty: set<Identity>): Mirror
    decreases |es|
  {
    if es == [] then m else ApplyAll(ApplyEvent(m, es[0], faulty), es[1..], faulty)
  }

  lemma {:induction false} ApplyAllAppend(m: Mirror, a: seq<Event>, b: seq<Event>, faulty: set<Identity>)
    ensures ApplyAll(m, a + b, faulty) == ApplyAll(ApplyAll(m, a, faulty), b, faulty)
    decreases |a|
  {
    hide ApplyEvent;
    if a == [] {
      assert a + b == b;
    } else {
      assert (a + b)[1..] == a[1..] + b;
      ApplyAllAppend(ApplyEvent(m, a[0], faulty), a[1..], b, faulty);
    }
  }

  lemma {:induction false} Untouched(m: Mirror, es: seq<Event>, faulty: set<Identity>, id: Identity)
    requires forall k :: 0 <= k < |es| ==> es[k].relativePath != id
    ensures At(ApplyAll(m, es, faulty).files, id) == At(m.files, id)
    decreases |es|
  {
    hide Written, Blocked;
    if es != [] { Untouched(ApplyEvent(m, es[0], faulty), es[1..], faulty, id); }
  }

  /** With distinct paths, what stands at a path is the effect of its own event at its turn. */
  lemma ApplyAllAt(m: Mirror, es: seq<Event>, faulty: set<Identity>, k: nat)
    requires DistinctPaths(es) && k < |es|
    ensures var id, before := es[k].relativePath, ApplyAll(m, es[..k], faulty);
            && At(before.files, id) == At(m.files, id)
            && At(ApplyAll(m, es, faulty).files, id) == At(ApplyEvent(before, es[k], faulty).files, id)
  {
    hide ApplyEvent;
    var before := ApplyAll(m, es[..k], faulty);
    assert es == es[..k] + ([es[k]] + es[k + 1..]);
    ApplyAllAppend(m, es[..k], [es[k]] + es[k + 1..], faulty);
    assert ([es[k]] + es[k + 1..])[1..] == es[k + 1..];
    Untouched(m, es[..k], faulty, es[k].relativePath);
    Untouched(ApplyEvent(before, es[k], faulty), es[k + 1..], faulty, es[k].relativePath);
  }

  /** Writes among prefix-free paths do not get in each other's way. */
  lemma {:induction false} WritesKeepBlocked(m: Mirror, es: seq<Event>, faulty: set<Identity>, ids: set<Identity>, x: Identity)
    requires PrefixFree(ids) && x in ids
    requires forall k :: 0 <= k < |es| ==> es[k].relativePath in ids && !es[k].kind.Deleted?
    ensures Blocked(ApplyAll(m, es, faulty), x) <==> Blocked(m, x)
    decreases |es|
  {
    hide Written, Blocked, PrefixFree, Write;
    if es != [] {
      var m' := ApplyEvent(m, es[0], faulty);
      if Written(es[0]).Some? { WriteKeepsBlocked(m, es[0].relativePath, Written(es[0]).value, ids, x); }
      assert Blocked(m', x) <==> Blocked(m, x);
      WritesKeepBlocked(m', es[1..], faulty, ids, x);
    }
  }

  /** Whatever is removed, writes among prefix-free paths block none of them. */
  lemma {:induction false} EventsBlockNone(m: Mirror, es: seq<Event>, faulty: set<Identity>, ids: set<Identity>, x: Identity)
    requires PrefixFree(ids) && x in ids
    requires forall k :: 0 <= k < |es| ==> es[k].relativePath in ids || es[k].kind.Deleted?
    ensures Blocked(ApplyAll(m, es, faulty), x) ==> Blocked(m, x)
    decreases |es|
  {
    hide Written, PrefixFree, Write;
    if es != [] {
      var m' := ApplyEvent(m, es[0], faulty);
      if !es[0].kind.Deleted? && Written(es[0]).Some? { WriteKeepsBlocked(m, es[0].relativePath, Written(es[0]).value, ids, x); }
      EventsBlockNone(m', es[1..], faulty, ids, x);
    }
  }

  lemma EventShape(baseline: Files, files: Files, disk: map<Identity, Content>, id: Identity)
    requires EventOf(baseline, files, disk, id).Some?
    ensures var e := EventOf(baseline, files, disk, id).value;
            && e.relativePath == id
            && (e.kind.Deleted? <==> id !in files)
            && (id in files ==> id in disk && Written(e) == Some(disk[id]))
  {}

  /** What a poll sends of a current file: its bytes as they are read, under the snapshot's hash of the path. */
  lemma SentUnderHash(baseline: Files, files: Files, disk: map<Identity, Content>, k: nat)
    requires k < |PollEvents(baseline, files, disk)| && !PollEvents(baseline, files, disk)[k].kind.Deleted?
    ensures var e := PollEvents(baseline, files, disk)[k];
            && e.relativePath in files && e.relativePath in disk
            && e.contentHash == files[e.relativePath].contentHash && e.content == Some(disk[e.relativePath])
            && |disk[e.relativePath]| <= MAX_INGEST_FILE_BYTES
            && (e.contentHash.Some? ==> e.contentHash == Some(Digest(disk[e.relativePath])))
  {
    hide PollEvents;
    PollEventsExact(baseline, files, disk);
  }

  /** What the hash is for: other bytes under it change nothing on the server, which would write the right ones. */
  lemma DamageIsRefused(baseline: Files, files: Files, disk: map<Identity, Content>, k: nat, m: Mirror, faulty: set<Identity>, damaged: Content)
    requires AllHashed(files) && k < |PollEvents(baseline, files, disk)| && !PollEvents(baseline, files, disk)[k].kind.Deleted?
    ensures var e := PollEvents(baseline, files, disk)[k];
            var id := e.relativePath;
            && (e.content != Some(damaged) ==> ApplyEvent(m, e.(content := Some(damaged)), faulty) == m)
            && ApplyEvent(m, e.(content := None), faulty) == m
            && (id in disk && id !in faulty && !Blocked(m, id) ==> ApplyEvent(m, e, faulty) == Write(m, id, disk[id]))
  {
    hide PollEvents, Blocked, Write;
    SentUnderHash(baseline, files, disk, k);
  }

  /** Whatever an event says, the server writes no file over the bound, and none under a hash that is not its own. */
  lemma EventWritesVerified(m: Mirror, e: Event, faulty: set<Identity>, id: Identity)
    ensures var after := At(ApplyEvent(m, e, faulty).files, id);
            after != At(m.files, id) && after.Some? ==>
              && id == e.relativePath && !e.kind.Deleted? && e.content == after
              && |after.value| <= MAX_INGEST_FILE_BYTES && (e.contentHash.Some? ==> e.contentHash == Some(Digest(after.value)))
  {
    hide Blocked;
  }

  /** The event of a current file stands before all deletions. */
  lemma WriteEventsFirst(baseline: Files, files: Files, disk: map<Identity, Content>, k: nat)
    requires k < |PollEvents(baseline, files, disk)| && PollEvents(baseline, files, disk)[k].relativePath in files
    ensures forall j :: 0 <= j <= k ==>
              PollEvents(baseline, files, disk)[j].relativePath in files && !PollEvents(baseline, files, disk)[j].kind.Deleted?
  {
    hide SortedKeys, EventOf;
    var a, b := SortedKeys(files.Keys), SortedKeys(baseline.Keys - files.Keys);
    EventsOfAppend(baseline, files, disk, a, b);
    var writes := EventsOf(baseline, files, disk, a);
    EventsOfEach(baseline, files, disk, a);
    EventsOfEach(baseline, files, disk, b);
    forall j | 0 <= j <= k
      ensures PollEvents(baseline, files, disk)[j].relativePath in files && !PollEvents(baseline, files, disk)[j].kind.Deleted?
    {
      assert j < |writes|;
      EventShape(baseline, files, disk, writes[j].relativePath);
    }
  }

  /** The effect of a poll's events on one identity: blocked writes are those blocked from the start. */
  lemma PollEffectAt(m: Mirror, baseline: Files, files: Files, disk: map<Identity, Content>, faulty: set<Identity>, id: Identity)
    requires PrefixFree(files.Keys)
    ensures At(ApplyAll(m, PollEvents(baseline, files, disk), faulty).files, id)
            == if EventOf(baseline, files, disk, id).None? || id in faulty then At(m.files, id)
               else if id !in files then None
               else if Blocked(m, id) then At(m.files, id)
               else At(disk, id)
  {
    hide PollEvents, ApplyAll, EventOf, Blocked, Written, PrefixFree;
    var es := PollEvents(baseline, files, disk);
    PollEventsExact(baseline, files, disk);
    var e := EventOf(baseline, files, disk, id);
    if e.Some? {
      EventShape(baseline, files, disk, id);
      var k :| 0 <= k < |es| && es[k] == e.value;
      ApplyAllAt(m, es, faulty, k);
      if id in files {
        WriteEventsFirst(baseline, files, disk, k);
        WritesKeepBlocked(m, es[..k], faulty, files.Keys, id);
      }
    } else {
      forall k | 0 <= k < |es| ensures es[k].relativePath != id {
        assert EventOf(baseline, files, disk, es[k].relativePath) == Some(es[k]);
      }
      Untouched(m, es, faulty, id);
    }
  }

  /** Reads that every needed event passes. */
  predicate ReadsVerify(baseline: Files, files: Files, disk: map<Identity, Content>)
  {
    forall id :: id in files && NeedsEvent(baseline, files, id) ==> EventOf(baseline, files, disk, id).Some?
  }

  /** Under verified reads the list is empty exactly when baseline and current match. */
  lemma NoEventsIff(baseline: Files, files: Files, disk: map<Identity, Content>)
    requires ReadsVerify(baseline, files, disk)
    ensures PollEvents(baseline, files, disk) == [] <==>
            baseline.Keys == files.Keys && forall id :: id in files ==> FingerprintsMatch(baseline[id], files[id])
  {
    hide PollEvents, EventOf, FingerprintsMatch;
    var es := PollEvents(baseline, files, disk);
    PollEventsExact(baseline, files, disk);
    if es == [] {
      forall id ensures !NeedsEvent(baseline, files, id) {
        assert EventOf(baseline, files, disk, id).None?;
        if id !in files && id in baseline { GoneEvent(baseline, files, disk, id); }
      }
      forall id ensures id in baseline <==> id in files { assert !NeedsEvent(baseline, files, id); }
      forall id | id in files ensures FingerprintsMatch(baseline[id], files[id]) { assert !NeedsEvent(baseline, files, id); }
    } else {
      var id := es[0].relativePath;
      assert EventOf(baseline, files, disk, id) == Some(es[0]);
      EventsAreNeeded(baseline, files, disk, id);
    }
  }

  lemma EventsAreNeeded(baseline: Files, files: Files, disk: map<Identity, Content>, id: Identity)
    ensures EventOf(baseline, files, disk, id).Some? ==> NeedsEvent(baseline, files, id)
  {}

  // ---------------------------------------------------------------- baseline and mirror in step

  predicate InStepAt(fp: Option<Fingerprint>, content: Option<Content>)
  {
    && (fp.Some? <==> content.Some?)
    && (fp.Some? && fp.value.contentHash.Some? ==> fp.value.contentHash.value == Digest(content.value))
  }

  /** The mirror has the baseline's identities, and the contents its hashes stand for. */
  ghost predicate InStep(baseline: Files, m: Mirror)
  {
    forall id :: InStepAt(At(baseline, id), At(m.files, id))
  }

  /** The identities whose needed event has no effect: dropped by the read, failed by the disk, or blocked. */
  predicate Lost(baseline: Files, m: Mirror, files: Files, disk: map<Identity, Content>, faulty: set<Identity>, id: Identity)
  {
    && NeedsEvent(baseline, files, id)
    && (EventOf(baseline, files, disk, id).None? || id in faulty || (id in files && Blocked(m, id)))
  }

  ghost predicate LossFree(baseline: Files, m: Mirror, files: Files, disk: map<Identity, Content>, faulty: set<Identity>)
  {
    forall id :: !Lost(baseline, m, files, disk, faulty, id)
  }

  lemma StepAtKept(baseline: Files, m: Mirror, files: Files, disk: map<Identity, Content>, faulty: set<Identity>, id: Identity)
    requires PrefixFree(files.Keys)
    requires InStepAt(At(baseline, id), At(m.files, id)) && !Lost(baseline, m, files, disk, faulty, id)
    ensures InStepAt(At(files, id), At(ApplyAll(m, PollEvents(baseline, files, disk), faulty).files, id))
  {
    hide PollEvents, ApplyAll, Blocked, PrefixFree;
    PollEffectAt(m, baseline, files, disk, faulty, id);
  }

  lemma StepAtBroken(baseline: Files, m: Mirror, files: Files, disk: map<Identity, Content>, faulty: set<Identity>, id: Identity)
    requires PrefixFree(files.Keys)
    requires InStepAt(At(baseline, id), At(m.files, id)) && Lost(baseline, m, files, disk, faulty, id)
    requires (id in baseline ==> baseline[id].contentHash.Some?) && (id in files ==> files[id].contentHash.Some?)
    ensures !InStepAt(At(files, id), At(ApplyAll(m, PollEvents(baseline, files, disk), faulty).files, id))
  {
    hide PollEvents, ApplyAll, Blocked, PrefixFree;
    PollEffectAt(m, baseline, files, disk, faulty, id);
  }

  /** A round that loses nothing keeps mirror and baseline in step, hash-less entries included. */
  lemma LossFreeKeepsStep(baseline: Files, m: Mirror, files: Files, disk: map<Identity, Content>, faulty: set<Identity>)
    requires PrefixFree(files.Keys)
    requires InStep(baseline, m) && LossFree(baseline, m, files, disk, faulty)
    ensures InStep(files, ApplyAll(m, PollEvents(baseline, files, disk), faulty))
  {
    hide PrefixFree;
    forall id ensures InStepAt(At(files, id), At(ApplyAll(m, PollEvents(baseline, files, disk), faulty).files, id)) {
      StepAtKept(baseline, m, files, disk, faulty, id);
    }
  }

  /**
   The baseline advances whatever was dropped, failed or blocked; on hashed snapshots it stays in
   step with the mirror exactly when nothing was.
   */
  lemma KeepsStepIff(baseline: Files, m: Mirror, files: Files, disk: map<Identity, Content>, faulty: set<Identity>)
    requires PrefixFree(files.Keys)
    requires InStep(baseline, m) && AllHashed(baseline) && AllHashed(files)
    ensures InStep(files, ApplyAll(m, PollEvents(baseline, files, disk), faulty))
            <==> LossFree(baseline, m, files, disk, faulty)
  {
    hide PrefixFree;
    if LossFree(baseline, m, files, disk, faulty) {
      LossFreeKeepsStep(baseline, m, files, disk, faulty);
    } else {
      var id :| Lost(baseline, m, files, disk, faulty, id);
      StepAtBroken(baseline, m, files, disk, faulty, id);
    }
  }

  /** A mirror is in step with a hashed snapshot exactly when it is what the snapshot stands for. */
  lemma InStepIsSnapshotIff(files: Files, m: Mirror)
    requires AllHashed(files)
    ensures InStep(files, m) <==> m.files == ContentsOf(files)
  {
    if InStep(files, m) {
      forall id ensures At(m.files, id) == At(ContentsOf(files), id) { assert InStepAt(At(files, id), At(m.files, id)); }
      SameMap(m.files, ContentsOf(files));
    }
    if m.files == ContentsOf(files) {
      forall id ensures InStepAt(At(files, id), At(m.files, id)) {}
    }
  }

  /**
   On a mirror in step with the baseline, verified events on a sound disk give exactly the
   current snapshot when, and only when, no file to be written is blocked.
   */
  lemma DiffExactIff(baseline: Files, m: Mirror, files: Files, disk: map<Identity, Content>)
    requires PrefixFree(files.Keys) && AllHashed(baseline) && AllHashed(files)
    requires InStep(baseline, m) && ReadsVerify(baseline, files, disk)
    ensures ApplyAll(m, PollEvents(baseline, files, disk), {}).files == ContentsOf(files)
            <==> forall id :: id in files && NeedsEvent(baseline, files, id) ==> !Blocked(m, id)
  {
    hide PollEvents, ApplyAll, FingerprintsMatch, Blocked, PrefixFree, InStep, NeedsEvent;
    KeepsStepIff(baseline, m, files, disk, {});
    InStepIsSnapshotIff(files, ApplyAll(m, PollEvents(baseline, files, disk), {}));
    forall id | id !in files && NeedsEvent(baseline, files, id) ensures EventOf(baseline, files, disk, id).Some? {
      NeededDeletion(baseline, files, disk, id);
    }
    if forall id :: id in files && NeedsEvent(baseline, files, id) ==> !Blocked(m, id) {
      assert LossFree(baseline, m, files, disk, {});
    } else {
      var id :| id in files && NeedsEvent(baseline, files, id) && Blocked(m, id);
      assert Lost(baseline, m, files, disk, {}, id);
    }
  }

  lemma NeededDeletion(baseline: Files, files: Files, disk: map<Identity, Content>, id: Identity)
    requires id !in files && NeedsEvent(baseline, files, id)
    ensures EventOf(baseline, files, disk, id).Some?
  {}

  // ---------------------------------------------------------------- the loop

  const FULL_SCAN_EVERY_POLLS: nat := 60
  const FULL_SCAN_INTERVAL: nat := 300_000_000_000

  /** `should_force_full`. */
  predicate ShouldForceFull(pollsSinceFull: nat, lastFullScan: Instant, now: Instant)
  {
    pollsSinceFull >= FULL_SCAN_EVERY_POLLS || DurationSince(now, lastFullScan) >= FULL_SCAN_INTERVAL
  }

  datatype Params = Params(cacheFile: bool, fullSyncThreshold: nat)

  datatype WatchState = WatchState(baseline: Files, previousEntries: Entries, pollsSinceFull: nat, lastFullScan: Instant)

  datatype Push = NotApplied | Applied(faulty: set<Identity>)

  /** What the world does in one round of the loop. */
  datatype Round = Round(
    now: Instant,
    local: LocalTree,                  // the tree when the poll scans
    scanOk: bool,
    disk: map<Identity, Content>,     // what reading the changed files gives
    push: Push,
    syncScanned: Instant,              // the fallback pass, if it is taken: when it scans
    syncLocal: LocalTree,              //   the tree it scans
    cached: Option<Entries>,           //   the entries its cache file gives
    syncDelivers: set<Identity>,       //   the files it brings to the mirror
    syncOk: bool,                      //   whether it ends without an error
    syncDone: Instant)                 //   when it is over

  function Reused(s: WatchState, r: Round): Option<Entries>
  {
    if ShouldForceFull(s.pollsSinceFull, s.lastFullScan, r.now) then None else Some(s.previousEntries)
  }

  function PollScan(s: WatchState, r: Round): ScanOutcome { Scan(r.local, Reused(s, r)) }

  /** The entries a full pass reuses: those a configured cache file gives, if any. */
  function Reusable(p: Params, r: Round): Option<Entries>
  {
    if p.cacheFile && r.cached.Some? && |r.cached.value| != 0 then r.cached else None
  }

  /** The scan of `sync_once`. */
  function SyncScan(p: Params, r: Round): ScanOutcome { Scan(r.syncLocal, Reusable(p, r)) }

  /** What the pass writes to the mirror, whether it succeeds or fails later. */
  function Delivered(p: Params, m: Mirror, r: Round): set<Identity>
  {
    set id | id in r.syncDelivers && id in SyncScan(p, r).files && !Blocked(m, id)
  }

  /** A pass that meets a blocked file ends with an error. */
  predicate SyncSucceeds(p: Params, m: Mirror, r: Round)
  {
    r.syncOk && forall id :: id in r.syncDelivers && id in SyncScan(p, r).files ==> !Blocked(m, id)
  }

  function EventsIn(s: WatchState, r: Round): seq<Event>
  {
    PollEvents(s.baseline, PollScan(s, r).files, r.disk)
  }

  /** The state once the poll's scan is in. */
  function Scanned(s: WatchState, r: Round): WatchState
  {
    if ShouldForceFull(s.pollsSinceFull, s.lastFullScan, r.now)
    then WatchState(s.baseline, PollScan(s, r).entries, 0, r.now)
    else WatchState(s.baseline, PollScan(s, r).entries, s.pollsSinceFull + 1, s.lastFullScan)
  }

  /** Too many changes for the event path: the round takes a full pass. */
  predicate FallsBack(p: Params, s: WatchState, r: Round) { r.scanOk && |EventsIn(s, r)| > p.fullSyncThreshold }

  /**
   One round of `watch_loop`. A full pass, successful or not, delivers some of its snapshot's
   files and removes nothing (`Ingest.PassDelivers`); one that succeeds has delivered all that it
   was asked for (`Ingest.CleanPassDelivers`).
   */
  function Step(p: Params, s: WatchState, m: Mirror, r: Round): (WatchState, Mirror)
  {
    if !r.scanOk then (s, m)
    else
      var s1, files, events := Scanned(s, r), PollScan(s, r).files, EventsIn(s, r);
      if events == [] then (s1.(baseline := files), m)
      else if |events| > p.fullSyncThreshold then
        ScansAreHashed(r.syncLocal, Reusable(p, r));
        var out := SyncScan(p, r);
        (if SyncSucceeds(p, m, r) then WatchState(out.files, out.entries, 0, r.syncDone) else s1,
         Deliver(m, out.files, Delivered(p, m, r)))
      else
        match r.push
        case NotApplied => (s1, m)
        case Applied(faulty) => (s1.(baseline := files), ApplyAll(m, events, faulty))
  }

  /** The remote host. */
  class RemoteHost {
    var mirror: Mirror

    constructor (mirror: Mirror)
      ensures this.mirror == mirror
    {
      this.mirror := mirror;
    }

    /** `handle_ingest_event`, as the gateway sees it. */
    method PostEvent(events: seq<Event>, push: Push) returns (ok: bool)
      modifies this
      ensures ok == push.Applied?
      ensures mirror == if push.Applied? then ApplyAll(old(mirror), events, push.faulty) else old(mirror)
    {
      if push.NotApplied? { return false; }
      for i := 0 to |events|
        invariant ApplyAll(mirror, events[i..], push.faulty) == ApplyAll(old(mirror), events, push.faulty)
      {
        assert events[i..][0] == events[i] && events[i..][1..] == events[i + 1..];
        mirror := ApplyEvent(mirror, events[i], push.faulty);
      }
      return true;
    }

    /** A full pass, as the gateway sees it. */
    method TakePass(p: Params, r: Round) returns (ok: bool)
      modifies this
      ensures ok == SyncSucceeds(p, old(mirror), r)
      ensures AllHashed(SyncScan(p, r).files) && mirror == Deliver(old(mirror), SyncScan(p, r).files, Delivered(p, old(mirror), r))
    {
      ScansAreHashed(r.syncLocal, Reusable(p, r));
      ok := SyncSucceeds(p, mirror, r);
      mirror := Deliver(mirror, SyncScan(p, r).files, Delivered(p, mirror, r));
    }
  }

  /** The event of a current file, as the first loop of a poll finds it. */
  method ChangeEvent(baseline: Files, files: Files, disk: map<Identity, Content>, identity: Identity) returns (e: Option<Event>)
    requires identity in files
    ensures e == EventOf(baseline, files, disk, identity)
  {
    if identity !in baseline {
      e := ReadEvent(files, identity, Created, disk);
    } else if !FingerprintsMatch(baseline[identity], files[identity]) {
      e := ReadEvent(files, identity, Modified, disk);
    } else {
      e := None;
    }
  }

  /** The events of a poll, collected as the loop collects them. */
  method CollectEvents(baseline: Files, files: Files, disk: map<Identity, Content>) returns (events: seq<Event>)
    ensures events == PollEvents(baseline, files, disk)
  {
    hide SortedKeys, EventsOf, EventOf, Sorted;
    events := [];
    var current := SortedKeys(files.Keys);
    EventsOfNone(baseline, files, disk);
    for i := 0 to |current|
      invariant events == EventsOf(baseline, files, disk, current[..i])
    {
      EventsOfNext(baseline, files, disk, current, i);
      assert current[i] in current;
      var event := ChangeEvent(baseline, files, disk, current[i]);
      if event.Some? { events := events + [event.value]; }
    }
    assert current[..|current|] == current;
    ghost var changes := events;
    var gone := SortedKeys(baseline.Keys - files.Keys);
    for i := 0 to |gone|
      invariant events == changes + EventsOf(baseline, files, disk, gone[..i])
    {
      EventsOfNext(baseline, files, disk, gone, i);
      assert gone[i] in gone;
      GoneEvent(baseline, files, disk, gone[i]);
      events := events + [Event(gone[i], Deleted, None, None)];
    }
    assert gone[..|gone|] == gone;
    EventsOfAppend(baseline, files, disk, current, gone);
  }

  lemma GoneEvent(baseline: Files, files: Files, disk: map<Identity, Content>, id: Identity)
    requires id in baseline && id !in files
    ensures EventOf(baseline, files, disk, id) == Some(Event(id, Deleted, None, None))
  {}

  /** The variables of `watch_loop`. */
  class Watcher {
    const params: Params
    const remote: RemoteHost
    var baseline: Files
    var previousEntries: Entries
    var pollsSinceFull: nat
    var lastFullScan: Instant

    constructor (params: Params, remote: RemoteHost, first: ScanOutcome, started: Instant)
      ensures this.params == params && this.remote == remote
      ensures State() == WatchState(first.files, first.entries, 0, started)
    {
      this.params := params;
      this.remote := remote;
      baseline := first.files;
      previousEntries := first.entries;
      pollsSinceFull := 0;
      lastFullScan := started;
    }

    function State(): WatchState
      reads this
    {
      WatchState(baseline, previousEntries, pollsSinceFull, lastFullScan)
    }

    /** One round of the loop. */
    method Poll(r: Round)
      modifies this, remote
      ensures (State(), remote.mirror) == Step(params, old(State()), old(remote.mirror), r)
    {
      hide Scan, PollEvents, ApplyAll, Deliver, Delivered, SyncSucceeds;
      var forceFull := ShouldForceFull(pollsSinceFull, lastFullScan, r.now);
      if !r.scanOk { return; }
      var outcome := Scan(r.local, if forceFull then None else Some(previousEntries));
      if forceFull {
        pollsSinceFull := 0;
        lastFullScan := r.now;
      } else {
        pollsSinceFull := pollsSinceFull + 1;
      }
      previousEntries := outcome.entries;
      var events := CollectEvents(baseline, outcome.files, r.disk);
      if |events| == 0 {
        baseline := outcome.files;
        return;
      }
      if |events| > params.fullSyncThreshold {
        var passed := remote.TakePass(params, r);
        if passed {
          var pass := SyncScan(params, r);
          previousEntries := pass.entries;
          baseline := pass.files;
          pollsSinceFull := 0;
          lastFullScan := r.syncDone;
        }
        return;
      }
      var ok := remote.PostEvent(events, r.push);
      if !ok { return; }
      baseline := outcome.files;
    }
  }

  type Rounds = seq<Round>

  function Run(p: Params, s: WatchState, m: Mirror, rs: Rounds): (WatchState, Mirror)
    decreases |rs|
  {
    if rs == [] then (s, m)
    else
      var (s', m') := Step(p, s, m, rs[0]);
      Run(p, s', m', rs[1..])
  }

  // ---------------------------------------------------------------- the invariant over runs

  /**
   What a pass does not lose. One that succeeds must find nothing to be removed, and hold what it
   leaves out; one that fails must have delivered only what the baseline has.
   */
  predicate PassLossFree(p: Params, s: WatchState, m: Mirror, r: Round)
  {
    ScansAreHashed(r.syncLocal, Reusable(p, r));
    var files, ids := SyncScan(p, r).files, Delivered(p, m, r);
    if SyncSucceeds(p, m, r) then m.files.Keys <= files.Keys && RestHeld(m, files, ids)
    else forall id :: id in ids ==> id in s.baseline && id in files && s.baseline[id].contentHash == files[id].contentHash
  }

  /** The round leaves baseline and mirror as much in step as it finds them. */
  ghost predicate RoundLossFree(p: Params, s: WatchState, m: Mirror, r: Round)
  {
    var events, files := EventsIn(s, r), PollScan(s, r).files;
    r.scanOk ==>
      if |events| > p.fullSyncThreshold then PassLossFree(p, s, m, r)
      else if events == [] then LossFree(s.baseline, m, files, r.disk, {})
      else r.push.Applied? ==> LossFree(s.baseline, m, files, r.disk, r.push.faulty)
  }

  ghost predicate RunLossFree(p: Params, s: WatchState, m: Mirror, rs: Rounds)
    decreases |rs|
  {
    rs != [] ==>
      && RoundLossFree(p, s, m, rs[0])
      && RunLossFree(p, Step(p, s, m, rs[0]).0, Step(p, s, m, rs[0]).1, rs[1..])
  }

  /** A pass that succeeds ends in step exactly when nothing had to be removed and nothing was left out. */
  lemma PassInStepIff(p: Params, s: WatchState, m: Mirror, r: Round)
    requires SyncSucceeds(p, m, r)
    ensures AllHashed(SyncScan(p, r).files)
    ensures InStep(SyncScan(p, r).files, Deliver(m, SyncScan(p, r).files, Delivered(p, m, r))) <==> PassLossFree(p, s, m, r)
  {
    hide Scan, InStep, Deliver, Delivered, SyncSucceeds, ContentsOf, RestHeld;
    ScansAreHashed(r.syncLocal, Reusable(p, r));
    var files, ids := SyncScan(p, r).files, Delivered(p, m, r);
    InStepIsSnapshotIff(files, Deliver(m, files, ids));
    DeliverIsSnapshotIff(m, files, ids);
  }

  /** A pass that fails leaves the old baseline in step exactly when it delivered nothing new. */
  lemma FailedPassInStepIff(p: Params, s: WatchState, m: Mirror, r: Round)
    requires !SyncSucceeds(p, m, r) && InStep(s.baseline, m)
    ensures AllHashed(SyncScan(p, r).files)
    ensures var after := Deliver(m, SyncScan(p, r).files, Delivered(p, m, r));
            && (PassLossFree(p, s, m, r) ==> InStep(s.baseline, after))
            && (AllHashed(s.baseline) && InStep(s.baseline, after) ==> PassLossFree(p, s, m, r))
  {
    hide Scan, Deliver, SyncSucceeds, Blocked;
    ScansAreHashed(r.syncLocal, Reusable(p, r));
    var files, ids := SyncScan(p, r).files, Delivered(p, m, r);
    var after := Deliver(m, files, ids);
    forall id ensures At(after.files, id) == if id in files && id in ids then Some(ContentOf(files, id)) else At(m.files, id) {
      DeliverAt(m, files, ids, id);
    }
    if PassLossFree(p, s, m, r) {
      forall id ensures InStepAt(At(s.baseline, id), At(after.files, id)) {
        assert InStepAt(At(s.baseline, id), At(m.files, id));
      }
    }
    if AllHashed(s.baseline) && InStep(s.baseline, after) {
      forall id | id in ids ensures id in s.baseline && s.baseline[id].contentHash == files[id].contentHash {
        assert InStepAt(At(s.baseline, id), At(after.files, id));
      }
    }
  }

  lemma StepKeepsStep(p: Params, s: WatchState, m: Mirror, r: Round)
    requires InStep(s.baseline, m) && RoundLossFree(p, s, m, r)
    ensures InStep(Step(p, s, m, r).0.baseline, Step(p, s, m, r).1)
  {
    hide Scan, PollEvents, InStep, LossFree, Deliver, Delivered, PassLossFree, SyncSucceeds;
    if r.scanOk {
      var events, files := EventsIn(s, r), PollScan(s, r).files;
      ScanKeys(r.local, Reused(s, r));
      if events == [] {
        LossFreeKeepsStep(s.baseline, m, files, r.disk, {});
      } else if |events| > p.fullSyncThreshold {
        if SyncSucceeds(p, m, r) { PassInStepIff(p, s, m, r); } else { FailedPassInStepIff(p, s, m, r); }
      } else if r.push.Applied? {
        LossFreeKeepsStep(s.baseline, m, files, r.disk, r.push.faulty);
      }
    }
  }

  /** Over every run that loses nothing, through failures and fallbacks, mirror and baseline stay in step. */
  lemma {:induction false} RunKeepsStep(p: Params, s: WatchState, m: Mirror, rs: Rounds)
    requires InStep(s.baseline, m) && RunLossFree(p, s, m, rs)
    ensures InStep(Run(p, s, m, rs).0.baseline, Run(p, s, m, rs).1)
    decreases |rs|
  {
    hide Step, InStep, RoundLossFree;
    if rs != [] {
      StepKeepsStep(p, s, m, rs[0]);
      RunKeepsStep(p, Step(p, s, m, rs[0]).0, Step(p, s, m, rs[0]).1, rs[1..]);
    }
  }
}
