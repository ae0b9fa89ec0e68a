/**
 The fallback pass of a poll round, as the batches of a full pass make it up
 (crates/app/cce-gateway/src/watch.rs with crates/app/cce-gateway/src/sync.rs).
 */
module RoundPass {
  import opened Text
  import opened Mirror
  import opened Supply
  import opened Upload
  import opened Ingest
  import opened FullPass
  import opened Watch

  /** The round's pass is this one: it scans this snapshot, delivers these files, and ends like this. */
  predicate IsPassOf(p: Params, r: Round, c: Setting, l: Log, ok: bool)
  {
    SyncScan(p, r).files == c.files && r.syncDelivers == l.done && r.syncOk == ok
  }

  /** What the cache file gives, if there is one, was kept by a scan: sizes and hashes go together. */
  predicate CacheIsSized(p: Params, r: Round)
  {
    Reusable(p, r).Some? ==> SizedEntries(Reusable(p, r).value)
  }

  /** The snapshot of a round's pass. */
  lemma PassSnapshot(p: Params, r: Round)
    requires CacheIsSized(p, r)
    ensures var files := SyncScan(p, r).files; AllHashed(files) && Sized(files) && PrefixFree(files.Keys)
  {
    hide Scan;
    ScanKeys(r.syncLocal, Reusable(p, r));
    ScansAreHashed(r.syncLocal, Reusable(p, r));
    ScansAreSized(r.syncLocal, Reusable(p, r));
  }

  /**
   Any pass, cut short at any batch or not and with any disk faults, is one the poll loop allows
   for: its mirror is the one the round's step leaves, and nothing it delivers was blocked.
   */
  lemma PassIsRound(p: Params, s: WatchState, r: Round, c: Setting, h: Host, batches: seq<seq<Piece>>, n: nat, unzip: Unzip, fate: nat -> Delivery, ok: bool)
    requires CacheIsSized(p, r) && SentFor(c, h, batches) && n <= |batches|
    requires IsPassOf(p, r, c, AfterBatches(Log(h, {}, {}), batches, n, unzip, fate), ok)
    requires FallsBack(p, s, r)
    ensures var l := AfterBatches(Log(h, {}, {}), batches, n, unzip, fate);
            && Delivered(p, h.mirror, r) == l.done && (SyncSucceeds(p, h.mirror, r) <==> ok)
            && Step(p, s, h.mirror, r).1 == l.host.mirror
  {
    hide AfterBatches, SentFor, Deliver, Blocked, Scan, PrefixFree, Asked, EventsIn, CacheIsSized;
    PassSnapshot(p, r);
    DeliveredIsAsked(c, h, batches, n, unzip, fate);
    var l := AfterBatches(Log(h, {}, {}), batches, n, unzip, fate);
    AskedAreFiles(h, c.files);
    assert Delivered(p, h.mirror, r) == l.done;
  }

  lemma AskedAreFiles(h: Host, files: Files)
    ensures Asked(h, files) <= files.Keys
  {}

  /** A pass without an error leaves out only what the host did not ask for. */
  lemma CleanPassOmits(p: Params, r: Round, c: Setting, h: Host, batches: seq<seq<Piece>>, unzip: Unzip, fate: nat -> Delivery, ok: bool)
    requires CacheIsSized(p, r) && SentFor(c, h, batches) && NoProblems(c, h)
    requires AllClean(Log(h, {}, {}), batches, |batches|, unzip, fate)
    requires IsPassOf(p, r, c, AfterBatches(Log(h, {}, {}), batches, |batches|, unzip, fate), ok)
    ensures AllHashed(c.files) && r.syncDelivers == Asked(h, c.files)
    ensures RestHeld(h.mirror, c.files, r.syncDelivers) <==>
            forall id :: id in Unasked(h, c.files) ==> At(h.mirror.files, id) == Some(ContentOf(c.files, id))
  {
    hide AfterBatches, SentFor, Deliver, AllClean, NoProblems, Scan, Skips, CacheIsSized, PrefixFree;
    PassSnapshot(p, r);
    CleanPassDelivers(c, h, batches, unzip, fate);
  }
}
