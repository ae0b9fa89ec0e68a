/**
 The remote host's side of a full pass: the manifest comparison, and the batches that stage
 chunks and write completed files to the project mirror
 (crates/app/cce-server/src/api/handlers/ingest/{manifest,batch,staging}.rs).

 One project and one manifest version, which is never zero for a gateway.
 */
module Ingest {
  import opened Text
  import opened Mirror
  import opened Ordering
  import opened Supply
  import opened Upload

  /** The mirror, the chunks staged for the version, and the hashes of indexed files. */
  datatype Host = Host(mirror: Mirror, staged: map<Identity, map<nat, Content>>, recorded: map<Identity, Digest>)

  function Received(h: Host, id: Identity): map<nat, Content> { if id in h.staged then h.staged[id] else map[] }

  // ---------------------------------------------------------------- the manifest

  /** The hash the index records is the manifest's. */
  predicate Fresh(h: Host, files: Files, id: Identity)
    requires id in files
  {
    files[id].contentHash.Some? && id in h.recorded && h.recorded[id] == files[id].contentHash.value
  }

  /** A file of which nothing is requested. */
  predicate Skips(h: Host, files: Files, id: Identity)
    requires id in files
  {
    Fresh(h, files, id) || |Received(h, id).Keys| >= TotalChunks(AtLeastOne(files[id].size))
  }

  /** The chunks below `n` that have not been received, in order. */
  function MissingIn(id: Identity, received: set<nat>, n: nat): seq<MissingChunk>
  {
    if n == 0 then []
    else MissingIn(id, received, n - 1) + if n - 1 in received then [] else [MissingChunk(id, n - 1)]
  }

  function UploadOf(h: Host, files: Files, ids: seq<Identity>): seq<Identity>
    requires forall id :: id in ids ==> id in files
  {
    if ids == [] then []
    else
      var n := |ids| - 1;
      UploadOf(h, files, ids[..n])
      + if Skips(h, files, ids[n]) || Received(h, ids[n]) != map[] then [] else [ids[n]]
  }

  function MissingOf(h: Host, files: Files, ids: seq<Identity>): seq<MissingChunk>
    requires forall id :: id in ids ==> id in files
  {
    if ids == [] then []
    else
      var n := |ids| - 1;
      MissingOf(h, files, ids[..n])
      + if Skips(h, files, ids[n]) || Received(h, ids[n]) == map[] then []
        else MissingIn(ids[n], Received(h, ids[n]).Keys, TotalChunks(AtLeastOne(files[ids[n]].size)))
  }

  /** The chunks of a manifest's files that the host asks for. */
  function AskedOf(h: Host, files: Files): Wanted
  {
    var ids := SortedKeys(files.Keys);
    WantedOf(files, UploadOf(h, files, ids), MissingOf(h, files, ids))
  }

  /** The files of which nothing is asked. */
  function Unasked(h: Host, files: Files): set<Identity> { set id | id in files && Skips(h, files, id) }

  lemma NothingOf(h: Host, files: Files)
    ensures UploadOf(h, files, []) == [] && MissingOf(h, files, []) == []
  {}

  lemma NextFile(h: Host, files: Files, ids: seq<Identity>, i: nat)
    requires i < |ids| && forall id :: id in ids ==> id in files
    ensures ids[i] in files && forall id :: id in ids[..i + 1] ==> id in files
    ensures var id := ids[i];
            && UploadOf(h, files, ids[..i + 1])
               == UploadOf(h, files, ids[..i]) + (if Skips(h, files, id) || Received(h, id) != map[] then [] else [id])
            && MissingOf(h, files, ids[..i + 1])
               == MissingOf(h, files, ids[..i])
                  + if Skips(h, files, id) || Received(h, id) == map[] then []
                    else MissingIn(id, Received(h, id).Keys, TotalChunks(AtLeastOne(files[id].size)))
  {
    hide Skips, Received, MissingIn, TotalChunks;
    var longer := ids[..i + 1];
    assert longer[..i] == ids[..i] && longer[i] == ids[i] && |longer| == i + 1;
  }

  /** `handle_ingest_manifest`: whole files to upload, and single missing chunks, both in order. */
  method HandleIngestManifest(h: Host, files: Files) returns (upload: seq<Identity>, missingChunks: seq<MissingChunk>)
    ensures upload == UploadOf(h, files, SortedKeys(files.Keys)) && missingChunks == MissingOf(h, files, SortedKeys(files.Keys))
    ensures WantedOf(files, upload, missingChunks) == AskedOf(h, files)
  {
    hide Skips, SortedKeys, WantedOf, Received, UploadOf, MissingOf, TotalChunks;
    upload, missingChunks := [], [];
    var ids := SortedKeys(files.Keys);
    NothingOf(h, files);
    assert ids[..0] == [];
    for i := 0 to |ids|
      invariant upload == UploadOf(h, files, ids[..i]) && missingChunks == MissingOf(h, files, ids[..i])
    {
      var id := ids[i];
      NextFile(h, files, ids, i);
      if Skips(h, files, id) { continue; }
      var received := Received(h, id);
      if received == map[] {
        upload := upload + [id];
        continue;
      }
      ghost var before := missingChunks;
      var total := TotalChunks(AtLeastOne(files[id].size));
      for k := 0 to total
        invariant missingChunks == before + MissingIn(id, received.Keys, k)
      {
        if k !in received { missingChunks := missingChunks + [MissingChunk(id, k)]; }
      }
    }
    assert ids[..|ids|] == ids;
  }

  lemma {:induction false} MissingInIff(id: Identity, received: set<nat>, n: nat, m: MissingChunk)
    ensures m in MissingIn(id, received, n) <==> m.relativePath == id && m.chunkIndex < n && m.chunkIndex !in received
  {
    if n > 0 { MissingInIff(id, received, n - 1, m); }
  }

  lemma {:induction false} UploadOfIff(h: Host, files: Files, ids: seq<Identity>, id: Identity)
    requires forall x :: x in ids ==> x in files
    ensures id in UploadOf(h, files, ids) <==> id in ids && !Skips(h, files, id) && Received(h, id) == map[]
  {
    hide Skips, Received;
    if ids != [] {
      UploadOfIff(h, files, ids[..|ids| - 1], id);
      assert ids == ids[..|ids| - 1] + [ids[|ids| - 1]];
    }
  }

  lemma {:induction false} MissingOfIff(h: Host, files: Files, ids: seq<Identity>, m: MissingChunk)
    requires forall x :: x in ids ==> x in files
    ensures m in MissingOf(h, files, ids) <==>
            var id := m.relativePath;
            && id in ids && !Skips(h, files, id) && Received(h, id) != map[]
            && m.chunkIndex < TotalChunks(AtLeastOne(files[id].size)) && m.chunkIndex !in Received(h, id)
  {
    hide Skips, Received, TotalChunks;
    if ids != [] {
      var n := |ids| - 1;
      MissingOfIff(h, files, ids[..n], m);
      assert ids == ids[..n] + [ids[n]];
      MissingInIff(ids[n], Received(h, ids[n]).Keys, TotalChunks(AtLeastOne(files[ids[n]].size)), m);
    }
  }

  predicate ChunkBefore(m: MissingChunk, n: MissingChunk)
  {
    (m.relativePath != n.relativePath && Le(m.relativePath, n.relativePath)) || (m.relativePath == n.relativePath && m.chunkIndex < n.chunkIndex)
  }

  predicate ChunksInOrder(ms: seq<MissingChunk>) { forall i, j :: 0 <= i < j < |ms| ==> ChunkBefore(ms[i], ms[j]) }

  lemma {:induction false} UploadInOrder(h: Host, files: Files, ids: seq<Identity>)
    requires Sorted(ids) && forall x :: x in ids ==> x in files
    ensures Sorted(UploadOf(h, files, ids)) && forall x :: x in UploadOf(h, files, ids) ==> x in ids
  {
    hide Skips, Received, Le;
    if ids != [] {
      var n := |ids| - 1;
      UploadInOrder(h, files, ids[..n]);
      var before := UploadOf(h, files, ids[..n]);
      forall i | 0 <= i < |before| ensures Le(before[i], ids[n]) && before[i] != ids[n] {
        assert before[i] in ids[..n];
        var j :| 0 <= j < n && ids[..n][j] == before[i];
        assert ids[j] == before[i];
      }
      assert forall x :: x in ids[..n] ==> x in ids;
      assert ids[n] in ids;
    }
  }

  lemma {:induction false} MissingInOrder(id: Identity, received: set<nat>, n: nat)
    ensures ChunksInOrder(MissingIn(id, received, n))
    ensures forall i :: 0 <= i < |MissingIn(id, received, n)| ==> MissingIn(id, received, n)[i].relativePath == id && MissingIn(id, received, n)[i].chunkIndex < n
  {
    if n > 0 { MissingInOrder(id, received, n - 1); }
  }

  lemma AppendChunks(a: seq<MissingChunk>, b: seq<MissingChunk>)
    requires ChunksInOrder(a) && ChunksInOrder(b) && forall i, j :: 0 <= i < |a| && 0 <= j < |b| ==> ChunkBefore(a[i], b[j])
    ensures ChunksInOrder(a + b)
  {
    hide ChunkBefore;
    var ms := a + b;
    forall i, j | 0 <= i < j < |ms| ensures ChunkBefore(ms[i], ms[j]) {
      if i < |a| && j >= |a| { assert ms[i] == a[i] && ms[j] == b[j - |a|]; }
    }
  }

  lemma {:induction false} MissingOfInOrder(h: Host, files: Files, ids: seq<Identity>)
    requires Sorted(ids) && forall x :: x in ids ==> x in files
    ensures ChunksInOrder(MissingOf(h, files, ids))
    ensures forall i :: 0 <= i < |MissingOf(h, files, ids)| ==> MissingOf(h, files, ids)[i].relativePath in ids
  {
    hide Skips, Received, Le, TotalChunks, MissingIn;
    if ids != [] {
      var n := |ids| - 1;
      MissingOfInOrder(h, files, ids[..n]);
      var before := MissingOf(h, files, ids[..n]);
      assert ids[n] in ids;
      assert forall x :: x in ids[..n] ==> x in ids;
      if Skips(h, files, ids[n]) || Received(h, ids[n]) == map[] {
        assert MissingOf(h, files, ids) == before;
      } else {
        var own := MissingIn(ids[n], Received(h, ids[n]).Keys, TotalChunks(AtLeastOne(files[ids[n]].size)));
        MissingInOrder(ids[n], Received(h, ids[n]).Keys, TotalChunks(AtLeastOne(files[ids[n]].size)));
        forall i, j | 0 <= i < |before| && 0 <= j < |own| ensures ChunkBefore(before[i], own[j]) {
          var k :| 0 <= k < n && ids[..n][k] == before[i].relativePath;
          assert ids[k] == before[i].relativePath;
        }
        AppendChunks(before, own);
        assert MissingOf(h, files, ids) == before + own;
      }
    }
  }

  /** The index records the hash that the manifest has of the file. */
  predicate Recorded(h: Host, files: Files, id: Identity)
  {
    id in files && id in h.recorded && files[id].contentHash == Some(h.recorded[id])
  }

  /**
   The two lists of a manifest's answer: in the first, the files of the manifest that the index does not
   record as they are and of which nothing is received; in the second, the chunks not received of those of
   which something is, but less than all; each once and in order.
   */
  lemma ManifestAnswer(h: Host, files: Files)
    ensures var ids := SortedKeys(files.Keys);
            var upload, missing := UploadOf(h, files, ids), MissingOf(h, files, ids);
            && Sorted(upload) && ChunksInOrder(missing)
            && (forall id :: id in upload <==> id in files && !Recorded(h, files, id) && Received(h, id) == map[])
            && (forall m :: m in missing <==>
                  && m.relativePath in files && !Recorded(h, files, m.relativePath)
                  && 0 < |Received(h, m.relativePath).Keys| < TotalChunks(AtLeastOne(files[m.relativePath].size))
                  && m.chunkIndex < TotalChunks(AtLeastOne(files[m.relativePath].size)) && m.chunkIndex !in Received(h, m.relativePath))
  {
    hide TotalChunks, UploadOf, MissingOf, SortedKeys, Received, Sorted, ChunksInOrder;
    var ids := SortedKeys(files.Keys);
    UploadInOrder(h, files, ids);
    MissingOfInOrder(h, files, ids);
    forall id ensures id in UploadOf(h, files, ids) <==> id in files && !Recorded(h, files, id) && Received(h, id) == map[] {
      UploadOfIff(h, files, ids, id);
    }
    forall m ensures m in MissingOf(h, files, ids) <==>
                  && m.relativePath in files && !Recorded(h, files, m.relativePath)
                  && 0 < |Received(h, m.relativePath).Keys| < TotalChunks(AtLeastOne(files[m.relativePath].size))
                  && m.chunkIndex < TotalChunks(AtLeastOne(files[m.relativePath].size)) && m.chunkIndex !in Received(h, m.relativePath)
    {
      MissingOfIff(h, files, ids, m);
      NoneReceived(h, m.relativePath);
    }
  }

  lemma NoneReceived(h: Host, id: Identity)
    ensures Received(h, id) == map[] <==> |Received(h, id).Keys| == 0
  {
    hide Received;
    if Received(h, id).Keys == {} { assert Received(h, id) == map[]; }
  }

  /** Once the index records a whole snapshot, nothing of it is asked for. */
  lemma RecordedAsksNothing(h: Host, files: Files)
    requires forall id :: id in files ==> Recorded(h, files, id)
    ensures Unasked(h, files) == files.Keys && AskedOf(h, files) == map[]
  {
    hide Received, TotalChunks, SortedKeys, UploadOf, MissingOf;
    var ids := SortedKeys(files.Keys);
    var upload, missing := UploadOf(h, files, ids), MissingOf(h, files, ids);
    ManifestAnswer(h, files);
    HasNone(upload);
    HasNone(missing);
  }

  lemma HasSome<T>(s: seq<T>)
    requires s != []
    ensures exists x :: x in s
  {
    assert s[0] in s;
  }

  lemma HasNone<T>(s: seq<T>)
    requires forall x :: x !in s
    ensures s == []
  {
    if s != [] { HasSome(s); }
  }

  /** Exactly the chunks not yet received of the files not skipped are asked for. */
  lemma AskedIff(h: Host, files: Files, id: Identity, k: nat)
    ensures var w := AskedOf(h, files);
            (id in w && k in w[id]) <==>
            && id in files && id !in Unasked(h, files)
            && k < TotalChunks(AtLeastOne(files[id].size)) && k !in Received(h, id)
    ensures id in files ==>
              (id in Unasked(h, files) <==> Recorded(h, files, id) || |Received(h, id).Keys| >= TotalChunks(AtLeastOne(files[id].size)))
  {
    hide TotalChunks, WantedOf, UploadOf, MissingOf;
    var ids := SortedKeys(files.Keys);
    UploadOfIff(h, files, ids, id);
    MissingOfIff(h, files, ids, MissingChunk(id, k));
    WantedIff(files, UploadOf(h, files, ids), MissingOf(h, files, ids), id, k);
  }

  lemma {:induction false} IndicesSize(n: nat)
    ensures |Indices(n)| == n
  {
    if n > 0 {
      IndicesSize(n - 1);
      assert Indices(n) == Indices(n - 1) + {n - 1};
    }
  }

  /** Of a file that is not skipped, some chunk is asked for. */
  lemma SomethingAsked(h: Host, files: Files, id: Identity) returns (k: nat)
    requires id in files && id !in Unasked(h, files)
    ensures id in AskedOf(h, files) && k in AskedOf(h, files)[id]
    ensures k < TotalChunks(AtLeastOne(files[id].size)) && k !in Received(h, id)
  {
    hide TotalChunks, AskedOf;
    var total, received := TotalChunks(AtLeastOne(files[id].size)), Received(h, id).Keys;
    if Indices(total) <= received {
      IndicesSize(total);
      SubsetSize(Indices(total), received);
      assert false;
    }
    k :| k in Indices(total) && k !in received;
    AskedIff(h, files, id, k);
  }

  // ---------------------------------------------------------------- the batches

  type Unzip = Content -> Option<Content>

  /** The most chunks a file within the ingest bound can have. */
  const MAX_FILE_CHUNKS: nat := 4

  /** `decode_chunk_payload`, after base64. */
  function DecodePayload(p: Piece, unzip: Unzip): Option<Content>
  {
    var bytes := if p.compressed then unzip(p.payload) else Some(p.payload);
    if bytes.None? || |bytes.value| > INGEST_CHUNK_BYTES + 1024 || Digest(bytes.value) != p.chunkHash then None
    else bytes
  }

  /** The pieces of one file in a batch. */
  function GroupOf(batch: seq<Piece>, id: Identity): seq<Piece>
  {
    if batch == [] then []
    else
      var n := |batch| - 1;
      GroupOf(batch[..n], id) + if batch[n].relativePath == id then [batch[n]] else []
  }

  /** A piece that fits the group started by `first`. */
  predicate Fits(p: Piece, first: Piece)
  {
    p.totalChunks == first.totalChunks && p.contentHash == first.contentHash && p.chunkIndex < first.totalChunks
  }

  /** The chunks of the pieces; none if one does not fit, comes twice or cannot be decoded. */
  function DecodePieces(entries: seq<Piece>, first: Piece, unzip: Unzip): Option<map<nat, Content>>
  {
    if entries == [] then Some(map[])
    else
      var n := |entries| - 1;
      var p := entries[n];
      match DecodePieces(entries[..n], first, unzip)
      case None => None
      case Some(pieces) =>
        if !Fits(p, first) || p.chunkIndex in pieces || DecodePayload(p, unzip).None? then None
        else Some(pieces[p.chunkIndex := DecodePayload(p, unzip).value])
  }

  /** `decode_group`. */
  function DecodeGroup(entries: seq<Piece>, unzip: Unzip): Option<map<nat, Content>>
  {
    if entries == [] || entries[0].totalChunks == 0 || entries[0].totalChunks > MAX_FILE_CHUNKS then None
    else DecodePieces(entries, entries[0], unzip)
  }

  /** `read_assembled_pieces`: the staged chunks in index order, once all are there. */
  function Assembled(pieces: map<nat, Content>, total: nat): Option<Content>
  {
    if total == 0 then Some([])
    else
      match Assembled(pieces, total - 1)
      case None => None
      case Some(bytes) => if total - 1 in pieces then Some(bytes + pieces[total - 1]) else None
  }

  /** The files whose chunks, and whose mirror file, the disk fails to keep while a request runs. */
  datatype Faults = Faults(unstaged: set<Identity>, unwritten: set<Identity>)

  /** What becomes of a file's group: refused, kept in part, written to the mirror, or complete but not written. */
  datatype Outcome = Rejected | Partial | Done | Unwritten

  /** `stage_file`. */
  function StageFile(h: Host, id: Identity, first: Piece, pieces: map<nat, Content>, faults: Faults): (Host, Outcome)
  {
    if id in faults.unstaged then (h, Rejected)
    else
      var kept := Received(h, id) + pieces;
      var h1 := h.(staged := h.staged[id := kept]);
      match Assembled(kept, first.totalChunks)
      case None => (h1, Partial)
      case Some(bytes) =>
        if |bytes| > MAX_INGEST_FILE_BYTES || id in faults.unwritten || Blocked(h.mirror, id)
           || (first.contentHash.Some? && Digest(bytes) != first.contentHash.value)
        then (h1, Unwritten)
        else (h1.(mirror := Write(h1.mirror, id, bytes)), Done)
  }

  function StageGroup(h: Host, batch: seq<Piece>, id: Identity, unzip: Unzip, faults: Faults): (Host, Outcome)
  {
    var entries := GroupOf(batch, id);
    match DecodeGroup(entries, unzip)
    case None => (h, Rejected)
    case Some(pieces) => StageFile(h, id, entries[0], pieces, faults)
  }

  /** The host, the files it has completed, and those complete that it could not write. */
  datatype Log = Log(host: Host, done: set<Identity>, unwritten: set<Identity>)

  function Logged(l: Log, id: Identity, r: (Host, Outcome)): Log
  {
    Log(r.0, l.done + if r.1.Done? then {id} else {}, l.unwritten + if r.1.Unwritten? then {id} else {})
  }

  /** The groups in turn, with the identities that an error is reported for. */
  function StageGroups(l: Log, batch: seq<Piece>, ids: seq<Identity>, unzip: Unzip, faults: Faults): (Log, seq<Identity>)
  {
    if ids == [] then (l, [])
    else
      var n := |ids| - 1;
      var (l', failed) := StageGroups(l, batch, ids[..n], unzip, faults);
      var r := StageGroup(l'.host, batch, ids[n], unzip, faults);
      (Logged(l', ids[n], r), failed + if r.1.Rejected? || r.1.Unwritten? then [ids[n]] else [])
  }

  lemma StageNone(l: Log, batch: seq<Piece>, unzip: Unzip, faults: Faults)
    ensures StageGroups(l, batch, [], unzip, faults) == (l, [])
  {}

  lemma StageNext(l: Log, batch: seq<Piece>, ids: seq<Identity>, i: nat, unzip: Unzip, faults: Faults)
    requires i < |ids|
    ensures var (l', failed) := StageGroups(l, batch, ids[..i], unzip, faults);
            var r := StageGroup(l'.host, batch, ids[i], unzip, faults);
            StageGroups(l, batch, ids[..i + 1], unzip, faults)
            == (Logged(l', ids[i], r), failed + if r.1.Rejected? || r.1.Unwritten? then [ids[i]] else [])
  {
    hide StageGroup;
    assert ids[..i + 1][..i] == ids[..i];
  }

  function PathsOf(batch: seq<Piece>): set<Identity> { set i | 0 <= i < |batch| :: batch[i].relativePath }

  /** One batch request, with the identities it reports an error for. */
  function AfterBatch(l: Log, batch: seq<Piece>, unzip: Unzip, faults: Faults): (Log, seq<Identity>)
  {
    StageGroups(l, batch, SortedKeys(PathsOf(batch)), unzip, faults)
  }

  /** How a posted batch fares: refused as a whole, lost, or handled. */
  datatype Delivery = Refused | Handled(faults: Faults)

  /** The host's side of a pass. */
  class IngestHost {
    const unzip: Unzip
    var state: Host

    constructor (state: Host, unzip: Unzip)
      ensures this.state == state && this.unzip == unzip
    {
      this.state := state;
      this.unzip := unzip;
    }

    /** `handle_ingest_batch`, with the number of files it completes. */
    method HandleIngestBatch(batch: seq<Piece>, faults: Faults) returns (staged: nat, errors: seq<Identity>)
      modifies this
      ensures var (l, failed) := AfterBatch(Log(old(state), {}, {}), batch, unzip, faults);
              state == l.host && errors == failed && staged == |l.done|
    {
      hide StageGroup, StageGroups, SortedKeys;
      errors, staged := [], 0;
      var ids := SortedKeys(PathsOf(batch));
      ghost var l := Log(state, {}, {});
      StageNone(l, batch, unzip, faults);
      for i := 0 to |ids|
        invariant (l, errors) == StageGroups(Log(old(state), {}, {}), batch, ids[..i], unzip, faults)
        invariant state == l.host && staged == |l.done| && forall id :: id in l.done ==> id in ids[..i]
      {
        StageNext(Log(old(state), {}, {}), batch, ids, i, unzip, faults);
        var (next, outcome) := StageGroup(state, batch, ids[i], unzip, faults);
        assert ids[i] !in l.done;
        l := Logged(l, ids[i], (next, outcome));
        state := next;
        if outcome.Done? { staged := staged + 1; }
        errors := errors + if outcome.Rejected? || outcome.Unwritten? then [ids[i]] else [];
      }
      assert ids[..|ids|] == ids;
    }
  }

  /** The log after the first `n` batches. */
  function AfterBatches(l: Log, batches: seq<seq<Piece>>, n: nat, unzip: Unzip, fate: nat -> Delivery): Log
    requires n <= |batches|
  {
    if n == 0 then l
    else
      var before := AfterBatches(l, batches, n - 1, unzip, fate);
      match fate(n - 1)
      case Refused => before
      case Handled(faults) => AfterBatch(before, batches[n - 1], unzip, faults).0
  }

  /** The first `n` batches were all handled without an error. */
  predicate AllClean(l: Log, batches: seq<seq<Piece>>, n: nat, unzip: Unzip, fate: nat -> Delivery)
    requires n <= |batches|
  {
    n == 0 ||
    ( && AllClean(l, batches, n - 1, unzip, fate)
      && fate(n - 1).Handled?
      && AfterBatch(AfterBatches(l, batches, n - 1, unzip, fate), batches[n - 1], unzip, fate(n - 1).faults).1 == [])
  }
}
