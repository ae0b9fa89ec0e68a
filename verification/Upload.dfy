/**
 One full upload pass in bounded batches (crates/app/cce-gateway/src/sync.rs and policy.rs,
 with the chunk arithmetic of crates/infra/cce-ingest-transfer).
 */
module Upload {
  import opened Text
  import opened Mirror
  import opened Ordering
  import opened Supply

  const INGEST_CHUNK_BYTES: nat := 262_144
  const MAX_INGEST_CHUNKS_PER_BATCH: nat := 16
  const MAX_INGEST_BATCH_FILES: nat := 200
  const GATEWAY_BATCH_WIRE_BYTES: nat := 4_194_304
  const U32_MAX: nat := 0xffff_ffff

  // ---------------------------------------------------------------- chunks

  /** `total_chunks_for_size`: a ceiling division, at least one, at most `u32::MAX`. */
  function TotalChunks(size: nat): (n: nat)
    ensures n >= 1
  {
    var chunks := (size + INGEST_CHUNK_BYTES - 1) / INGEST_CHUNK_BYTES;
    if chunks < 1 then 1 else if chunks > U32_MAX then U32_MAX else chunks
  }

  /** Length of the standard base64 encoding (section 4 of RFC 4648). */
  function WireLen(bytes: nat): nat { 4 * ((bytes + 2) / 3) }

  /** Four characters for every three bytes begun. */
  lemma WireLenIs(bytes: nat)
    ensures WireLen(0) == 0 && WireLen(1) == WireLen(2) == 4 && WireLen(bytes + 3) == WireLen(bytes) + 4
  {}

  /** A file has just as many chunks as hold its bytes, and at least one. */
  lemma TotalChunksIs(size: nat)
    requires 0 < size <= U32_MAX * INGEST_CHUNK_BYTES
    ensures var n := TotalChunks(size); (n - 1) * INGEST_CHUNK_BYTES < size <= n * INGEST_CHUNK_BYTES
  {}

  predicate InRange(bytes: Content, k: nat) { k * INGEST_CHUNK_BYTES <= |bytes| }

  /** The bytes of chunk `k`. */
  function Slice(bytes: Content, k: nat): (c: Content)
    requires InRange(bytes, k)
    ensures |c| <= INGEST_CHUNK_BYTES
  {
    var start := k * INGEST_CHUNK_BYTES;
    bytes[start..if start + INGEST_CHUNK_BYTES < |bytes| then start + INGEST_CHUNK_BYTES else |bytes|]
  }

  function AtLeastOne(n: nat): nat { if n < 1 then 1 else n }

  lemma ChunksInRange(bytes: Content, k: nat)
    requires k < TotalChunks(AtLeastOne(|bytes|))
    ensures InRange(bytes, k)
  {}

  /** The slices of the first `n` chunks, one after another. */
  function Slices(bytes: Content, n: nat): Content
    requires n > 0 ==> InRange(bytes, n - 1)
  {
    if n == 0 then [] else Slices(bytes, n - 1) + Slice(bytes, n - 1)
  }

  lemma {:induction false} SlicesArePrefix(bytes: Content, n: nat)
    requires n > 0 ==> InRange(bytes, n - 1)
    ensures Slices(bytes, n) == bytes[..if n * INGEST_CHUNK_BYTES < |bytes| then n * INGEST_CHUNK_BYTES else |bytes|]
  {
    if n > 0 { SlicesArePrefix(bytes, n - 1); }
  }

  /** The chunks of a file are in range and concatenate to it. */
  lemma ChunksReassemble(bytes: Content)
    requires |bytes| <= MAX_INGEST_FILE_BYTES
    ensures var total := TotalChunks(AtLeastOne(|bytes|));
            && (forall k: nat :: k < total ==> InRange(bytes, k))
            && Slices(bytes, total) == bytes
  {
    var total := TotalChunks(AtLeastOne(|bytes|));
    forall k: nat | k < total ensures InRange(bytes, k) { ChunksInRange(bytes, k); }
    SlicesArePrefix(bytes, total);
  }

  // ---------------------------------------------------------------- what is wanted

  datatype MissingChunk = MissingChunk(relativePath: Identity, chunkIndex: nat)

  type Wanted = map<Identity, set<nat>>

  /** The chunk indices below `n`. */
  function Indices(n: nat): (s: set<nat>)
    ensures forall k: nat :: k in s <==> k < n
  {
    if n == 0 then {} else Indices(n - 1) + {n - 1}
  }

  function WantUploads(files: Files, upload: seq<Identity>, w: Wanted): Wanted
    decreases |upload|
  {
    if upload == [] then w
    else
      var id := upload[0];
      WantUploads(files, upload[1..],
                  if id in files then w[id := Indices(TotalChunks(AtLeastOne(files[id].size)))] else w)
  }

  function WantMissing(missing: seq<MissingChunk>, w: Wanted): Wanted
    decreases |missing|
  {
    if missing == [] then w
    else
      var m := missing[0];
      WantMissing(missing[1..],
                  w[m.relativePath := (if m.relativePath in w then w[m.relativePath] else {}) + {m.chunkIndex}])
  }

  /** The chunks the manifest response asks for. */
  function WantedOf(files: Files, upload: seq<Identity>, missing: seq<MissingChunk>): Wanted
  {
    WantMissing(missing, WantUploads(files, upload, map[]))
  }

  lemma {:induction false} WantUploadsAt(files: Files, upload: seq<Identity>, w: Wanted, id: Identity)
    ensures var w' := WantUploads(files, upload, w);
            && (id in files && id in upload ==> id in w' && w'[id] == Indices(TotalChunks(AtLeastOne(files[id].size))))
            && (!(id in files && id in upload) ==> (id in w' <==> id in w) && (id in w ==> w'[id] == w[id]))
    decreases |upload|
  {
    if upload != [] {
      var next := if upload[0] in files then w[upload[0] := Indices(TotalChunks(AtLeastOne(files[upload[0]].size)))] else w;
      WantUploadsAt(files, upload[1..], next, id);
    }
  }

  lemma {:induction false} WantMissingAt(missing: seq<MissingChunk>, w: Wanted, id: Identity, k: nat)
    ensures var w' := WantMissing(missing, w);
            (id in w' && k in w'[id]) <==> (id in w && k in w[id]) || MissingChunk(id, k) in missing
    decreases |missing|
  {
    if missing != [] {
      var m := missing[0];
      var next := w[m.relativePath := (if m.relativePath in w then w[m.relativePath] else {}) + {m.chunkIndex}];
      WantMissingAt(missing[1..], next, id, k);
      assert MissingChunk(id, k) in missing <==> m == MissingChunk(id, k) || MissingChunk(id, k) in missing[1..];
    }
  }

  lemma {:induction false} WantMissingKeys(missing: seq<MissingChunk>, w: Wanted, id: Identity)
    ensures id in WantMissing(missing, w) ==> id in w || exists i :: 0 <= i < |missing| && missing[i].relativePath == id
    decreases |missing|
  {
    if missing != [] {
      var m := missing[0];
      var next := w[m.relativePath := (if m.relativePath in w then w[m.relativePath] else {}) + {m.chunkIndex}];
      WantMissingKeys(missing[1..], next, id);
      if i :| 0 <= i < |missing[1..]| && missing[1..][i].relativePath == id { assert missing[i + 1].relativePath == id; }
    }
  }

  /** A chunk is wanted exactly when its whole file is to be uploaded, or it is missing on its own. */
  lemma WantedIff(files: Files, upload: seq<Identity>, missing: seq<MissingChunk>, id: Identity, k: nat)
    ensures var w := WantedOf(files, upload, missing);
            (id in w && k in w[id]) <==>
            || (id in upload && id in files && k < TotalChunks(AtLeastOne(files[id].size)))
            || MissingChunk(id, k) in missing
  {
    hide Indices, TotalChunks;
    WantUploadsAt(files, upload, map[], id);
    WantMissingAt(missing, WantUploads(files, upload, map[]), id, k);
  }

  // ---------------------------------------------------------------- what is sent

  /** One chunk of a file, as posted. */
  datatype Piece = Piece(
    relativePath: Identity,
    contentHash: Option<Digest>,
    payload: Content,
    chunkIndex: nat,
    totalChunks: nat,
    chunkHash: Digest,
    compressed: bool)

  datatype LocalError = Disappeared(id: Identity) | Unreadable(id: Identity) | TooLarge(id: Identity) | ChangedSince(id: Identity)

  datatype Error = Local(local: LocalError) | Server(message: string) | BatchFailed

  datatype PostResult = Staged(count: nat, messages: seq<string>) | Failed

  /** What a pass depends on: the snapshot, the disk, the compressor, and the server's answers. */
  datatype Setting = Setting(
    files: Files,
    disk: map<Identity, Content>,
    compress: bool,
    zstd: Content -> Option<Content>,
    respond: nat -> PostResult)

  /** `maybe_compress`: compressed only when that is shorter. */
  function MaybeCompress(c: Setting, bytes: Content): (r: (Content, bool))
    ensures |r.0| <= |bytes| && (!r.1 ==> r.0 == bytes)
  {
    if !c.compress || bytes == [] then (bytes, false)
    else
      match c.zstd(bytes)
      case Some(encoded) => if |encoded| < |bytes| then (encoded, true) else (bytes, false)
      case None => (bytes, false)
  }

  /** Why a wanted file cannot be sent, if so. */
  function Problem(c: Setting, id: Identity): Option<LocalError>
  {
    if id !in c.files then Some(Disappeared(id))
    else if id !in c.disk then Some(Unreadable(id))
    else if |c.disk[id]| > MAX_INGEST_FILE_BYTES then Some(TooLarge(id))
    else if c.files[id].contentHash.Some? && Digest(c.disk[id]) != c.files[id].contentHash.value then Some(ChangedSince(id))
    else None
  }

  /** A file of a hashed snapshot can be sent exactly when it is read as it was scanned, and is within the bound. */
  lemma NoProblemIff(c: Setting, id: Identity)
    requires AllHashed(c.files)
    ensures Problem(c, id).None? <==>
            id in c.files && At(c.disk, id) == Some(ContentOf(c.files, id)) && |ContentOf(c.files, id)| <= MAX_INGEST_FILE_BYTES
  {
    if id in c.files && id in c.disk { assert c.files[id].contentHash.value == Digest(ContentOf(c.files, id)); }
  }

  /** What is reported of a file that cannot be sent is true of it. */
  lemma ProblemIs(c: Setting, id: Identity)
    requires AllHashed(c.files) && Problem(c, id).Some?
    ensures match Problem(c, id).value
            case Disappeared(x) => x == id && id !in c.files
            case Unreadable(x) => x == id && id in c.files && id !in c.disk
            case TooLarge(x) => x == id && id in c.files && id in c.disk && |c.disk[id]| > MAX_INGEST_FILE_BYTES
            case ChangedSince(x) => x == id && id in c.files && id in c.disk && c.disk[id] != ContentOf(c.files, id)
  {}

  function PieceOf(c: Setting, id: Identity, k: nat): (p: Piece)
    requires Problem(c, id).None? && k < TotalChunks(AtLeastOne(|c.disk[id]|))
    ensures p.relativePath == id && p.chunkIndex == k
    ensures |p.payload| <= INGEST_CHUNK_BYTES
  {
    var bytes := c.disk[id];
    ChunksInRange(bytes, k);
    var chunk := Slice(bytes, k);
    var (payload, compressed) := MaybeCompress(c, chunk);
    Piece(id, c.files[id].contentHash, payload, k, TotalChunks(AtLeastOne(|bytes|)), Digest(chunk), compressed)
  }

  /** The pieces of the listed chunks; indices past the end are skipped. */
  function PiecesOf(c: Setting, id: Identity, indices: seq<nat>): seq<Piece>
    requires Problem(c, id).None?
  {
    if indices == [] then []
    else
      (if indices[0] < TotalChunks(AtLeastOne(|c.disk[id]|)) then [PieceOf(c, id, indices[0])] else [])
      + PiecesOf(c, id, indices[1..])
  }

  /** The pieces of the wanted files, in order. */
  function AllPieces(c: Setting, w: Wanted, ids: seq<Identity>): seq<Piece>
    requires forall id :: id in ids ==> id in w
  {
    if ids == [] then []
    else
      (if Problem(c, ids[0]).None? then PiecesOf(c, ids[0], SortedNats(w[ids[0]])) else [])
      + AllPieces(c, w, ids[1..])
  }

  function Problems(c: Setting, ids: seq<Identity>): seq<LocalError>
  {
    if ids == [] then []
    else (match Problem(c, ids[0]) case None => [] case Some(e) => [e]) + Problems(c, ids[1..])
  }

  /** Uploads that are not in the snapshot are reported at the end of the pass. */
  function Vanished(c: Setting, upload: seq<Identity>): seq<LocalError>
  {
    if upload == [] then []
    else (if upload[0] in c.files then [] else [Disappeared(upload[0])]) + Vanished(c, upload[1..])
  }

  function LocalErrors(es: seq<Error>): seq<LocalError>
  {
    if es == [] then [] else (if es[0].Local? then [es[0].local] else []) + LocalErrors(es[1..])
  }

  function Wire(batch: seq<Piece>): nat
  {
    if batch == [] then 0 else WireLen(|batch[0].payload|) + Wire(batch[1..])
  }

  function Flatten(batches: seq<seq<Piece>>): seq<Piece>
  {
    if batches == [] then [] else batches[0] + Flatten(batches[1..])
  }

  /** `should_flush_batch`. */
  predicate ShouldFlush(chunkCount: nat, fileCount: nat, wireBytes: nat)
  {
    chunkCount >= MAX_INGEST_CHUNKS_PER_BATCH || fileCount >= MAX_INGEST_BATCH_FILES || wireBytes >= GATEWAY_BATCH_WIRE_BYTES
  }

  /** A batch no larger than the contract allows, and not empty. */
  predicate Bounded(batch: seq<Piece>)
  {
    && 0 < |batch| <= MAX_INGEST_CHUNKS_PER_BATCH
    && |batch| <= MAX_INGEST_BATCH_FILES
    && Wire(batch) < GATEWAY_BATCH_WIRE_BYTES + WireLen(INGEST_CHUNK_BYTES)
  }

  /** A batch that had to be flushed. */
  predicate FullBatch(batch: seq<Piece>) { Bounded(batch) && ShouldFlush(|batch|, |batch|, Wire(batch)) }

  predicate AllFull(batches: seq<seq<Piece>>) { forall i :: 0 <= i < |batches| ==> FullBatch(batches[i]) }

  // ---------------------------------------------------------------- sequence facts

  lemma {:induction false} FlattenSnoc(batches: seq<seq<Piece>>, b: seq<Piece>)
    ensures Flatten(batches + [b]) == Flatten(batches) + b
  {
    if batches == [] {
      assert batches + [b] == [b] && [b][1..] == [];
    } else {
      assert (batches + [b])[1..] == batches[1..] + [b];
      FlattenSnoc(batches[1..], b);
    }
  }

  lemma {:induction false} WireAppend(a: seq<Piece>, b: seq<Piece>)
    ensures Wire(a + b) == Wire(a) + Wire(b)
  {
    if a == [] {
      assert a + b == b;
    } else {
      assert (a + b)[1..] == a[1..] + b;
      WireAppend(a[1..], b);
    }
  }

  lemma WireSnoc(batch: seq<Piece>, p: Piece)
    ensures Wire(batch + [p]) == Wire(batch) + WireLen(|p.payload|)
  {
    WireAppend(batch, [p]);
    assert [p][1..] == [];
  }

  lemma {:induction false} LocalErrorsAppend(a: seq<Error>, b: seq<Error>)
    ensures LocalErrors(a + b) == LocalErrors(a) + LocalErrors(b)
  {
    if a == [] {
      assert a + b == b && [] + LocalErrors(b) == LocalErrors(b);
    } else {
      assert (a + b)[1..] == a[1..] + b;
      LocalErrorsAppend(a[1..], b);
      var head := if a[0].Local? then [a[0].local] else [];
      assert head + (LocalErrors(a[1..]) + LocalErrors(b)) == head + LocalErrors(a[1..]) + LocalErrors(b);
    }
  }

  function ServerErrors(messages: seq<string>): seq<Error>
  {
    if messages == [] then [] else [Server(messages[0])] + ServerErrors(messages[1..])
  }

  lemma {:induction false} ServerErrorsNotLocal(messages: seq<string>)
    ensures LocalErrors(ServerErrors(messages)) == []
  {
    if messages != [] { ServerErrorsNotLocal(messages[1..]); }
  }

  /** The errors an answer adds. */
  function AnswerErrors(response: PostResult): seq<Error>
  {
    match response case Staged(_, messages) => ServerErrors(messages) case Failed => [BatchFailed]
  }

  lemma AnswerErrorsAre(response: PostResult)
    ensures LocalErrors(AnswerErrors(response)) == []
    ensures AnswerErrors(response) == [] <==> response.Staged? && response.messages == []
  {
    if response.Staged? { ServerErrorsNotLocal(response.messages); } else { assert [BatchFailed][1..] == []; }
  }

  lemma {:induction false} PiecesOfSnoc(c: Setting, id: Identity, indices: seq<nat>, k: nat)
    requires Problem(c, id).None?
    ensures PiecesOf(c, id, indices + [k])
            == PiecesOf(c, id, indices) + if k < TotalChunks(AtLeastOne(|c.disk[id]|)) then [PieceOf(c, id, k)] else []
  {
    hide PieceOf, Problem, TotalChunks;
    if indices == [] {
      assert indices + [k] == [k] && [k][1..] == [];
    } else {
      assert (indices + [k])[1..] == indices[1..] + [k];
      PiecesOfSnoc(c, id, indices[1..], k);
    }
  }

  lemma {:induction false} AllPiecesSnoc(c: Setting, w: Wanted, ids: seq<Identity>, id: Identity)
    requires id in w && forall x :: x in ids ==> x in w
    ensures AllPieces(c, w, ids + [id])
            == AllPieces(c, w, ids) + if Problem(c, id).None? then PiecesOf(c, id, SortedNats(w[id])) else []
  {
    hide PiecesOf, Problem, SortedNats;
    if ids == [] {
      assert ids + [id] == [id] && [id][1..] == [];
    } else {
      assert (ids + [id])[1..] == ids[1..] + [id];
      AllPiecesSnoc(c, w, ids[1..], id);
    }
  }

  lemma {:induction false} ProblemsSnoc(c: Setting, ids: seq<Identity>, id: Identity)
    ensures Problems(c, ids + [id]) == Problems(c, ids) + if Problem(c, id).Some? then [Problem(c, id).value] else []
  {
    hide Problem;
    if ids == [] {
      assert ids + [id] == [id] && [id][1..] == [];
    } else {
      assert (ids + [id])[1..] == ids[1..] + [id];
      ProblemsSnoc(c, ids[1..], id);
    }
  }

  lemma {:induction false} VanishedSnoc(c: Setting, upload: seq<Identity>, id: Identity)
    ensures Vanished(c, upload + [id]) == Vanished(c, upload) + if id in c.files then [] else [Disappeared(id)]
  {
    if upload == [] {
      assert upload + [id] == [id] && [id][1..] == [];
    } else {
      assert (upload + [id])[1..] == upload[1..] + [id];
      VanishedSnoc(c, upload[1..], id);
    }
  }

  lemma NothingYet(c: Setting, w: Wanted)
    ensures AllPieces(c, w, []) == [] && Problems(c, []) == [] && LocalErrors([]) == []
  {}

  // ---------------------------------------------------------------- the pass

  /** The staged count the first `n` answers report. */
  function StagedBy(c: Setting, n: nat): nat
  {
    if n == 0 then 0
    else StagedBy(c, n - 1) + match c.respond(n - 1) case Staged(count, _) => count case Failed => 0
  }

  /** The first `n` batches were taken without a complaint. */
  predicate AllAccepted(c: Setting, n: nat)
  {
    n == 0 || (AllAccepted(c, n - 1) && c.respond(n - 1).Staged? && c.respond(n - 1).messages == [])
  }

  /** The mutable state of `upload_paths`, with the batches its client has posted. */
  class UploadPass {
    const setting: Setting
    var batch: seq<Piece>
    var batchBytes: nat
    var staged: nat
    var errors: seq<Error>
    var posted: seq<seq<Piece>>

    constructor (setting: Setting)
      ensures this.setting == setting && Valid() && Sent() == [] && errors == [] && posted == []
    {
      this.setting := setting;
      batch, batchBytes, staged, errors, posted := [], 0, 0, [], [];
    }

    /** Between steps no batch is due, and every batch posted so far was. */
    predicate Valid()
      reads this
    {
      batchBytes == Wire(batch) && !ShouldFlush(|batch|, |batch|, batchBytes) && AllFull(posted) && Answered()
    }

    /** What the server's answers to the posted batches amount to. */
    predicate Answered()
      reads this
    {
      staged == StagedBy(setting, |posted|) && (errors == [] <==> LocalErrors(errors) == [] && AllAccepted(setting, |posted|))
    }

    function Sent(): seq<Piece>
      reads this
    {
      Flatten(posted) + batch
    }

    /** `flush_batch`. */
    method Flush()
      requires Answered()
      modifies this
      ensures Answered()
      ensures batch == [] && batchBytes == 0 && posted == old(posted) + [old(batch)]
      ensures Sent() == old(Sent())
      ensures LocalErrors(errors) == LocalErrors(old(errors))
    {
      hide Flatten, LocalErrors, ServerErrors;
      FlattenSnoc(posted, batch);
      var response := setting.respond(|posted|);
      posted := posted + [batch];
      batch := [];
      batchBytes := 0;
      assert Flatten(posted) + batch + [] == Flatten(posted) + batch;
      var more := AnswerErrors(response);
      AnswerErrorsAre(response);
      LocalErrorsAppend(errors, more);
      errors := errors + more;
      match response {
        case Staged(count, _) => staged := staged + count;
        case Failed =>
      }
    }

    /** Adds one piece, and posts the batch when it is full. */
    method Push(p: Piece)
      requires Valid() && |p.payload| <= INGEST_CHUNK_BYTES
      modifies this
      ensures Valid() && Sent() == old(Sent()) + [p]
      ensures LocalErrors(errors) == LocalErrors(old(errors))
    {
      WireSnoc(batch, p);
      batchBytes := batchBytes + WireLen(|p.payload|);
      batch := batch + [p];
      assert Sent() == old(Sent()) + [p];
      if ShouldFlush(|batch|, |batch|, batchBytes) {
        assert FullBatch(batch);
        Flush();
      }
    }

    /** One wanted file: its pieces in order, or one error. */
    method UploadFile(identity: Identity, wanted: set<nat>)
      requires Valid()
      modifies this
      ensures Valid()
      ensures Sent() == old(Sent()) + if Problem(setting, identity).None? then PiecesOf(setting, identity, SortedNats(wanted)) else []
      ensures LocalErrors(errors) == LocalErrors(old(errors)) + if Problem(setting, identity).Some? then [Problem(setting, identity).value] else []
    {
      hide PieceOf, PiecesOf, AllFull, Flatten, Wire, ShouldFlush;
      var problem := Problem(setting, identity);
      if problem.Some? {
        LocalErrorsAppend(errors, [Local(problem.value)]);
        assert [Local(problem.value)][1..] == [];
        errors := errors + [Local(problem.value)];
        assert Sent() == old(Sent());
        return;
      }
      var total := TotalChunks(AtLeastOne(|setting.disk[identity]|));
      var indices := SortedNats(wanted);
      assert indices[..0] == [] && PiecesOf(setting, identity, []) == [] by { NoPieces(setting, identity); }
      for i := 0 to |indices|
        invariant Valid()
        invariant Sent() == old(Sent()) + PiecesOf(setting, identity, indices[..i])
        invariant LocalErrors(errors) == LocalErrors(old(errors))
      {
        PiecesOfSnoc(setting, identity, indices[..i], indices[i]);
        assert indices[..i + 1] == indices[..i] + [indices[i]];
        if indices[i] >= total { continue; }
        Push(PieceOf(setting, identity, indices[i]));
      }
      assert indices[..|indices|] == indices;
    }

    /** `upload_paths`. */
    method UploadPaths(upload: seq<Identity>, missing: seq<MissingChunk>)
      requires Valid() && Sent() == [] && errors == []
      modifies this
      ensures var w := WantedOf(setting.files, upload, missing);
              && Flatten(posted) == AllPieces(setting, w, SortedKeys(w.Keys))
              && LocalErrors(errors) == Problems(setting, SortedKeys(w.Keys)) + Vanished(setting, upload)
      ensures forall i :: 0 <= i < |posted| ==> Bounded(posted[i]) && (i < |posted| - 1 ==> FullBatch(posted[i]))
      ensures staged == StagedBy(setting, |posted|)
      ensures var w := WantedOf(setting.files, upload, missing);
              errors == [] <==>
                Problems(setting, SortedKeys(w.Keys)) == [] && Vanished(setting, upload) == [] && AllAccepted(setting, |posted|)
    {
      hide Problem, PiecesOf, SortedNats, Flatten, Wire, SortedKeys, WantedOf, AllPieces, Problems, Vanished, LocalErrors, StagedBy, AllAccepted, ShouldFlush, Bounded, FullBatch;
      var wanted := WantedOf(setting.files, upload, missing);
      var identities := SortedKeys(wanted.Keys);
      NothingYet(setting, wanted);
      assert identities[..0] == [];
      for i := 0 to |identities|
        invariant Valid()
        invariant Sent() == AllPieces(setting, wanted, identities[..i])
        invariant LocalErrors(errors) == Problems(setting, identities[..i])
      {
        var identity := identities[i];
        assert identity in identities;
        AllPiecesSnoc(setting, wanted, identities[..i], identity);
        ProblemsSnoc(setting, identities[..i], identity);
        assert identities[..i + 1] == identities[..i] + [identity];
        UploadFile(identity, wanted[identity]);
      }
      assert identities[..|identities|] == identities;
      ReportVanished(upload);
      FlushLast();
    }

    /** The closing batch, which need not be full. */
    method FlushLast()
      requires Valid()
      modifies this
      ensures Answered() && Flatten(posted) == old(Sent()) && LocalErrors(errors) == LocalErrors(old(errors))
      ensures forall i :: 0 <= i < |posted| ==> Bounded(posted[i]) && (i < |posted| - 1 ==> FullBatch(posted[i]))
    {
      hide Flatten, Wire, Bounded, StagedBy, AllAccepted, LocalErrors;
      BatchBounded(batch, batchBytes);
      if |batch| != 0 { Flush(); }
      assert Flatten(posted) + [] == Flatten(posted);
    }

    /** The closing loop over the uploads that have left the snapshot. */
    method ReportVanished(upload: seq<Identity>)
      requires Valid()
      modifies this`errors
      ensures Valid() && LocalErrors(errors) == LocalErrors(old(errors)) + Vanished(setting, upload)
    {
      hide AllFull, Wire, ShouldFlush, AllAccepted, StagedBy;
      assert upload[..0] == [];
      for i := 0 to |upload|
        invariant Valid()
        invariant LocalErrors(errors) == LocalErrors(old(errors)) + Vanished(setting, upload[..i])
      {
        VanishedSnoc(setting, upload[..i], upload[i]);
        assert upload[..i + 1] == upload[..i] + [upload[i]];
        if upload[i] !in setting.files {
          LocalErrorsAppend(errors, [Local(Disappeared(upload[i]))]);
          assert [Local(Disappeared(upload[i]))][1..] == [];
          errors := errors + [Local(Disappeared(upload[i]))];
        }
      }
      assert upload[..|upload|] == upload;
    }
  }

  lemma NoPieces(c: Setting, id: Identity)
    requires Problem(c, id).None?
    ensures PiecesOf(c, id, []) == []
  {}

  lemma BatchBounded(batch: seq<Piece>, bytes: nat)
    requires bytes == Wire(batch) && !ShouldFlush(|batch|, |batch|, bytes)
    ensures batch != [] ==> Bounded(batch)
  {}

  // ---------------------------------------------------------------- what the sent pieces are

  /** The order of the sent pieces. */
  predicate Before(p: Piece, q: Piece)
  {
    (p.relativePath != q.relativePath && Le(p.relativePath, q.relativePath)) || (p.relativePath == q.relativePath && p.chunkIndex < q.chunkIndex)
  }

  predicate InOrder(ps: seq<Piece>) { forall i, j :: 0 <= i < j < |ps| ==> Before(ps[i], ps[j]) }

  /** What a sent piece is: a wanted chunk, in range, of a verified file. */
  predicate IsPiece(c: Setting, w: Wanted, p: Piece)
  {
    && p.relativePath in w && p.chunkIndex in w[p.relativePath]
    && Problem(c, p.relativePath).None? && p.chunkIndex < TotalChunks(AtLeastOne(|c.disk[p.relativePath]|))
    && p == PieceOf(c, p.relativePath, p.chunkIndex)
  }

  lemma {:induction false} PiecesOfExact(c: Setting, id: Identity, indices: seq<nat>)
    requires Problem(c, id).None? && AscendingNats(indices)
    ensures var ps := PiecesOf(c, id, indices);
            && InOrder(ps)
            && (forall p :: p in ps ==> p.relativePath == id && p.chunkIndex in indices
                                        && p.chunkIndex < TotalChunks(AtLeastOne(|c.disk[id]|)) && p == PieceOf(c, id, p.chunkIndex))
            && (forall k :: k in indices && k < TotalChunks(AtLeastOne(|c.disk[id]|)) ==> PieceOf(c, id, k) in ps)
  {
    hide PieceOf, TotalChunks;
    if indices != [] {
      var k, rest := indices[0], PiecesOf(c, id, indices[1..]);
      PiecesOfExact(c, id, indices[1..]);
      var ps := PiecesOf(c, id, indices);
      if k < TotalChunks(AtLeastOne(|c.disk[id]|)) {
        forall i | 0 <= i < |rest| ensures Before(PieceOf(c, id, k), rest[i]) { assert rest[i] in rest; }
        assert ps == [PieceOf(c, id, k)] + rest;
      } else {
        assert ps == rest;
      }
      assert forall j :: j in indices <==> j == k || j in indices[1..];
    }
  }

  lemma AppendInOrder(a: seq<Piece>, b: seq<Piece>)
    requires InOrder(a) && InOrder(b) && forall p, q :: p in a && q in b ==> Before(p, q)
    ensures InOrder(a + b)
  {
    var ps := a + b;
    forall i, j | 0 <= i < j < |ps| ensures Before(ps[i], ps[j]) {
      if i < |a| && j >= |a| { assert ps[i] in a && ps[j] in b; }
    }
  }

  lemma {:induction false} AllPiecesExact(c: Setting, w: Wanted, ids: seq<Identity>)
    requires Sorted(ids) && forall id :: id in ids ==> id in w
    ensures var ps := AllPieces(c, w, ids);
            && InOrder(ps)
            && (forall p :: p in ps ==> p.relativePath in ids && IsPiece(c, w, p))
            && (forall id, k :: id in ids && k in w[id] && Problem(c, id).None? && k < TotalChunks(AtLeastOne(|c.disk[id]|)) ==> PieceOf(c, id, k) in ps)
  {
    hide PieceOf, PiecesOf, Problem, TotalChunks, SortedNats, InOrder;
    if ids == [] {
      assert InOrder([]) by { NoneInOrder(); }
    } else {
      var id, rest := ids[0], AllPieces(c, w, ids[1..]);
      AllPiecesExact(c, w, ids[1..]);
      SortedNatsSorts(w[id]);
      if Problem(c, id).None? {
        var own := PiecesOf(c, id, SortedNats(w[id]));
        PiecesOfExact(c, id, SortedNats(w[id]));
        forall p, q | p in own && q in rest ensures Before(p, q) {
          var i :| 0 <= i < |ids[1..]| && ids[1..][i] == q.relativePath;
          assert ids[i + 1] == q.relativePath;
        }
        AppendInOrder(own, rest);
        assert AllPieces(c, w, ids) == own + rest;
      } else {
        assert AllPieces(c, w, ids) == [] + rest == rest;
      }
      assert forall x :: x in ids <==> x == id || x in ids[1..];
    }
  }

  lemma NoneInOrder()
    ensures InOrder([])
  {}

  lemma PieceIsOne(c: Setting, w: Wanted, id: Identity, k: nat)
    requires Problem(c, id).None? && k < TotalChunks(AtLeastOne(|c.disk[id]|)) && id in w && k in w[id]
    ensures IsPiece(c, w, PieceOf(c, id, k))
  {
    hide Problem, TotalChunks, PieceOf;
  }

  /**
   Over all posted batches: exactly the wanted chunks of verified files below their chunk
   total, each once, in (identity, index) order.
   */
  lemma SentExactly(c: Setting, upload: seq<Identity>, missing: seq<MissingChunk>)
    ensures var w := WantedOf(c.files, upload, missing);
            var ps := AllPieces(c, w, SortedKeys(w.Keys));
            InOrder(ps) && forall p :: p in ps <==> IsPiece(c, w, p)
  {
    hide AllPieces, WantedOf, SortedKeys, PieceOf, Problem, TotalChunks, InOrder;
    var w := WantedOf(c.files, upload, missing);
    AllPiecesExact(c, w, SortedKeys(w.Keys));
  }

  lemma {:induction false} ProblemsExact(c: Setting, ids: seq<Identity>)
    ensures forall id :: id in ids && Problem(c, id).Some? ==> Problem(c, id).value in Problems(c, ids)
    ensures forall e :: e in Problems(c, ids) ==> exists id :: id in ids && Problem(c, id) == Some(e)
  {
    if ids != [] {
      hide Problem;
      ProblemsExact(c, ids[1..]);
      assert forall x :: x in ids <==> x == ids[0] || x in ids[1..];
    }
  }

  /** A file to be uploaded whole: an error is reported, or its chunks were sent and give back its bytes. */
  lemma WholeFileSentOrReported(c: Setting, upload: seq<Identity>, missing: seq<MissingChunk>, id: Identity)
    requires id in upload && id in c.files && id in c.disk ==> |c.disk[id]| == c.files[id].size
    requires id in upload && id in c.files
    ensures var w := WantedOf(c.files, upload, missing);
            var ps := AllPieces(c, w, SortedKeys(w.Keys));
            if Problem(c, id).Some? then Problem(c, id).value in Problems(c, SortedKeys(w.Keys))
            else
              var total := TotalChunks(AtLeastOne(|c.disk[id]|));
              && (forall k: nat :: k < total ==> PieceOf(c, id, k) in ps)
              && Slices(c.disk[id], total) == c.disk[id]
  {
    hide AllPieces, SortedKeys, Problems, PieceOf, WantedOf, Slices, InOrder, IsPiece, TotalChunks;
    var w := WantedOf(c.files, upload, missing);
    ProblemsExact(c, SortedKeys(w.Keys));
    SentExactly(c, upload, missing);
    assert id in w by { WantedIff(c.files, upload, missing, id, 0); }
    if Problem(c, id).None? {
      ChunksReassemble(c.disk[id]);
      var total := TotalChunks(AtLeastOne(|c.disk[id]|));
      forall k: nat | k < total ensures PieceOf(c, id, k) in AllPieces(c, w, SortedKeys(w.Keys)) {
        WantedIff(c.files, upload, missing, id, k);
        PieceIsOne(c, w, id, k);
      }
    }
  }

  /** An uncompressed piece carries its slice, a compressed one its packing, which is shorter; every piece carries the hash of its slice. */
  lemma PieceCarriesSlice(c: Setting, id: Identity, k: nat)
    requires Problem(c, id).None? && k < TotalChunks(AtLeastOne(|c.disk[id]|))
    ensures InRange(c.disk[id], k)
    ensures var p := PieceOf(c, id, k);
            var slice := Slice(c.disk[id], k);
            && p.chunkHash == Digest(slice) && p.contentHash == c.files[id].contentHash
            && p.totalChunks == TotalChunks(AtLeastOne(|c.disk[id]|))
            && (!p.compressed ==> p.payload == slice)
            && (p.compressed ==> c.zstd(slice) == Some(p.payload))
            && (p.compressed <==> c.compress && slice != [] && c.zstd(slice).Some? && |c.zstd(slice).value| < |slice|)
  {
    ChunksInRange(c.disk[id], k);
  }

  // ---------------------------------------------------------------- how many batches

  function CountFull(batches: seq<seq<Piece>>): nat
  {
    if batches == [] then 0 else (if |batches[0]| >= MAX_INGEST_CHUNKS_PER_BATCH then 1 else 0) + CountFull(batches[1..])
  }

  function CountHeavy(batches: seq<seq<Piece>>): nat
  {
    if batches == [] then 0 else (if Wire(batches[0]) >= GATEWAY_BATCH_WIRE_BYTES then 1 else 0) + CountHeavy(batches[1..])
  }

  lemma {:induction false} CountsBound(batches: seq<seq<Piece>>)
    ensures CountFull(batches) * MAX_INGEST_CHUNKS_PER_BATCH <= |Flatten(batches)|
    ensures CountHeavy(batches) * GATEWAY_BATCH_WIRE_BYTES <= Wire(Flatten(batches))
  {
    if batches != [] {
      CountsBound(batches[1..]);
      WireAppend(batches[0], Flatten(batches[1..]));
    }
  }

  lemma {:induction false} FullOrHeavy(batches: seq<seq<Piece>>)
    requires AllFull(batches)
    ensures |batches| <= CountFull(batches) + CountHeavy(batches)
  {
    if batches != [] {
      assert FullBatch(batches[0]);
      assert AllFull(batches[1..]);
      FullOrHeavy(batches[1..]);
    }
  }

  /** All batches but the last were posted because they were full; there are few of them, by count or by weight. */
  lemma FullBatchesBounded(posted: seq<seq<Piece>>)
    requires posted != [] && AllFull(posted[..|posted| - 1])
    ensures |posted| - 1 <= |Flatten(posted)| / MAX_INGEST_CHUNKS_PER_BATCH + Wire(Flatten(posted)) / GATEWAY_BATCH_WIRE_BYTES
  {
    var full, last := posted[..|posted| - 1], posted[|posted| - 1];
    assert posted == full + [last];
    FullOrHeavy(full);
    CountsBound(full);
    FlattenSnoc(full, last);
    WireAppend(Flatten(full), last);
    DivideBound(CountFull(full), MAX_INGEST_CHUNKS_PER_BATCH, |Flatten(posted)|);
    DivideBound(CountHeavy(full), GATEWAY_BATCH_WIRE_BYTES, Wire(Flatten(posted)));
  }

  lemma MulMonotone(a: nat, b: nat, d: nat)
    requires a <= b
    ensures a * d <= b * d
  {}

  lemma DivideBound(n: nat, d: nat, total: nat)
    requires d > 0 && n * d <= total
    ensures n <= total / d
  {
    assert total < (total / d + 1) * d;
    if total / d + 1 <= n { MulMonotone(total / d + 1, n, d); }
  }
}
