/**
 Histories of full passes over one snapshot: passes may meet refused batches and disk faults, may
 be cut short at any batch, and may be committed (crates/app/cce-gateway/src/sync.rs with
 crates/app/cce-server/src/api/handlers/ingest/{manifest,batch,staging,commit}.rs).
 */
module PassHistory {
  import opened Text
  import opened Mirror
  import opened Ordering
  import opened Supply
  import opened Upload
  import opened Ingest
  import opened FullPass

  // ---------------------------------------------------------------- true chunks

  /** Unpacking undoes packing. */
  ghost predicate Unpacks(c: Setting, unzip: Unzip)
  {
    forall bytes: Content :: c.zstd(bytes).Some? ==> unzip(c.zstd(bytes).value) == Some(bytes)
  }

  predicate TrueChunk(bytes: Content, k: nat, chunk: Content) { InRange(bytes, k) && chunk == Slice(bytes, k) }

  /** What is staged of one file are its chunks. */
  predicate TrueAt(h: Host, files: Files, id: Identity)
    requires AllHashed(files) && id in files
  {
    forall k :: k in Received(h, id) && k < TotalChunks(AtLeastOne(files[id].size)) ==> TrueChunk(ContentOf(files, id), k, Received(h, id)[k])
  }

  /** What is staged of the snapshot's files are their chunks. */
  predicate TrueStaged(h: Host, files: Files)
    requires AllHashed(files)
  {
    forall id :: id in files ==> TrueAt(h, files, id)
  }

  /** A piece that unpacks to its chunk. */
  predicate TruePiece(files: Files, unzip: Unzip, p: Piece)
    requires AllHashed(files)
  {
    && p.relativePath in files
    && p.chunkIndex < p.totalChunks <= MAX_FILE_CHUNKS
    && files[p.relativePath].size <= MAX_INGEST_FILE_BYTES
    && DecodePayload(p, unzip).Some?
    && TrueChunk(ContentOf(files, p.relativePath), p.chunkIndex, DecodePayload(p, unzip).value)
  }

  lemma SentIsTrue(c: Setting, w: Wanted, p: Piece, unzip: Unzip)
    requires AllHashed(c.files) && Sized(c.files) && Unpacks(c, unzip)
    requires IsPiece(c, w, p)
    ensures TruePiece(c.files, unzip, p)
  {
    var id, k := p.relativePath, p.chunkIndex;
    SendableIsTrue(c, id);
    PieceCarriesSlice(c, id, k);
    FewChunks(c.disk[id]);
  }

  lemma FewChunks(bytes: Content)
    requires |bytes| <= MAX_INGEST_FILE_BYTES
    ensures 1 <= TotalChunks(AtLeastOne(|bytes|)) <= MAX_FILE_CHUNKS
  {}

  lemma {:induction false} DecodesTrue(entries: seq<Piece>, first: Piece, unzip: Unzip, files: Files, id: Identity)
    requires AllHashed(files) && id in files && InOrder(entries)
    requires forall p :: p in entries ==> TruePiece(files, unzip, p) && Fits(p, first) && p.relativePath == id
    ensures var m := DecodePieces(entries, first, unzip);
            m.Some? && forall k :: k in m.value ==> TrueChunk(ContentOf(files, id), k, m.value[k])
  {
    hide Fits, DecodePayload, TrueChunk;
    if entries != [] {
      var n := |entries| - 1;
      assert entries[n] in entries;
      DecodesTrue(entries[..n], first, unzip, files, id);
      DecodedKeys(entries[..n], first, unzip);
      assert forall i :: 0 <= i < n ==> Before(entries[i], entries[n]) && entries[i].relativePath == id by {
        forall i | 0 <= i < n ensures entries[i].relativePath == id { assert entries[i] in entries; }
      }
    }
  }

  lemma {:induction false} GroupInOrder(batch: seq<Piece>, id: Identity)
    requires InOrder(batch)
    ensures InOrder(GroupOf(batch, id))
  {
    hide Before;
    if batch != [] {
      var n := |batch| - 1;
      GroupInOrder(batch[..n], id);
      if batch[n].relativePath == id {
        forall i | 0 <= i < |GroupOf(batch[..n], id)| ensures Before(GroupOf(batch[..n], id)[i], batch[n]) {
          var j := GroupMember(batch[..n], id, i);
        }
      }
    }
  }

  lemma {:induction false} AssembledIsSlices(pieces: map<nat, Content>, bytes: Content, n: nat)
    requires forall k :: k in pieces && k < n ==> TrueChunk(bytes, k, pieces[k])
    ensures Assembled(pieces, n).Some? ==> (n > 0 ==> InRange(bytes, n - 1)) && Assembled(pieces, n).value == Slices(bytes, n)
  {
    if n > 0 { AssembledIsSlices(pieces, bytes, n - 1); }
  }

  /** Pieces that the gateway sends of a snapshot whose files it reads as they were scanned. */
  ghost predicate Good(files: Files, unzip: Unzip, batch: seq<Piece>)
    requires AllHashed(files)
  {
    Conform(files, batch) && InOrder(batch) && forall p :: p in batch ==> TruePiece(files, unzip, p)
  }

  lemma StageFileTrue(h: Host, id: Identity, first: Piece, pieces: map<nat, Content>, faults: Faults, files: Files)
    requires AllHashed(files) && Sized(files) && id in files && TrueAt(h, files, id) && files[id].size <= MAX_INGEST_FILE_BYTES
    requires first.contentHash == files[id].contentHash && first.totalChunks == TotalChunks(AtLeastOne(files[id].size))
    requires forall k :: k in pieces ==> TrueChunk(ContentOf(files, id), k, pieces[k])
    ensures var (h', o) := StageFile(h, id, first, pieces, faults);
            && TrueAt(h', files, id)
            && (o.Rejected? ==> id in faults.unstaged) && (o.Unwritten? ==> id in faults.unwritten || Blocked(h.mirror, id))
  {
    hide TrueChunk, Assembled, TotalChunks, Slices, Blocked, Write;
    var kept, bytes, total := Received(h, id) + pieces, ContentOf(files, id), first.totalChunks;
    assert |bytes| == files[id].size by { assert SizedAt(files[id].size, files[id].contentHash); }
    AssembledIsSlices(kept, bytes, total);
    ChunksReassemble(bytes);
    var h' := StageFile(h, id, first, pieces, faults).0;
    assert id !in faults.unstaged ==> Received(h', id) == kept;
  }

  /** True pieces on top of true chunks leave true chunks, and fail only where the disk does. */
  lemma StageGroupTrue(h: Host, batch: seq<Piece>, id: Identity, unzip: Unzip, faults: Faults, files: Files)
    requires AllHashed(files) && Sized(files) && TrueStaged(h, files) && Mentions(batch, id) && Good(files, unzip, batch)
    ensures var (h', o) := StageGroup(h, batch, id, unzip, faults);
            && TrueStaged(h', files)
            && (o.Rejected? ==> id in faults.unstaged) && (o.Unwritten? ==> id in faults.unwritten || Blocked(h.mirror, id))
  {
    hide GroupOf, StageFile, DecodePieces, TotalChunks, TrueAt, InOrder, DecodePayload, TrueChunk, Blocked;
    var g := GroupOf(batch, id);
    var j :| 0 <= j < |batch| && batch[j].relativePath == id;
    var at := MemberGrouped(batch, id, j);
    var start := GroupMember(batch, id, 0);
    assert batch[start] in batch;
    forall p | p in g ensures TruePiece(files, unzip, p) && Fits(p, g[0]) && p.relativePath == id {
      InGroupIff(batch, id, p);
      var i :| 0 <= i < |batch| && batch[i] == p;
    }
    GroupInOrder(batch, id);
    DecodesTrue(g, g[0], unzip, files, id);
    StageFileTrue(h, id, g[0], DecodePieces(g, g[0], unzip).value, faults, files);
    var h' := StageGroup(h, batch, id, unzip, faults).0;
    forall x | x in files && x != id ensures TrueAt(h', files, x) {
      StageGroupOthers(h, batch, id, unzip, faults, x);
      SameChunks(h, h', files, x);
    }
  }

  lemma SameChunks(h: Host, h': Host, files: Files, x: Identity)
    requires AllHashed(files) && x in files && TrueAt(h, files, x) && Received(h', x) == Received(h, x)
    ensures TrueAt(h', files, x)
  {}

  /** Nothing stands in the way of the files. */
  ghost predicate Unblocked(m: Mirror, files: Files) { forall id :: id in files ==> !Blocked(m, id) }

  lemma {:induction false} GroupsTrue(l: Log, batch: seq<Piece>, ids: seq<Identity>, unzip: Unzip, faults: Faults, files: Files)
    requires AllHashed(files) && Sized(files) && TrueStaged(l.host, files) && forall x :: x in ids ==> Mentions(batch, x)
    requires Good(files, unzip, batch)
    ensures TrueStaged(StageGroups(l, batch, ids, unzip, faults).0.host, files)
    ensures faults == Faults({}, {}) && PrefixFree(files.Keys) && Unblocked(l.host.mirror, files) ==>
              StageGroups(l, batch, ids, unzip, faults).1 == [] && Unblocked(StageGroups(l, batch, ids, unzip, faults).0.host.mirror, files)
  {
    hide StageGroup, TrueStaged, InOrder, TruePiece, Conform, Mentions, Blocked, PrefixFree, Write, Deliver;
    if ids != [] {
      var n := |ids| - 1;
      assert ids[n] in ids;
      GroupsTrue(l, batch, ids[..n], unzip, faults, files);
      var l1 := StageGroups(l, batch, ids[..n], unzip, faults).0;
      StageGroupTrue(l1.host, batch, ids[n], unzip, faults, files);
      StageGroupShape(l1.host, batch, ids[n], unzip, faults, files);
      if PrefixFree(files.Keys) {
        forall x | x in files ensures Blocked(Write(l1.host.mirror, ids[n], ContentOf(files, ids[n])), x) <==> Blocked(l1.host.mirror, x) {
          WriteKeepsBlocked(l1.host.mirror, ids[n], ContentOf(files, ids[n]), files.Keys, x);
        }
      }
    }
  }

  lemma {:induction false} BatchesTrue(l: Log, batches: seq<seq<Piece>>, n: nat, unzip: Unzip, fate: nat -> Delivery, files: Files)
    requires n <= |batches| && AllHashed(files) && Sized(files) && TrueStaged(l.host, files)
    requires forall i :: 0 <= i < |batches| ==> Good(files, unzip, batches[i])
    ensures TrueStaged(AfterBatches(l, batches, n, unzip, fate).host, files)
    ensures fate == NoFaults() && PrefixFree(files.Keys) && Unblocked(l.host.mirror, files) ==>
              AllClean(l, batches, n, unzip, fate) && Unblocked(AfterBatches(l, batches, n, unzip, fate).host.mirror, files)
  {
    hide StageGroups, TrueStaged, Good, SortedKeys, Mentions, Unblocked, PrefixFree;
    if n > 0 {
      BatchesTrue(l, batches, n - 1, unzip, fate, files);
      PathsAreMentioned(batches[n - 1]);
      if fate(n - 1).Handled? {
        GroupsTrue(AfterBatches(l, batches, n - 1, unzip, fate), batches[n - 1], SortedKeys(PathsOf(batches[n - 1])), unzip, fate(n - 1).faults, files);
      }
    }
  }

  /** A host on which nothing goes wrong. */
  function NoFaults(): nat -> Delivery { _ => Handled(Faults({}, {})) }

  lemma {:induction false} BatchesInOrder(batches: seq<seq<Piece>>)
    requires InOrder(Flatten(batches))
    ensures forall i :: 0 <= i < |batches| ==> InOrder(batches[i])
  {
    hide Before;
    if batches != [] {
      var all, rest := Flatten(batches), Flatten(batches[1..]);
      assert all == batches[0] + rest;
      assert forall i :: 0 <= i < |batches[0]| ==> all[i] == batches[0][i];
      assert forall i :: 0 <= i < |rest| ==> all[|batches[0]| + i] == rest[i];
      BatchesInOrder(batches[1..]);
      assert forall i :: 0 < i < |batches| ==> batches[i] == batches[1..][i - 1];
    }
  }

  /** What a pass posts is good, whatever it was asked for. */
  lemma PostedIsGood(c: Setting, h: Host, batches: seq<seq<Piece>>, unzip: Unzip)
    requires AllHashed(c.files) && Sized(c.files) && Unpacks(c, unzip) && SentFor(c, h, batches)
    ensures forall i :: 0 <= i < |batches| ==> Good(c.files, unzip, batches[i])
  {
    hide AskedOf, AllPieces, SortedKeys, Unpacks, TruePiece, Problem, Flatten, InOrder, Conform, IsPiece;
    var w := AskedOf(h, c.files);
    var ps := Flatten(batches);
    AllPiecesExact(c, w, SortedKeys(w.Keys));
    SentConforms(c, w, ps);
    BatchesConform(c.files, batches);
    BatchesInOrder(batches);
    forall i, p | 0 <= i < |batches| && p in batches[i] ensures TruePiece(c.files, unzip, p) {
      FlattenHas(batches, i, p);
      SentIsTrue(c, w, p, unzip);
    }
  }

  /**
   The round trip: chunks that are cut, packed, batched, unpacked, staged and put together again
   raise no error on a host without faults, where nothing stands in the files' way.
   */
  lemma FaultlessPassIsClean(c: Setting, h: Host, batches: seq<seq<Piece>>, unzip: Unzip)
    requires AllHashed(c.files) && Sized(c.files) && PrefixFree(c.files.Keys) && Unpacks(c, unzip)
    requires TrueStaged(h, c.files) && Unblocked(h.mirror, c.files)
    requires SentFor(c, h, batches) && NoProblems(c, h)
    ensures AllClean(Log(h, {}, {}), batches, |batches|, unzip, NoFaults())
    ensures AfterBatches(Log(h, {}, {}), batches, |batches|, unzip, NoFaults()).host.mirror == Deliver(h.mirror, c.files, Asked(h, c.files))
  {
    hide Unpacks, TrueStaged, Unblocked, AllClean, AfterBatches, Good, SentFor, NoProblems, Deliver, Asked, PrefixFree, Sized;
    PostedIsGood(c, h, batches, unzip);
    BatchesTrue(Log(h, {}, {}), batches, |batches|, unzip, NoFaults(), c.files);
    CleanPassDelivers(c, h, batches, unzip, NoFaults());
  }

  /** The gateway reads every file of the snapshot as it was scanned. */
  predicate TrueReads(c: Setting)
    requires AllHashed(c.files)
  {
    forall id :: id in c.files ==> At(c.disk, id) == Some(ContentOf(c.files, id)) && |ContentOf(c.files, id)| <= MAX_INGEST_FILE_BYTES
  }

  lemma TrueReadsHaveNoProblems(c: Setting, h: Host)
    requires AllHashed(c.files) && TrueReads(c)
    ensures NoProblems(c, h)
  {
    hide AskedOf, Problem;
    forall id | id in AskedOf(h, c.files) ensures Problem(c, id).None? {
      AskedOfAreFiles(h, c.files, id);
      NoProblemIff(c, id);
    }
  }

  /** Every batch is answered, and with errors exactly if the host met some. */
  predicate Answers(c: Setting, h: Host, batches: seq<seq<Piece>>, unzip: Unzip, fate: nat -> Delivery)
  {
    forall i {:trigger c.respond(i)} :: 0 <= i < |batches| ==>
      && fate(i).Handled? && c.respond(i).Staged?
      && (c.respond(i).messages == [] <==>
            AfterBatch(AfterBatches(Log(h, {}, {}), batches, i, unzip, fate), batches[i], unzip, fate(i).faults).1 == [])
  }

  lemma {:induction false} CleanIsAccepted(c: Setting, h: Host, batches: seq<seq<Piece>>, n: nat, unzip: Unzip, fate: nat -> Delivery)
    requires n <= |batches| && Answers(c, h, batches, unzip, fate) && AllClean(Log(h, {}, {}), batches, n, unzip, fate)
    ensures AllAccepted(c, n)
  {
    hide AfterBatch;
    if n > 0 {
      CleanIsAccepted(c, h, batches, n - 1, unzip, fate);
      assert c.respond(n - 1).Staged?;
    }
  }

  /**
   A pass that can succeed does: with every file read as it was scanned, on a host without faults whose
   staging holds true chunks and where nothing stands in the files' way, and with its own answers, what
   the gateway posts for the manifest's answer ends without an error exactly if the commit does, and has
   brought exactly the files asked for.
   */
  lemma TruePassSucceeds(c: Setting, h: Host, posted: seq<seq<Piece>>, unzip: Unzip, commit: Commit)
    requires AllHashed(c.files) && Sized(c.files) && PrefixFree(c.files.Keys) && Unpacks(c, unzip) && TrueReads(c)
    requires TrueStaged(h, c.files) && Unblocked(h.mirror, c.files)
    requires SentFor(c, h, posted) && Answers(c, h, posted, unzip, NoFaults())
    ensures PassSucceeds(c, h, |posted|, true, commit) <==> commit.Wanted? ==> commit.ok
    ensures PassLeaves(c, h, posted, unzip, NoFaults(), commit).host.mirror == Deliver(h.mirror, c.files, Asked(h, c.files))
  {
    hide Unpacks, TrueStaged, Unblocked, AllClean, AfterBatches, SentFor, NoProblems, AllAccepted, Deliver, Asked, PrefixFree, Sized, TrueReads, Answers;
    TrueReadsHaveNoProblems(c, h);
    FaultlessPassIsClean(c, h, posted, unzip);
    CleanIsAccepted(c, h, posted, |posted|, unzip, NoFaults());
  }

  // ---------------------------------------------------------------- histories

  /** One pass over the snapshot: what it posts, how many of its batches get there, and its commit. */
  datatype Pass = Pass(setting: Setting, batches: seq<seq<Piece>>, handled: nat, fate: nat -> Delivery, commit: Commit)

  /** The log after a pass; dropping the staging makes the host forget what it could not write. */
  function AfterPass(l: Log, p: Pass, unzip: Unzip): Log
  {
    var l' := AfterBatches(l, p.batches, if p.handled <= |p.batches| then p.handled else |p.batches|, unzip, p.fate);
    Log(AfterCommit(l'.host, p.commit), l'.done, if Drops(p.commit) then {} else l'.unwritten)
  }

  function AfterPasses(l: Log, ps: seq<Pass>, unzip: Unzip): Log
    decreases |ps|
  {
    if ps == [] then l else AfterPasses(AfterPass(l, ps[0], unzip), ps[1..], unzip)
  }

  /** Passes over one snapshot, each posting what its manifest was asked for. */
  ghost predicate Passes(files: Files, l: Log, ps: seq<Pass>, unzip: Unzip)
    decreases |ps|
  {
    ps != [] ==>
      && ps[0].setting.files == files && SentFor(ps[0].setting, l.host, ps[0].batches)
      && Passes(files, AfterPass(l, ps[0], unzip), ps[1..], unzip)
  }

  /** Only chunks of the file are staged. */
  predicate InBounds(h: Host, files: Files, id: Identity)
    requires id in files
  {
    forall k :: k in Received(h, id) ==> k < TotalChunks(AtLeastOne(files[id].size))
  }

  /** A file is complete in the staging only if it was written, or could not be written since the staging was last dropped. */
  predicate Accounted(l: Log, files: Files, id: Identity)
    requires id in files
  {
    && InBounds(l.host, files, id)
    && (Complete(l.host, files, id) ==> id in l.done || id in l.unwritten)
    && (id in l.unwritten ==> Complete(l.host, files, id))
  }

  ghost predicate AllAccounted(l: Log, files: Files, m: Mirror)
    requires AllHashed(files)
  {
    l.host.mirror == Deliver(m, files, l.done) && forall id :: id in files ==> Accounted(l, files, id)
  }

  lemma TookAccounted(l: Log, l': Log, files: Files, ps: seq<Piece>, id: Identity, clean: bool)
    requires AllHashed(files) && Conform(files, ps) && id in files && Accounted(l, files, id) && Took(l, l', files, ps, id, clean)
    ensures Accounted(l', files, id)
  {
    hide TotalChunks, Received;
  }

  lemma FlattenConforms(files: Files, batches: seq<seq<Piece>>, n: nat)
    requires n <= |batches| && AllHashed(files) && Conform(files, Flatten(batches))
    ensures Conform(files, Flatten(batches[..n]))
  {
    hide Flatten;
    FlattenPrefix(batches, n);
    var some, all := Flatten(batches[..n]), Flatten(batches);
    forall i | 0 <= i < |some| ensures exists j :: 0 <= j < |all| && all[j] == some[i] { assert some[i] in all; }
  }

  lemma PassAccounted(files: Files, l: Log, p: Pass, unzip: Unzip, m: Mirror)
    requires AllHashed(files) && Sized(files) && p.setting.files == files && SentFor(p.setting, l.host, p.batches)
    requires AllAccounted(l, files, m)
    ensures AllAccounted(AfterPass(l, p, unzip), files, m)
  {
    hide AskedOf, AllPieces, SortedKeys, AfterBatches, AllClean, Conform, Flatten, Deliver, Accounted, Took, IsPiece;
    var c := p.setting;
    var w := AskedOf(l.host, files);
    AllPiecesExact(c, w, SortedKeys(w.Keys));
    SentConforms(c, w, Flatten(p.batches));
    BatchesConform(files, p.batches);
    var n := if p.handled <= |p.batches| then p.handled else |p.batches|;
    var l' := AfterBatches(l, p.batches, n, unzip, p.fate);
    PassDelivers(l, p.batches, n, unzip, p.fate, files, m);
    forall id | id in files ensures Accounted(AfterPass(l, p, unzip), files, id) {
      BatchesTook(l, p.batches, n, unzip, p.fate, files, id);
      FlattenConforms(files, p.batches, n);
      TookAccounted(l, l', files, Flatten(p.batches[..n]), id, AllClean(l, p.batches, n, unzip, p.fate));
      CommitAccounted(l', p.commit, files, id);
    }
  }

  lemma CommitAccounted(l: Log, commit: Commit, files: Files, id: Identity)
    requires id in files && Accounted(l, files, id)
    ensures Accounted(Log(AfterCommit(l.host, commit), l.done, if Drops(commit) then {} else l.unwritten), files, id)
  {
    hide TotalChunks;
    CommitReceived(l.host, commit, id);
    if Drops(commit) { NothingReceived(AfterCommit(l.host, commit), files, id); }
  }

  lemma CommitReceived(h: Host, commit: Commit, id: Identity)
    ensures Received(AfterCommit(h, commit), id) == if Drops(commit) then map[] else Received(h, id)
  {}

  lemma NothingReceived(h: Host, files: Files, id: Identity)
    requires id in files && Received(h, id) == map[]
    ensures InBounds(h, files, id) && !Complete(h, files, id)
  {
    hide Received, TotalChunks;
    assert 0 !in Received(h, id);
  }

  lemma {:induction false} PassesAccounted(files: Files, l: Log, ps: seq<Pass>, unzip: Unzip, m: Mirror)
    requires AllHashed(files) && Sized(files) && Passes(files, l, ps, unzip) && AllAccounted(l, files, m)
    ensures AllAccounted(AfterPasses(l, ps, unzip), files, m)
    decreases |ps|
  {
    hide AfterPass, AllAccounted, SentFor, Sized;
    if ps != [] {
      PassAccounted(files, l, ps[0], unzip, m);
      PassesAccounted(files, AfterPass(l, ps[0], unzip), ps[1..], unzip, m);
    }
  }

  lemma {:induction false} SameSize<T>(a: set<T>, b: set<T>)
    requires a <= b && |a| >= |b|
    ensures a == b
  {
    if b != {} {
      if a == {} { assert false; }
      var x :| x in a;
      SameSize(a - {x}, b - {x});
      assert a == a - {x} + {x} && b == b - {x} + {x};
    }
  }

  /** Enough chunks are received exactly when all are. */
  lemma CountIsComplete(h: Host, files: Files, id: Identity)
    requires id in files && InBounds(h, files, id)
    ensures |Received(h, id).Keys| >= TotalChunks(AtLeastOne(files[id].size)) <==> Complete(h, files, id)
  {
    hide TotalChunks;
    var total, keys := TotalChunks(AtLeastOne(files[id].size)), Received(h, id).Keys;
    IndicesSize(total);
    if |keys| >= total {
      SameSize(keys, Indices(total));
    }
    if Complete(h, files, id) {
      assert Indices(total) <= keys;
      SubsetSize(Indices(total), keys);
    }
  }

  /** A host that holds no chunks of the snapshot yet. */
  predicate Unstaged(h: Host, files: Files) { forall id :: id in files ==> Received(h, id) == map[] }

  lemma StartAccounted(h: Host, files: Files)
    requires AllHashed(files) && Unstaged(h, files)
    ensures AllAccounted(Log(h, {}, {}), files, h.mirror)
  {
    hide Deliver;
    DeliverNone(h.mirror, files);
    forall id | id in files ensures Accounted(Log(h, {}, {}), files, id) { NothingReceived(h, files, id); }
  }

  predicate Missing(m: Mirror, files: Files, id: Identity)
    requires AllHashed(files) && id in files
  {
    At(m.files, id) != Some(ContentOf(files, id))
  }

  /** What is asked for after a history of passes: all but the fresh, and the staged ones that were written or could not be. */
  lemma AskedAfter(files: Files, h0: Host, ps: seq<Pass>, unzip: Unzip, id: Identity)
    requires AllHashed(files) && Sized(files) && Unstaged(h0, files) && Passes(files, Log(h0, {}, {}), ps, unzip) && id in files
    ensures var l := AfterPasses(Log(h0, {}, {}), ps, unzip);
            && l.host.mirror == Deliver(h0.mirror, files, l.done)
            && (id !in l.done ==> (id in Asked(l.host, files) <==> !Fresh(l.host, files, id) && id !in l.unwritten))
  {
    hide AfterPasses, Passes, Received, Complete, InBounds, Deliver, Unstaged, Sized;
    StartAccounted(h0, files);
    PassesAccounted(files, Log(h0, {}, {}), ps, unzip, h0.mirror);
    var l := AfterPasses(Log(h0, {}, {}), ps, unzip);
    assert Accounted(l, files, id);
    CountIsComplete(l.host, files, id);
  }

  /**
   Which files an error-free pass leaves missing, after any history of passes over the snapshot:
   exactly those that were missing at first and never written since, and that the index records
   as if they were there, or whose last chunk came when the mirror could not be written, the
   staging not having been dropped since.
   */
  lemma MissingIff(files: Files, h0: Host, ps: seq<Pass>, c: Setting, batches: seq<seq<Piece>>, unzip: Unzip, fate: nat -> Delivery, id: Identity)
    requires AllHashed(files) && Sized(files) && Unstaged(h0, files) && Passes(files, Log(h0, {}, {}), ps, unzip)
    requires var h := AfterPasses(Log(h0, {}, {}), ps, unzip).host;
             c.files == files && SentFor(c, h, batches) && NoProblems(c, h) && AllClean(Log(h, {}, {}), batches, |batches|, unzip, fate)
    requires id in files
    ensures var l := AfterPasses(Log(h0, {}, {}), ps, unzip);
            Missing(AfterBatches(Log(l.host, {}, {}), batches, |batches|, unzip, fate).host.mirror, files, id) <==>
            Missing(h0.mirror, files, id) && id !in l.done && (Fresh(l.host, files, id) || id in l.unwritten)
  {
    hide AfterPasses, Passes, AfterBatches, AllClean, SentFor, NoProblems, Asked, Unstaged, Sized, Deliver, Fresh;
    var l := AfterPasses(Log(h0, {}, {}), ps, unzip);
    AskedAfter(files, h0, ps, unzip, id);
    CleanPassDelivers(c, l.host, batches, unzip, fate);
    DeliverAt(h0.mirror, files, l.done, id);
    DeliverAt(l.host.mirror, files, Asked(l.host, files), id);
  }

  /**
   How a file comes to be forgotten: when its last chunks arrive and the mirror cannot be written,
   the error is reported once, and from then on the file counts as received.
   */
  lemma UnwrittenIsNotAskedAgain(h: Host, files: Files, id: Identity, first: Piece, pieces: map<nat, Content>, faults: Faults)
    requires id in files && first.totalChunks == TotalChunks(AtLeastOne(files[id].size))
    requires id !in faults.unstaged && (id in faults.unwritten || Blocked(h.mirror, id))
    requires forall k: nat :: k < first.totalChunks ==> k in Received(h, id) || k in pieces
    ensures var (h', o) := StageFile(h, id, first, pieces, faults);
            o.Unwritten? && h'.mirror == h.mirror && id !in Asked(h', files)
  {
    hide Assembled, TotalChunks, Blocked;
    var kept := Received(h, id) + pieces;
    AssembledIff(kept, first.totalChunks);
    IndicesSize(first.totalChunks);
    SubsetSize(Indices(first.totalChunks), kept.Keys);
    var h' := StageFile(h, id, first, pieces, faults).0;
    assert Received(h', id) == kept;
  }

  /** A snapshot of that one file: the retry is asked for nothing, has no error, and leaves the file missing. */
  lemma RetryForgets(c: Setting, h: Host, id: Identity, first: Piece, pieces: map<nat, Content>, faults: Faults, unzip: Unzip, fate: nat -> Delivery)
    requires AllHashed(c.files) && c.files.Keys == {id} && first.totalChunks == TotalChunks(AtLeastOne(c.files[id].size))
    requires id !in faults.unstaged && id in faults.unwritten && Missing(h.mirror, c.files, id)
    requires forall k: nat :: k < first.totalChunks ==> k in Received(h, id) || k in pieces
    ensures var h' := StageFile(h, id, first, pieces, faults).0;
            && SentFor(c, h', []) && NoProblems(c, h') && AllClean(Log(h', {}, {}), [], 0, unzip, fate)
            && Missing(AfterBatches(Log(h', {}, {}), [], 0, unzip, fate).host.mirror, c.files, id)
  {
    hide StageFile, Unasked, AllClean, SentFor, NoProblems, TotalChunks;
    UnwrittenIsNotAskedAgain(h, c.files, id, first, pieces, faults);
    var h' := StageFile(h, id, first, pieces, faults).0;
    OnlyUnasked(h', c.files, id);
    NothingAskedSucceeds(c, h', unzip, fate);
  }

  lemma OnlyUnasked(h: Host, files: Files, id: Identity)
    requires files.Keys == {id} && id !in Asked(h, files)
    ensures Unasked(h, files) == files.Keys
  {
    forall x | x in files ensures x in Unasked(h, files) { assert x == id; }
  }

  /** A commit that drops the staging makes every file that is not fresh be asked for again. */
  lemma CommitAsksAgain(h: Host, files: Files, id: Identity, commit: Commit)
    requires id in files && Drops(commit) && !Fresh(AfterCommit(h, commit), files, id)
    ensures id in Asked(AfterCommit(h, commit), files)
  {
    assert TotalChunks(AtLeastOne(files[id].size)) >= 1;
  }

  /** A commit after which the index records the whole snapshot leaves nothing for the next manifest to ask for. */
  lemma CommitSettlesIndex(h: Host, files: Files, commit: Commit)
    requires AllHashed(files) && commit.Wanted?
    requires forall id :: id in files ==> id in commit.recorded && files[id].contentHash == Some(commit.recorded[id])
    ensures AskedOf(AfterCommit(h, commit), files) == map[] && AfterCommit(h, commit).mirror == h.mirror
  {
    hide AskedOf;
    RecordedAsksNothing(AfterCommit(h, commit), files);
  }

  // ---------------------------------------------------------------- resuming

  ghost predicate AllUnpack(ps: seq<Pass>, unzip: Unzip) { forall i :: 0 <= i < |ps| ==> Unpacks(ps[i].setting, unzip) }

  lemma {:induction false} PassesTrue(files: Files, l: Log, ps: seq<Pass>, unzip: Unzip)
    requires AllHashed(files) && Sized(files) && Passes(files, l, ps, unzip) && AllUnpack(ps, unzip) && TrueStaged(l.host, files)
    ensures TrueStaged(AfterPasses(l, ps, unzip).host, files)
    decreases |ps|
  {
    hide Unpacks, Good, SentFor, AfterBatches, TrueStaged, Sized, Unblocked, AllClean;
    if ps != [] {
      var p := ps[0];
      PostedIsGood(p.setting, l.host, p.batches, unzip);
      var n := if p.handled <= |p.batches| then p.handled else |p.batches|;
      BatchesTrue(l, p.batches, n, unzip, p.fate, files);
      CommitTrue(AfterBatches(l, p.batches, n, unzip, p.fate).host, p.commit, files);
      PassesTrue(files, AfterPass(l, p, unzip), ps[1..], unzip);
    }
  }

  lemma CommitTrue(h: Host, commit: Commit, files: Files)
    requires AllHashed(files) && TrueStaged(h, files)
    ensures TrueStaged(AfterCommit(h, commit), files)
  {
    hide TrueChunk, TotalChunks, AfterCommit, Received;
    forall id | id in files ensures TrueAt(AfterCommit(h, commit), files, id) {
      CommitReceived(h, commit, id);
      assert TrueAt(h, files, id);
    }
  }

  lemma UnstagedIsTrue(h: Host, files: Files)
    requires AllHashed(files) && Unstaged(h, files)
    ensures TrueStaged(h, files)
  {}

  /**
   Resuming: after any passes over the snapshot, with refused batches, disk faults, commits, and
   each cut short wherever it may, a pass over a sound host has no error; and then the mirror
   lacks exactly the files that an earlier pass could not write although it had all their chunks,
   or that the index wrongly takes for present.
   */
  lemma ResumedPassDelivers(files: Files, h0: Host, ps: seq<Pass>, c: Setting, batches: seq<seq<Piece>>, unzip: Unzip)
    requires AllHashed(files) && Sized(files) && PrefixFree(files.Keys) && Unblocked(h0.mirror, files)
    requires Unstaged(h0, files) && Passes(files, Log(h0, {}, {}), ps, unzip) && AllUnpack(ps, unzip) && Unpacks(c, unzip)
    requires var h := AfterPasses(Log(h0, {}, {}), ps, unzip).host; c.files == files && SentFor(c, h, batches) && NoProblems(c, h)
    ensures var l := AfterPasses(Log(h0, {}, {}), ps, unzip);
            && AllClean(Log(l.host, {}, {}), batches, |batches|, unzip, NoFaults())
            && forall id :: id in files ==>
                 (Missing(AfterBatches(Log(l.host, {}, {}), batches, |batches|, unzip, NoFaults()).host.mirror, files, id) <==>
                  Missing(h0.mirror, files, id) && id !in l.done && (Fresh(l.host, files, id) || id in l.unwritten))
  {
    hide AfterPasses, Passes, AfterBatches, AllClean, SentFor, NoProblems, Unstaged, Sized, Deliver, Fresh, Unpacks, AllUnpack, TrueStaged, PrefixFree, Blocked, Missing;
    var l := AfterPasses(Log(h0, {}, {}), ps, unzip);
    UnstagedIsTrue(h0, files);
    PassesTrue(files, Log(h0, {}, {}), ps, unzip);
    forall id | id in files ensures !Blocked(l.host.mirror, id) {
      AskedAfter(files, h0, ps, unzip, id);
      DeliverKeepsBlocked(h0.mirror, files, l.done, id);
    }
    FaultlessPassIsClean(c, l.host, batches, unzip);
    forall id | id in files
      ensures Missing(AfterBatches(Log(l.host, {}, {}), batches, |batches|, unzip, NoFaults()).host.mirror, files, id) <==>
              Missing(h0.mirror, files, id) && id !in l.done && (Fresh(l.host, files, id) || id in l.unwritten)
    {
      MissingIff(files, h0, ps, c, batches, unzip, NoFaults(), id);
    }
  }
}
