/**
 What a batch request refuses, said of its pieces as they come
 (crates/app/cce-server/src/api/handlers/ingest/{batch,staging}.rs).

 One bad piece of a file spoils the file's whole group, and no other file's.
 */
module BatchErrors {
  import opened Text
  import opened Mirror
  import opened Ordering
  import opened Supply
  import opened Upload
  import opened Ingest
  import opened FullPass

  // ---------------------------------------------------------------- bad pieces

  /** What a piece carries, if it can be unpacked. */
  function Carried(p: Piece, unzip: Unzip): Option<Content> { if p.compressed then unzip(p.payload) else Some(p.payload) }

  /** A piece that does not unpack, is too long, or carries other bytes than its hash says. */
  predicate Damaged(p: Piece, unzip: Unzip)
  {
    var bytes := Carried(p, unzip);
    bytes.None? || |bytes.value| > INGEST_CHUNK_BYTES + 1024 || p.chunkHash != Digest(bytes.value)
  }

  /** An index past the total, or a total past what a file within the bound can have. */
  predicate OutOfRange(p: Piece) { p.chunkIndex >= p.totalChunks || p.totalChunks > MAX_FILE_CHUNKS }

  /** Two pieces that cannot both be of one file's group. */
  predicate Clash(p: Piece, q: Piece)
  {
    p.chunkIndex == q.chunkIndex || p.totalChunks != q.totalChunks || p.contentHash != q.contentHash
  }

  /** Some piece of the file is bad, or some two of them clash. */
  predicate Bad(batch: seq<Piece>, id: Identity, unzip: Unzip)
  {
    || (exists i :: 0 <= i < |batch| && batch[i].relativePath == id && (Damaged(batch[i], unzip) || OutOfRange(batch[i])))
    || (exists i, j :: 0 <= i < j < |batch| && batch[i].relativePath == id && batch[j].relativePath == id && Clash(batch[i], batch[j]))
  }

  // ---------------------------------------------------------------- refused exactly then

  predicate AllFine(entries: seq<Piece>, unzip: Unzip) { forall i :: 0 <= i < |entries| ==> !Damaged(entries[i], unzip) && !OutOfRange(entries[i]) }

  predicate NoClash(entries: seq<Piece>) { forall i, j :: 0 <= i < j < |entries| ==> !Clash(entries[i], entries[j]) }

  lemma DamagedIff(p: Piece, unzip: Unzip)
    ensures DecodePayload(p, unzip).None? <==> Damaged(p, unzip)
  {}

  /** A group decodes exactly when each piece does, fits the first, and no index comes twice. */
  lemma {:induction false} DecodesIff(entries: seq<Piece>, first: Piece, unzip: Unzip)
    ensures DecodePieces(entries, first, unzip).Some? <==>
            && (forall i :: 0 <= i < |entries| ==> Fits(entries[i], first) && !Damaged(entries[i], unzip))
            && (forall i, j :: 0 <= i < j < |entries| ==> entries[i].chunkIndex != entries[j].chunkIndex)
  {
    hide Fits, Damaged, DecodePayload;
    if entries != [] {
      var n := |entries| - 1;
      DecodesIff(entries[..n], first, unzip);
      DecodedKeys(entries[..n], first, unzip);
      DamagedIff(entries[n], unzip);
      assert forall i :: 0 <= i < n ==> entries[..n][i] == entries[i];
    }
  }

  lemma GroupDecodesIff(entries: seq<Piece>, unzip: Unzip)
    requires entries != []
    ensures DecodeGroup(entries, unzip).Some? <==> AllFine(entries, unzip) && NoClash(entries)
  {
    hide Damaged, DecodePieces;
    DecodesIff(entries, entries[0], unzip);
    if AllFine(entries, unzip) && NoClash(entries) {
      forall i | 0 <= i < |entries| ensures Fits(entries[i], entries[0]) {
        assert !OutOfRange(entries[i]);
        if i > 0 { assert !Clash(entries[0], entries[i]); }
      }
      assert !OutOfRange(entries[0]);
      forall i, j | 0 <= i < j < |entries| ensures entries[i].chunkIndex != entries[j].chunkIndex { assert !Clash(entries[i], entries[j]); }
    }
  }

  /** No two pieces of the file clash. */
  predicate FileFits(batch: seq<Piece>, id: Identity)
  {
    forall i, j :: 0 <= i < j < |batch| && batch[i].relativePath == id && batch[j].relativePath == id ==> !Clash(batch[i], batch[j])
  }

  /** No piece of the file clashes with this one. */
  predicate FitsAll(batch: seq<Piece>, id: Identity, last: Piece)
  {
    forall i :: 0 <= i < |batch| && batch[i].relativePath == id ==> !Clash(batch[i], last)
  }

  lemma FileFitsSnoc(batch: seq<Piece>, id: Identity)
    requires batch != []
    ensures var n := |batch| - 1;
            FileFits(batch, id) <==> FileFits(batch[..n], id) && (batch[n].relativePath == id ==> FitsAll(batch[..n], id, batch[n]))
  {
    hide Clash;
    var n := |batch| - 1;
    assert forall i :: 0 <= i < n ==> batch[..n][i] == batch[i];
    if FileFits(batch, id) && batch[n].relativePath == id {
      forall i | 0 <= i < n && batch[..n][i].relativePath == id ensures !Clash(batch[..n][i], batch[n]) { assert !Clash(batch[i], batch[n]); }
    }
  }

  lemma FitsAllIff(batch: seq<Piece>, id: Identity, last: Piece)
    ensures FitsAll(batch, id, last) <==> forall i :: 0 <= i < |GroupOf(batch, id)| ==> !Clash(GroupOf(batch, id)[i], last)
  {
    hide Clash, GroupOf;
    var group := GroupOf(batch, id);
    if FitsAll(batch, id, last) {
      forall i | 0 <= i < |group| ensures !Clash(group[i], last) { var k := GroupMember(batch, id, i); }
    } else {
      var k :| 0 <= k < |batch| && batch[k].relativePath == id && Clash(batch[k], last);
      var i := MemberGrouped(batch, id, k);
      assert Clash(group[i], last);
    }
  }

  /** The pieces of a file, as a group and within the batch. */
  lemma {:induction false} GroupClashIff(batch: seq<Piece>, id: Identity)
    ensures NoClash(GroupOf(batch, id)) <==> FileFits(batch, id)
  {
    hide Clash, NoClash, FileFits, FitsAll;
    if batch == [] {
      NothingClashes(id);
    } else {
      var n := |batch| - 1;
      GroupClashIff(batch[..n], id);
      FileFitsSnoc(batch, id);
      FitsAllIff(batch[..n], id, batch[n]);
      NoClashSnoc(GroupOf(batch[..n], id), batch[n]);
      assert GroupOf(batch[..n], id) + [] == GroupOf(batch[..n], id);
    }
  }

  lemma NothingClashes(id: Identity)
    ensures NoClash(GroupOf([], id)) && FileFits([], id)
  {}

  lemma NoClashSnoc(group: seq<Piece>, last: Piece)
    ensures NoClash(group + [last]) <==> NoClash(group) && forall i :: 0 <= i < |group| ==> !Clash(group[i], last)
  {
    hide Clash;
    var all := group + [last];
    assert forall i :: 0 <= i < |group| ==> all[i] == group[i];
    if NoClash(all) {
      forall i | 0 <= i < |group| ensures !Clash(group[i], last) { assert !Clash(all[i], all[|group|]); }
    }
  }

  lemma GroupFineIff(batch: seq<Piece>, id: Identity, unzip: Unzip)
    ensures AllFine(GroupOf(batch, id), unzip) <==>
            forall i :: 0 <= i < |batch| && batch[i].relativePath == id ==> !Damaged(batch[i], unzip) && !OutOfRange(batch[i])
  {
    hide Damaged, OutOfRange, GroupOf;
    var group := GroupOf(batch, id);
    if AllFine(group, unzip) {
      forall k | 0 <= k < |batch| && batch[k].relativePath == id ensures !Damaged(batch[k], unzip) && !OutOfRange(batch[k]) {
        var i := MemberGrouped(batch, id, k);
      }
    } else {
      var i :| 0 <= i < |group| && (Damaged(group[i], unzip) || OutOfRange(group[i]));
      var k := GroupMember(batch, id, i);
    }
  }

  /** A file's group is refused exactly when one of its pieces is bad or two clash, or its chunks cannot be kept. */
  lemma GroupRefusedIff(h: Host, batch: seq<Piece>, id: Identity, unzip: Unzip, faults: Faults)
    requires Mentions(batch, id)
    ensures var (h', o) := StageGroup(h, batch, id, unzip, faults);
            && (o.Rejected? <==> Bad(batch, id, unzip) || id in faults.unstaged)
            && (o.Rejected? ==> h' == h)
  {
    hide GroupOf, DecodeGroup, Damaged, OutOfRange, Clash, Assembled, Blocked, Write;
    var j :| 0 <= j < |batch| && batch[j].relativePath == id;
    var i := MemberGrouped(batch, id, j);
    GroupDecodesIff(GroupOf(batch, id), unzip);
    GroupFineIff(batch, id, unzip);
    GroupClashIff(batch, id);
  }

  // ---------------------------------------------------------------- the whole request

  /** What one group leaves of another file. */
  lemma GroupSpares(h: Host, batch: seq<Piece>, id: Identity, unzip: Unzip, faults: Faults, x: Identity)
    requires x != id
    ensures var h' := StageGroup(h, batch, id, unzip, faults).0;
            Received(h', x) == Received(h, x) && At(h'.mirror.files, x) == At(h.mirror.files, x)
  {
    hide GroupOf, DecodeGroup, Assembled, Blocked;
  }

  /** A file is untouched: its chunks, its content on the mirror, and its place in the log. */
  predicate Untouched(l: Log, l': Log, id: Identity)
  {
    && Received(l'.host, id) == Received(l.host, id) && At(l'.host.mirror.files, id) == At(l.host.mirror.files, id)
    && (id in l'.done <==> id in l.done) && (id in l'.unwritten <==> id in l.unwritten)
  }

  lemma {:induction false} GroupsRefuse(l: Log, batch: seq<Piece>, ids: seq<Identity>, unzip: Unzip, faults: Faults, id: Identity)
    requires forall x :: x in ids ==> Mentions(batch, x)
    requires id in ids ==> Bad(batch, id, unzip) || id in faults.unstaged
    ensures var (l', failed) := StageGroups(l, batch, ids, unzip, faults);
            Untouched(l, l', id) && (id in failed <==> id in ids)
  {
    hide StageGroup, Received, Bad, Mentions;
    if ids != [] {
      var n := |ids| - 1;
      assert forall x :: x in ids[..n] ==> x in ids;
      assert ids[n] in ids;
      GroupsRefuse(l, batch, ids[..n], unzip, faults, id);
      var (l1, failed) := StageGroups(l, batch, ids[..n], unzip, faults);
      if ids[n] == id {
        GroupRefusedIff(l1.host, batch, id, unzip, faults);
      } else {
        GroupSpares(l1.host, batch, ids[n], unzip, faults, id);
      }
      assert id in ids <==> id in ids[..n] || id == ids[n];
    }
  }

  /**
   What a batch refuses: of a file one piece of which does not unpack, is too long, carries other bytes than
   its hash says or has an index past its total, or two pieces of which have one index or disagree on total
   or file hash, nothing is staged, nothing is written, and an error is reported. So it is when the disk
   keeps none of its chunks; and a file that the batch does not mention is untouched and not reported.
   */
  lemma BatchRefuses(l: Log, batch: seq<Piece>, unzip: Unzip, faults: Faults, id: Identity)
    requires Mentions(batch, id) ==> Bad(batch, id, unzip) || id in faults.unstaged
    ensures var (l', failed) := AfterBatch(l, batch, unzip, faults);
            Untouched(l, l', id) && (id in failed <==> Mentions(batch, id))
  {
    hide StageGroups, SortedKeys, Bad, Mentions, Untouched;
    PathsAreMentioned(batch);
    GroupsRefuse(l, batch, SortedKeys(PathsOf(batch)), unzip, faults, id);
  }

  /** Of any other file it mentions, all pieces are staged. */
  lemma {:induction false} GroupsKeep(l: Log, batch: seq<Piece>, ids: seq<Identity>, unzip: Unzip, faults: Faults, id: Identity, k: nat)
    requires Distinct(ids) && (forall x :: x in ids ==> Mentions(batch, x)) && !Bad(batch, id, unzip) && id !in faults.unstaged
    ensures var l' := StageGroups(l, batch, ids, unzip, faults).0;
            k in Received(l'.host, id) <==> k in Received(l.host, id) || (id in ids && Brings(batch, id, k))
  {
    hide StageGroup, Received, Bad, Mentions, Brings;
    if ids != [] {
      var n := |ids| - 1;
      assert forall x :: x in ids[..n] ==> x in ids;
      assert ids[n] in ids;
      GroupsKeep(l, batch, ids[..n], unzip, faults, id, k);
      var l1 := StageGroups(l, batch, ids[..n], unzip, faults).0;
      if ids[n] == id {
        GroupStages(l1.host, batch, id, unzip, faults, k);
      } else {
        GroupSpares(l1.host, batch, ids[n], unzip, faults, id);
      }
      assert id in ids <==> id in ids[..n] || id == ids[n];
    }
  }

  lemma GroupStages(h: Host, batch: seq<Piece>, id: Identity, unzip: Unzip, faults: Faults, k: nat)
    requires Mentions(batch, id) && !Bad(batch, id, unzip) && id !in faults.unstaged
    ensures var h' := StageGroup(h, batch, id, unzip, faults).0;
            k in Received(h', id) <==> k in Received(h, id) || Brings(batch, id, k)
  {
    hide GroupOf, DecodePieces, Bad, Brings, Assembled, Blocked, Write, Mentions;
    GroupRefusedIff(h, batch, id, unzip, faults);
    var g := GroupOf(batch, id);
    DecodedKeys(g, g[0], unzip);
    BringsGroup(batch, id, k);
  }

  /** A batch stages the pieces of every file whose pieces are good, whatever is wrong with other files. */
  lemma BatchStages(l: Log, batch: seq<Piece>, unzip: Unzip, faults: Faults, id: Identity, k: nat)
    requires !Bad(batch, id, unzip) && id !in faults.unstaged
    ensures k in Received(AfterBatch(l, batch, unzip, faults).0.host, id) <==> k in Received(l.host, id) || Brings(batch, id, k)
  {
    hide StageGroups, SortedKeys, Bad, Received;
    PathsAreMentioned(batch);
    GroupsKeep(l, batch, SortedKeys(PathsOf(batch)), unzip, faults, id, k);
  }

  // ---------------------------------------------------------------- what is written

  /** What a batch may write of a file: within the bound, and under the hash that each of its pieces has. */
  predicate Verified(batch: seq<Piece>, id: Identity, bytes: Content)
  {
    |bytes| <= MAX_INGEST_FILE_BYTES
    && forall i :: 0 <= i < |batch| && batch[i].relativePath == id && batch[i].contentHash.Some? ==> batch[i].contentHash == Some(Digest(bytes))
  }

  lemma GroupWritesVerified(h: Host, batch: seq<Piece>, id: Identity, unzip: Unzip, faults: Faults)
    requires Mentions(batch, id)
    ensures var after := At(StageGroup(h, batch, id, unzip, faults).0.mirror.files, id);
            after != At(h.mirror.files, id) ==> after.Some? && Verified(batch, id, after.value)
  {
    hide GroupOf, DecodeGroup, Assembled, Blocked, Bad;
    GroupRefusedIff(h, batch, id, unzip, faults);
    var (h', o) := StageGroup(h, batch, id, unzip, faults);
    if At(h'.mirror.files, id) != At(h.mirror.files, id) {
      var j :| 0 <= j < |batch| && batch[j].relativePath == id;
      var at := MemberGrouped(batch, id, j);
      var first := GroupMember(batch, id, 0);
      forall i | 0 <= i < |batch| && batch[i].relativePath == id ensures batch[i].contentHash == batch[first].contentHash { OneHash(batch, id, unzip, i, first); }
    }
  }

  lemma OneHash(batch: seq<Piece>, id: Identity, unzip: Unzip, i: nat, j: nat)
    requires !Bad(batch, id, unzip) && i < |batch| && j < |batch| && batch[i].relativePath == id && batch[j].relativePath == id
    ensures batch[i].contentHash == batch[j].contentHash
  {
    hide Damaged, OutOfRange;
    if i < j { assert !Clash(batch[i], batch[j]); }
    if j < i { assert !Clash(batch[j], batch[i]); }
  }

  lemma {:induction false} GroupsWriteVerified(l: Log, batch: seq<Piece>, ids: seq<Identity>, unzip: Unzip, faults: Faults, id: Identity)
    requires forall x :: x in ids ==> Mentions(batch, x)
    ensures var after := At(StageGroups(l, batch, ids, unzip, faults).0.host.mirror.files, id);
            after != At(l.host.mirror.files, id) ==> after.Some? && Verified(batch, id, after.value)
  {
    hide StageGroup, Mentions, Verified;
    if ids != [] {
      var n := |ids| - 1;
      assert forall x :: x in ids[..n] ==> x in ids;
      assert ids[n] in ids;
      GroupsWriteVerified(l, batch, ids[..n], unzip, faults, id);
      var l1 := StageGroups(l, batch, ids[..n], unzip, faults).0;
      if ids[n] == id { GroupWritesVerified(l1.host, batch, id, unzip, faults); } else { GroupSpares(l1.host, batch, ids[n], unzip, faults, id); }
    }
  }

  /** Whatever a batch holds, what it changes on the mirror are files within the bound with the hash its pieces give. */
  lemma BatchWritesVerified(l: Log, batch: seq<Piece>, unzip: Unzip, faults: Faults, id: Identity)
    ensures var after := At(AfterBatch(l, batch, unzip, faults).0.host.mirror.files, id);
            after != At(l.host.mirror.files, id) ==> after.Some? && Verified(batch, id, after.value)
  {
    hide StageGroups, SortedKeys, Verified, Mentions;
    PathsAreMentioned(batch);
    GroupsWriteVerified(l, batch, SortedKeys(PathsOf(batch)), unzip, faults, id);
  }

  lemma {:induction false} GroupsLeaveIndex(l: Log, batch: seq<Piece>, ids: seq<Identity>, unzip: Unzip, faults: Faults)
    ensures StageGroups(l, batch, ids, unzip, faults).0.host.recorded == l.host.recorded
  {
    hide GroupOf, DecodeGroup, Assembled, Blocked, Write;
    if ids != [] { GroupsLeaveIndex(l, batch, ids[..|ids| - 1], unzip, faults); }
  }

  lemma BatchLeavesIndex(l: Log, batch: seq<Piece>, unzip: Unzip, faults: Faults)
    ensures AfterBatch(l, batch, unzip, faults).0.host.recorded == l.host.recorded
  {
    hide StageGroups, SortedKeys;
    GroupsLeaveIndex(l, batch, SortedKeys(PathsOf(batch)), unzip, faults);
  }

  /** A damaged chunk of a manifest's file is asked for again, if it was before. */
  lemma DamagedIsAskedAgain(h: Host, files: Files, batch: seq<Piece>, unzip: Unzip, faults: Faults, id: Identity, k: nat)
    requires Mentions(batch, id) && Bad(batch, id, unzip)
    requires id in AskedOf(h, files) && k in AskedOf(h, files)[id]
    ensures var h' := AfterBatch(Log(h, {}, {}), batch, unzip, faults).0.host;
            id in AskedOf(h', files) && k in AskedOf(h', files)[id]
  {
    hide AfterBatch, AskedOf, Unasked, Received, TotalChunks, Bad, Mentions;
    BatchRefuses(Log(h, {}, {}), batch, unzip, faults, id);
    BatchLeavesIndex(Log(h, {}, {}), batch, unzip, faults);
    AskedIff(h, files, id, k);
    AskedIff(AfterBatch(Log(h, {}, {}), batch, unzip, faults).0.host, files, id, k);
  }
}
