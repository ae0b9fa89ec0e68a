/**
 One full pass end to end: what the gateway's batches leave on the remote host
 (crates/app/cce-gateway/src/sync.rs with crates/app/cce-server/src/api/handlers/ingest).
 */
module FullPass {
  import opened Text
  import opened Mirror
  import opened Ordering
  import opened Supply
  import opened Upload
  import opened Ingest

  // ---------------------------------------------------------------- what a group does

  lemma {:induction false} InGroupIff(batch: seq<Piece>, id: Identity, p: Piece)
    ensures p in GroupOf(batch, id) <==> p in batch && p.relativePath == id
  {
    if batch != [] {
      var n := |batch| - 1;
      InGroupIff(batch[..n], id, p);
      assert batch == batch[..n] + [batch[n]];
    }
  }

  predicate HasIndex(ps: seq<Piece>, k: nat) { exists i :: 0 <= i < |ps| && ps[i].chunkIndex == k }

  lemma {:induction false} DecodedKeys(entries: seq<Piece>, first: Piece, unzip: Unzip)
    ensures var m := DecodePieces(entries, first, unzip);
            m.Some? ==> forall k :: k in m.value <==> HasIndex(entries, k)
  {
    hide Fits, DecodePayload;
    if entries != [] {
      var n := |entries| - 1;
      DecodedKeys(entries[..n], first, unzip);
      var m := DecodePieces(entries, first, unzip);
      if m.Some? {
        forall k ensures k in m.value <==> HasIndex(entries, k) {
          if k == entries[n].chunkIndex {
            assert k in m.value;
          } else if i :| 0 <= i < |entries| && entries[i].chunkIndex == k {
            assert entries[..n][i].chunkIndex == k;
          }
        }
      }
    }
  }

  lemma {:induction false} AssembledIff(pieces: map<nat, Content>, total: nat)
    ensures Assembled(pieces, total).Some? <==> forall k: nat :: k < total ==> k in pieces
  {
    if total > 0 { AssembledIff(pieces, total - 1); }
  }

  /** A piece of the file with that index is among the pieces. */
  predicate Brings(ps: seq<Piece>, id: Identity, k: nat)
  {
    exists i :: 0 <= i < |ps| && ps[i].relativePath == id && ps[i].chunkIndex == k
  }

  predicate Mentions(ps: seq<Piece>, id: Identity) { exists i :: 0 <= i < |ps| && ps[i].relativePath == id }

  /** The pieces are of the snapshot's files, as the snapshot has them. */
  predicate Conform(files: Files, ps: seq<Piece>)
    requires AllHashed(files)
  {
    forall i :: 0 <= i < |ps| ==>
      && ps[i].relativePath in files
      && ps[i].contentHash == files[ps[i].relativePath].contentHash
      && ps[i].chunkIndex < ps[i].totalChunks == TotalChunks(AtLeastOne(files[ps[i].relativePath].size))
  }

  /** Every chunk of the file is staged. */
  predicate Complete(h: Host, files: Files, id: Identity)
    requires id in files
  {
    forall k: nat :: k < TotalChunks(AtLeastOne(files[id].size)) ==> k in Received(h, id)
  }

  lemma GroupMember(batch: seq<Piece>, id: Identity, i: nat) returns (j: nat)
    requires i < |GroupOf(batch, id)|
    ensures j < |batch| && batch[j] == GroupOf(batch, id)[i] && batch[j].relativePath == id
  {
    hide GroupOf;
    InGroupIff(batch, id, GroupOf(batch, id)[i]);
    j :| 0 <= j < |batch| && batch[j] == GroupOf(batch, id)[i];
  }

  lemma MemberGrouped(batch: seq<Piece>, id: Identity, j: nat) returns (i: nat)
    requires j < |batch| && batch[j].relativePath == id
    ensures i < |GroupOf(batch, id)| && GroupOf(batch, id)[i] == batch[j]
  {
    hide GroupOf;
    InGroupIff(batch, id, batch[j]);
    i :| 0 <= i < |GroupOf(batch, id)| && GroupOf(batch, id)[i] == batch[j];
  }

  lemma BringsGroup(batch: seq<Piece>, id: Identity, k: nat)
    ensures Brings(batch, id, k) <==> HasIndex(GroupOf(batch, id), k)
  {
    hide GroupOf;
    if Brings(batch, id, k) {
      var j :| 0 <= j < |batch| && batch[j].relativePath == id && batch[j].chunkIndex == k;
      var i := MemberGrouped(batch, id, j);
    }
    if HasIndex(GroupOf(batch, id), k) {
      var i :| 0 <= i < |GroupOf(batch, id)| && GroupOf(batch, id)[i].chunkIndex == k;
      var j := GroupMember(batch, id, i);
    }
  }

  lemma StageGroupOthers(h: Host, batch: seq<Piece>, id: Identity, unzip: Unzip, faults: Faults, x: Identity)
    requires x != id
    ensures Received(StageGroup(h, batch, id, unzip, faults).0, x) == Received(h, x)
  {
    hide GroupOf, DecodeGroup, Assembled, Blocked, Write;
  }

  lemma StageFileShape(h: Host, id: Identity, first: Piece, pieces: map<nat, Content>, faults: Faults)
    requires first.contentHash.Some?
    ensures var (h', o) := StageFile(h, id, first, pieces, faults);
            && (o.Rejected? ==> h' == h)
            && (!o.Rejected? ==> Received(h', id).Keys == Received(h, id).Keys + pieces.Keys)
            && (!o.Rejected? ==> ((o.Done? || o.Unwritten?) <==> forall k: nat :: k < first.totalChunks ==> k in Received(h', id)))
            && (if o.Done? then h'.mirror == Write(h.mirror, id, first.contentHash.value.content) && !Blocked(h.mirror, id) else h'.mirror == h.mirror)
  {
    hide Assembled, Blocked, Write;
    AssembledIff(Received(h, id) + pieces, first.totalChunks);
  }

  /** What becomes of a file's group: all of it or nothing is staged, and it is written only as the snapshot has it. */
  lemma StageGroupShape(h: Host, batch: seq<Piece>, id: Identity, unzip: Unzip, faults: Faults, files: Files)
    requires AllHashed(files) && Conform(files, batch) && Mentions(batch, id)
    ensures id in files
    ensures var (h', o) := StageGroup(h, batch, id, unzip, faults);
            && (o.Rejected? ==> h' == h)
            && (!o.Rejected? ==> forall k :: k in Received(h', id) <==> k in Received(h, id) || Brings(batch, id, k))
            && (!o.Rejected? ==> ((o.Done? || o.Unwritten?) <==> Complete(h', files, id)))
            && (if o.Done? then h'.mirror == Write(h.mirror, id, ContentOf(files, id)) && !Blocked(h.mirror, id) else h'.mirror == h.mirror)
  {
    hide GroupOf, StageFile, DecodePieces, TotalChunks, Received, Blocked, Write;
    var g := GroupOf(batch, id);
    assert g != [] by {
      var j :| 0 <= j < |batch| && batch[j].relativePath == id;
      var i := MemberGrouped(batch, id, j);
    }
    var j := GroupMember(batch, id, 0);
    DecodedKeys(g, g[0], unzip);
    if DecodeGroup(g, unzip).Some? {
      var pieces := DecodeGroup(g, unzip).value;
      assert pieces == DecodePieces(g, g[0], unzip).value;
      StageFileShape(h, id, g[0], pieces, faults);
      var (h', o) := StageGroup(h, batch, id, unzip, faults);
      if !o.Rejected? {
        forall k ensures k in Received(h', id) <==> k in Received(h, id) || Brings(batch, id, k) {
          BringsGroup(batch, id, k);
          assert k in Received(h', id).Keys <==> k in Received(h, id).Keys + pieces.Keys;
        }
      }
    }
  }

  // ---------------------------------------------------------------- what batches do to one file

  /** What some pieces do to one file; `clean` if no error was reported for them. */
  ghost predicate Took(l: Log, l': Log, files: Files, ps: seq<Piece>, id: Identity, clean: bool)
  {
    && (forall k :: k in Received(l.host, id) ==> k in Received(l'.host, id))
    && (forall k :: k in Received(l'.host, id) ==> k in Received(l.host, id) || Brings(ps, id, k))
    && (id in l.done ==> id in l'.done) && (id in l.unwritten ==> id in l'.unwritten)
    && (!Mentions(ps, id) ==> (id in l'.done <==> id in l.done) && (id in l'.unwritten <==> id in l.unwritten))
    && (id in files && Complete(l'.host, files, id) ==> Complete(l.host, files, id) || id in l'.done || id in l'.unwritten)
    && (id in files && id in l'.unwritten ==> id in l.unwritten || Complete(l'.host, files, id))
    && (clean ==>
          && (forall k :: Brings(ps, id, k) ==> k in Received(l'.host, id))
          && (Mentions(ps, id) && id in files && Complete(l'.host, files, id) ==> id in l'.done))
  }

  lemma GroupTook(l: Log, batch: seq<Piece>, id: Identity, unzip: Unzip, faults: Faults, files: Files)
    requires AllHashed(files) && Conform(files, batch) && Mentions(batch, id)
    ensures var r := StageGroup(l.host, batch, id, unzip, faults);
            Took(l, Logged(l, id, r), files, batch, id, !r.1.Rejected? && !r.1.Unwritten?)
  {
    hide StageGroup, Received, Brings, Mentions, TotalChunks;
    StageGroupShape(l.host, batch, id, unzip, faults, files);
  }

  lemma TookFromSame(l: Log, l1: Log, l2: Log, files: Files, ps: seq<Piece>, id: Identity, clean: bool)
    requires Received(l1.host, id) == Received(l.host, id) && (id in l1.done <==> id in l.done) && (id in l1.unwritten <==> id in l.unwritten)
    requires Took(l1, l2, files, ps, id, clean)
    ensures Took(l, l2, files, ps, id, clean)
  {}

  lemma TookToSame(l: Log, l1: Log, l2: Log, files: Files, ps: seq<Piece>, id: Identity, clean: bool, clean': bool)
    requires Received(l2.host, id) == Received(l1.host, id) && (id in l2.done <==> id in l1.done) && (id in l2.unwritten <==> id in l1.unwritten)
    requires Took(l, l1, files, ps, id, clean) && (clean' ==> clean)
    ensures Took(l, l2, files, ps, id, clean')
  {}

  lemma {:induction false} GroupsTook(l: Log, batch: seq<Piece>, ids: seq<Identity>, unzip: Unzip, faults: Faults, files: Files, id: Identity)
    requires AllHashed(files) && Conform(files, batch) && Distinct(ids) && forall x :: x in ids ==> Mentions(batch, x)
    ensures var (l', failed) := StageGroups(l, batch, ids, unzip, faults);
            if id in ids then Took(l, l', files, batch, id, failed == [])
            else Received(l'.host, id) == Received(l.host, id) && (id in l'.done <==> id in l.done) && (id in l'.unwritten <==> id in l.unwritten)
  {
    hide StageGroup, Took, Received, Mentions, Conform;
    if ids != [] {
      var n := |ids| - 1;
      var (l1, failed) := StageGroups(l, batch, ids[..n], unzip, faults);
      GroupsTook(l, batch, ids[..n], unzip, faults, files, id);
      assert ids == ids[..n] + [ids[n]];
      var r := StageGroup(l1.host, batch, ids[n], unzip, faults);
      var l2, clean := Logged(l1, ids[n], r), !r.1.Rejected? && !r.1.Unwritten?;
      assert StageGroups(l, batch, ids, unzip, faults).1 == [] <==> failed == [] && clean;
      if id == ids[n] {
        assert id !in ids[..n];
        GroupTook(l1, batch, id, unzip, faults, files);
        TookFromSame(l, l1, l2, files, batch, id, clean);
        TookToSame(l, l2, l2, files, batch, id, clean, StageGroups(l, batch, ids, unzip, faults).1 == []);
      } else {
        StageGroupOthers(l1.host, batch, ids[n], unzip, faults, id);
        if id in ids { TookToSame(l, l1, l2, files, batch, id, failed == [], StageGroups(l, batch, ids, unzip, faults).1 == []); }
      }
    }
  }

  lemma PathsAreMentioned(batch: seq<Piece>)
    ensures forall x :: x in SortedKeys(PathsOf(batch)) <==> Mentions(batch, x)
  {
    hide SortedKeys;
    forall x ensures x in PathsOf(batch) <==> Mentions(batch, x) {}
  }

  lemma BatchTook(l: Log, batch: seq<Piece>, unzip: Unzip, faults: Faults, files: Files, id: Identity)
    requires AllHashed(files) && Conform(files, batch)
    ensures var (l', failed) := AfterBatch(l, batch, unzip, faults); Took(l, l', files, batch, id, failed == [])
  {
    hide StageGroups, SortedKeys, Conform, Received, Mentions;
    PathsAreMentioned(batch);
    var ids := SortedKeys(PathsOf(batch));
    GroupsTook(l, batch, ids, unzip, faults, files, id);
    if id !in ids { UnmentionedTook(l, AfterBatch(l, batch, unzip, faults).0, files, batch, id, AfterBatch(l, batch, unzip, faults).1 == []); }
  }

  lemma UnmentionedTook(l: Log, l': Log, files: Files, ps: seq<Piece>, id: Identity, clean: bool)
    requires !Mentions(ps, id)
    requires Received(l'.host, id) == Received(l.host, id) && (id in l'.done <==> id in l.done) && (id in l'.unwritten <==> id in l.unwritten)
    ensures Took(l, l', files, ps, id, clean)
  {
    forall k ensures !Brings(ps, id, k) {}
  }

  lemma MoreMentions(ps: seq<Piece>, qs: seq<Piece>, id: Identity)
    ensures forall k :: Brings(ps + qs, id, k) <==> Brings(ps, id, k) || Brings(qs, id, k)
    ensures Mentions(ps + qs, id) <==> Mentions(ps, id) || Mentions(qs, id)
  {
    var all := ps + qs;
    assert forall i :: 0 <= i < |ps| ==> all[i] == ps[i];
    assert forall i :: 0 <= i < |qs| ==> all[|ps| + i] == qs[i];
  }

  lemma NotMentioned(l: Log, l': Log, files: Files, ps: seq<Piece>, id: Identity, clean: bool)
    requires Took(l, l', files, ps, id, clean) && !Mentions(ps, id) && id in files
    ensures Complete(l'.host, files, id) <==> Complete(l.host, files, id)
  {
    forall k ensures k in Received(l'.host, id) <==> k in Received(l.host, id) { assert !Brings(ps, id, k); }
  }

  lemma TookBoth(l: Log, l1: Log, l2: Log, files: Files, ps: seq<Piece>, qs: seq<Piece>, id: Identity, c1: bool, c2: bool)
    requires Took(l, l1, files, ps, id, c1) && Took(l1, l2, files, qs, id, c2)
    ensures Took(l, l2, files, ps + qs, id, c1 && c2)
  {
    hide Received, Brings, Mentions, TotalChunks;
    MoreMentions(ps, qs, id);
    if id in files && !Mentions(qs, id) { NotMentioned(l1, l2, files, qs, id, c2); }
  }

  lemma {:induction false} BatchesTook(l: Log, batches: seq<seq<Piece>>, n: nat, unzip: Unzip, fate: nat -> Delivery, files: Files, id: Identity)
    requires n <= |batches| && AllHashed(files)
    requires forall i :: 0 <= i < |batches| ==> Conform(files, batches[i])
    ensures Took(l, AfterBatches(l, batches, n, unzip, fate), files, Flatten(batches[..n]), id, AllClean(l, batches, n, unzip, fate))
  {
    hide AfterBatch, Took, Flatten, Conform;
    if n == 0 {
      assert batches[..0] == [];
      TookNothing(l, files, id);
    } else {
      var before := AfterBatches(l, batches, n - 1, unzip, fate);
      BatchesTook(l, batches, n - 1, unzip, fate, files, id);
      assert batches[..n] == batches[..n - 1] + [batches[n - 1]];
      FlattenSnoc(batches[..n - 1], batches[n - 1]);
      var clean := AllClean(l, batches, n - 1, unzip, fate);
      if fate(n - 1).Handled? {
        BatchTook(before, batches[n - 1], unzip, fate(n - 1).faults, files, id);
        var r := AfterBatch(before, batches[n - 1], unzip, fate(n - 1).faults);
        TookBoth(l, before, r.0, files, Flatten(batches[..n - 1]), batches[n - 1], id, clean, r.1 == []);
      } else {
        RefusedTook(before, files, batches[n - 1], id);
        TookBoth(l, before, before, files, Flatten(batches[..n - 1]), batches[n - 1], id, clean, false);
      }
    }
  }

  lemma TookNothing(l: Log, files: Files, id: Identity)
    ensures Took(l, l, files, Flatten([]), id, true)
  {}

  lemma RefusedTook(l: Log, files: Files, ps: seq<Piece>, id: Identity)
    ensures Took(l, l, files, ps, id, false)
  {}

  // ---------------------------------------------------------------- what batches do to the mirror

  lemma {:induction false} GroupsDeliver(l: Log, batch: seq<Piece>, ids: seq<Identity>, unzip: Unzip, faults: Faults, files: Files, m: Mirror)
    requires AllHashed(files) && Conform(files, batch) && forall x :: x in ids ==> Mentions(batch, x)
    requires l.host.mirror == Deliver(m, files, l.done)
    ensures var l' := StageGroups(l, batch, ids, unzip, faults).0; l'.host.mirror == Deliver(m, files, l'.done)
  {
    hide StageGroup, Mentions, Conform, Deliver, Write, Blocked, Brings, Complete, Received;
    if ids != [] {
      var n := |ids| - 1;
      assert ids[n] in ids;
      GroupsDeliver(l, batch, ids[..n], unzip, faults, files, m);
      var l1 := StageGroups(l, batch, ids[..n], unzip, faults).0;
      StageGroupShape(l1.host, batch, ids[n], unzip, faults, files);
      DeliverOne(l1.host.mirror, files, ids[n]);
      DeliverBoth(m, files, l1.done, {ids[n]});
      assert l1.done + {} == l1.done;
    }
  }

  /**
   A pass delivers some of its snapshot's files, whatever becomes of its batches and however
   early it ends, and changes nothing else on the mirror.
   */
  lemma {:induction false} PassDelivers(l: Log, batches: seq<seq<Piece>>, n: nat, unzip: Unzip, fate: nat -> Delivery, files: Files, m: Mirror)
    requires n <= |batches| && AllHashed(files) && forall i :: 0 <= i < |batches| ==> Conform(files, batches[i])
    requires l.host.mirror == Deliver(m, files, l.done)
    ensures var l' := AfterBatches(l, batches, n, unzip, fate); l'.host.mirror == Deliver(m, files, l'.done)
  {
    hide StageGroups, Conform, Deliver, SortedKeys, Mentions;
    if n > 0 {
      PassDelivers(l, batches, n - 1, unzip, fate, files, m);
      PathsAreMentioned(batches[n - 1]);
      if fate(n - 1).Handled? {
        GroupsDeliver(AfterBatches(l, batches, n - 1, unzip, fate), batches[n - 1], SortedKeys(PathsOf(batches[n - 1])), unzip, fate(n - 1).faults, files, m);
      }
    }
  }

  /** Only files that nothing on the mirror blocked are delivered. */
  ghost predicate FreeAtFirst(l: Log, m: Mirror, files: Files)
    requires AllHashed(files)
  {
    l.host.mirror == Deliver(m, files, l.done) && forall id :: id in l.done ==> id in files && !Blocked(m, id)
  }

  lemma {:induction false} GroupsFree(l: Log, batch: seq<Piece>, ids: seq<Identity>, unzip: Unzip, faults: Faults, files: Files, m: Mirror)
    requires AllHashed(files) && PrefixFree(files.Keys) && Conform(files, batch) && forall x :: x in ids ==> Mentions(batch, x)
    requires FreeAtFirst(l, m, files)
    ensures FreeAtFirst(StageGroups(l, batch, ids, unzip, faults).0, m, files)
  {
    hide StageGroup, Mentions, Conform, Deliver, Write, Blocked, Brings, Complete, Received, PrefixFree;
    if ids != [] {
      var n := |ids| - 1;
      assert ids[n] in ids;
      GroupsFree(l, batch, ids[..n], unzip, faults, files, m);
      var l1 := StageGroups(l, batch, ids[..n], unzip, faults).0;
      StageGroupShape(l1.host, batch, ids[n], unzip, faults, files);
      GroupsDeliver(l, batch, ids, unzip, faults, files, m);
      DeliverKeepsBlocked(m, files, l1.done, ids[n]);
    }
  }

  lemma {:induction false} PassFree(l: Log, batches: seq<seq<Piece>>, n: nat, unzip: Unzip, fate: nat -> Delivery, files: Files, m: Mirror)
    requires n <= |batches| && AllHashed(files) && PrefixFree(files.Keys) && forall i :: 0 <= i < |batches| ==> Conform(files, batches[i])
    requires FreeAtFirst(l, m, files)
    ensures FreeAtFirst(AfterBatches(l, batches, n, unzip, fate), m, files)
  {
    hide StageGroups, Conform, FreeAtFirst, SortedKeys, Mentions, PrefixFree;
    if n > 0 {
      PassFree(l, batches, n - 1, unzip, fate, files, m);
      PathsAreMentioned(batches[n - 1]);
      if fate(n - 1).Handled? {
        GroupsFree(AfterBatches(l, batches, n - 1, unzip, fate), batches[n - 1], SortedKeys(PathsOf(batches[n - 1])), unzip, fate(n - 1).faults, files, m);
      }
    }
  }

  // ---------------------------------------------------------------- what the gateway sends

  lemma {:induction false} FlattenHas(batches: seq<seq<Piece>>, i: nat, p: Piece)
    requires i < |batches| && p in batches[i]
    ensures p in Flatten(batches)
  {
    if i > 0 { FlattenHas(batches[1..], i - 1, p); }
  }

  lemma BatchesConform(files: Files, batches: seq<seq<Piece>>)
    requires AllHashed(files) && Conform(files, Flatten(batches))
    ensures forall i :: 0 <= i < |batches| ==> Conform(files, batches[i])
  {
    hide Flatten;
    forall i, j | 0 <= i < |batches| && 0 <= j < |batches[i]| ensures Conform(files, [batches[i][j]]) {
      FlattenHas(batches, i, batches[i][j]);
      var k :| 0 <= k < |Flatten(batches)| && Flatten(batches)[k] == batches[i][j];
    }
    forall i | 0 <= i < |batches| ensures Conform(files, batches[i]) {
      forall j | 0 <= j < |batches[i]| ensures Conform(files, [batches[i][j]]) {}
      assert forall j :: 0 <= j < |batches[i]| ==> [batches[i][j]][0] == batches[i][j];
    }
  }

  /** A file that can be sent is on disk as the snapshot has it. */
  lemma SendableIsTrue(c: Setting, id: Identity)
    requires AllHashed(c.files) && Sized(c.files) && Problem(c, id).None?
    ensures id in c.files && id in c.disk && c.disk[id] == c.files[id].contentHash.value.content
    ensures |c.disk[id]| == c.files[id].size <= MAX_INGEST_FILE_BYTES
  {
    assert Digest(c.disk[id]) == c.files[id].contentHash.value;
  }

  lemma SentConforms(c: Setting, w: Wanted, ps: seq<Piece>)
    requires AllHashed(c.files) && Sized(c.files)
    requires forall p :: p in ps ==> IsPiece(c, w, p)
    ensures Conform(c.files, ps)
  {
    hide Problem, TotalChunks;
    forall i | 0 <= i < |ps| ensures Conform(c.files, [ps[i]]) {
      assert IsPiece(c, w, ps[i]);
      SendableIsTrue(c, ps[i].relativePath);
    }
    assert forall i :: 0 <= i < |ps| ==> [ps[i]][0] == ps[i];
  }

  /** The pieces of a pass whose manifest asked for `AskedOf`, in the batches it posted. */
  predicate SentFor(c: Setting, h: Host, batches: seq<seq<Piece>>)
  {
    var w := AskedOf(h, c.files);
    Flatten(batches) == AllPieces(c, w, SortedKeys(w.Keys))
  }

  predicate NoProblems(c: Setting, h: Host)
  {
    forall id :: id in AskedOf(h, c.files) ==> Problem(c, id).None?
  }

  /** What was sent of one file: nothing of one that was not asked for, all missing chunks of one that was. */
  lemma SentOf(c: Setting, h: Host, ps: seq<Piece>, id: Identity)
    requires AllHashed(c.files) && Sized(c.files) && NoProblems(c, h)
    requires ps == AllPieces(c, AskedOf(h, c.files), SortedKeys(AskedOf(h, c.files).Keys))
    ensures Conform(c.files, ps)
    ensures Mentions(ps, id) <==> id in c.files && id !in Unasked(h, c.files)
    ensures id in c.files && id !in Unasked(h, c.files) ==>
              forall k: nat :: k < TotalChunks(AtLeastOne(c.files[id].size)) ==> k in Received(h, id) || Brings(ps, id, k)
  {
    hide AskedOf, AllPieces, SortedKeys, Problem, TotalChunks, PieceOf, InOrder, Received, Skips;
    var w := AskedOf(h, c.files);
    AllPiecesExact(c, w, SortedKeys(w.Keys));
    SentConforms(c, w, ps);
    if Mentions(ps, id) {
      var i :| 0 <= i < |ps| && ps[i].relativePath == id;
      assert IsPiece(c, w, ps[i]);
      AskedIff(h, c.files, id, ps[i].chunkIndex);
    }
    if id in c.files && id !in Unasked(h, c.files) {
      var total := TotalChunks(AtLeastOne(c.files[id].size));
      forall k: nat | k < total && k !in Received(h, id) ensures Brings(ps, id, k) {
        AskedIff(h, c.files, id, k);
        SendableIsTrue(c, id);
        assert PieceOf(c, id, k) in ps;
        assert PieceOf(c, id, k).relativePath == id && PieceOf(c, id, k).chunkIndex == k;
      }
      var k := SomethingAsked(h, c.files, id);
      assert Brings(ps, id, k);
    }
  }

  // ---------------------------------------------------------------- what a pass does

  /** The files of which something is asked. */
  function Asked(h: Host, files: Files): set<Identity> { files.Keys - Unasked(h, files) }

  /** What a pass has delivered by the end, if it was without an error: all it was asked for. */
  lemma CleanPassDelivers(c: Setting, h: Host, batches: seq<seq<Piece>>, unzip: Unzip, fate: nat -> Delivery)
    requires AllHashed(c.files) && Sized(c.files)
    requires SentFor(c, h, batches) && NoProblems(c, h)
    requires AllClean(Log(h, {}, {}), batches, |batches|, unzip, fate)
    ensures var l := AfterBatches(Log(h, {}, {}), batches, |batches|, unzip, fate);
            l.done == Asked(h, c.files) && l.host.mirror == Deliver(h.mirror, c.files, Asked(h, c.files))
  {
    hide AskedOf, AllPieces, SortedKeys, NoProblems, AfterBatches, AllClean, Unasked, Conform, Flatten, Brings, Mentions, Received, TotalChunks, Deliver;
    var ps, start := Flatten(batches), Log(h, {}, {});
    var l := AfterBatches(start, batches, |batches|, unzip, fate);
    assert batches[..|batches|] == batches;
    forall id ensures id in l.done <==> id in Asked(h, c.files) {
      SentOf(c, h, ps, id);
      BatchesConform(c.files, batches);
      BatchesTook(start, batches, |batches|, unzip, fate, c.files, id);
    }
    SentOf(c, h, ps, "");
    BatchesConform(c.files, batches);
    DeliverNone(h.mirror, c.files);
    PassDelivers(start, batches, |batches|, unzip, fate, c.files, h.mirror);
    assert l.done == Asked(h, c.files);
  }

  /** Without any assumption on reads and faults, what a pass delivers is among what it was asked for. */
  lemma DeliveredIsAsked(c: Setting, h: Host, batches: seq<seq<Piece>>, n: nat, unzip: Unzip, fate: nat -> Delivery)
    requires AllHashed(c.files) && Sized(c.files) && SentFor(c, h, batches) && n <= |batches|
    ensures var l := AfterBatches(Log(h, {}, {}), batches, n, unzip, fate);
            && l.done <= Asked(h, c.files) && l.host.mirror == Deliver(h.mirror, c.files, l.done)
            && (PrefixFree(c.files.Keys) ==> forall id :: id in l.done ==> !Blocked(h.mirror, id))
  {
    hide AskedOf, AllPieces, SortedKeys, AfterBatches, AllClean, Unasked, Conform, Flatten, Brings, Received, TotalChunks, Deliver, IsPiece, PrefixFree, Blocked;
    var w, start := AskedOf(h, c.files), Log(h, {}, {});
    var ps := Flatten(batches);
    AllPiecesExact(c, w, SortedKeys(w.Keys));
    SentConforms(c, w, ps);
    BatchesConform(c.files, batches);
    var l := AfterBatches(start, batches, n, unzip, fate);
    forall id | id in l.done ensures id in Asked(h, c.files) {
      BatchesTook(start, batches, n, unzip, fate, c.files, id);
      var some := Flatten(batches[..n]);
      var i :| 0 <= i < |some| && some[i].relativePath == id;
      FlattenPrefix(batches, n);
      assert some[i] in ps;
      PieceIsAsked(c, h, w, some[i]);
    }
    DeliverNone(h.mirror, c.files);
    PassDelivers(start, batches, n, unzip, fate, c.files, h.mirror);
    if PrefixFree(c.files.Keys) { PassFree(start, batches, n, unzip, fate, c.files, h.mirror); }
  }

  lemma PieceIsAsked(c: Setting, h: Host, w: Wanted, p: Piece)
    requires w == AskedOf(h, c.files) && IsPiece(c, w, p)
    ensures p.relativePath in Asked(h, c.files)
  {
    hide AskedOf, Unasked;
    AskedIff(h, c.files, p.relativePath, p.chunkIndex);
  }

  lemma {:induction false} FlattenPrefix(batches: seq<seq<Piece>>, n: nat)
    requires n <= |batches|
    ensures forall p :: p in Flatten(batches[..n]) ==> p in Flatten(batches)
  {
    if n > 0 {
      assert batches[..n][1..] == batches[1..][..n - 1];
      FlattenPrefix(batches[1..], n - 1);
    }
  }

  /** The answers the gateway gets are the host's: an accepted batch was handled, without an error if none is listed. */
  predicate Truthful(c: Setting, h: Host, batches: seq<seq<Piece>>, unzip: Unzip, fate: nat -> Delivery)
  {
    forall i {:trigger c.respond(i)} :: 0 <= i < |batches| && c.respond(i).Staged? ==>
      && fate(i).Handled?
      && (c.respond(i).messages == [] ==>
            AfterBatch(AfterBatches(Log(h, {}, {}), batches, i, unzip, fate), batches[i], unzip, fate(i).faults).1 == [])
  }

  lemma {:induction false} AcceptedIsClean(c: Setting, h: Host, batches: seq<seq<Piece>>, n: nat, unzip: Unzip, fate: nat -> Delivery)
    requires n <= |batches| && Truthful(c, h, batches, unzip, fate) && AllAccepted(c, n)
    ensures AllClean(Log(h, {}, {}), batches, n, unzip, fate)
  {
    hide AfterBatch;
    if n > 0 {
      AcceptedIsClean(c, h, batches, n - 1, unzip, fate);
      assert c.respond(n - 1).Staged?;
    }
  }

  /** No problem is reported exactly when no file asked for has one. */
  lemma NoProblemsIff(c: Setting, h: Host)
    ensures NoProblems(c, h) <==> Problems(c, SortedKeys(AskedOf(h, c.files).Keys)) == []
  {
    hide Problems, Problem, AskedOf, SortedKeys;
    var ids := SortedKeys(AskedOf(h, c.files).Keys);
    ProblemsExact(c, ids);
    if NoProblems(c, h) {
      forall e ensures e !in Problems(c, ids) {}
      HasNone(Problems(c, ids));
    }
  }

  /** The files with a chunk asked for are files of the manifest. */
  lemma AskedOfAreFiles(h: Host, files: Files, id: Identity)
    requires id in AskedOf(h, files)
    ensures id in files
  {
    hide UploadOf, MissingOf, SortedKeys;
    var ids := SortedKeys(files.Keys);
    var upload, missing := UploadOf(h, files, ids), MissingOf(h, files, ids);
    MissingOfInOrder(h, files, ids);
    WantMissingKeys(missing, WantUploads(files, upload, map[]), id);
    WantUploadsAt(files, upload, map[], id);
  }

  /** A host asks for files of the manifest only. */
  lemma NoneVanished(c: Setting, h: Host)
    ensures Vanished(c, UploadOf(h, c.files, SortedKeys(c.files.Keys))) == []
  {
    hide UploadOf, SortedKeys;
    var ids := SortedKeys(c.files.Keys);
    UploadInOrder(h, c.files, ids);
    KnownDoNotVanish(c, UploadOf(h, c.files, ids));
  }

  lemma {:induction false} KnownDoNotVanish(c: Setting, upload: seq<Identity>)
    requires forall id :: id in upload ==> id in c.files
    ensures Vanished(c, upload) == []
  {
    if upload != [] { KnownDoNotVanish(c, upload[1..]); }
  }

  /**
   A commit, and whether it is answered without an error: the index records hashes, some of them even
   if it errs in the end, and the staging is dropped if the index run succeeds.
   */
  datatype Commit = NotWanted | Wanted(ok: bool, recorded: map<Identity, Digest>, drops: bool)

  predicate Drops(commit: Commit) { commit.Wanted? && commit.drops }

  function AfterCommit(h: Host, commit: Commit): Host
  {
    if commit.Wanted? then Host(h.mirror, if commit.drops then map[] else h.staged, commit.recorded) else h
  }

  /** All that was asked for could be sent, and every batch was taken without a complaint. */
  predicate Uploaded(c: Setting, h: Host, posted: nat) { NoProblems(c, h) && AllAccepted(c, posted) }

  /** When a pass ends without an error. */
  predicate PassSucceeds(c: Setting, h: Host, posted: nat, manifestOk: bool, commit: Commit)
  {
    manifestOk && Uploaded(c, h, posted) && (commit.Wanted? ==> commit.ok)
  }

  /** What a pass leaves: what its batches leave, and the commit if there was no error before it. */
  function PassLeaves(c: Setting, h: Host, posted: seq<seq<Piece>>, unzip: Unzip, fate: nat -> Delivery, commit: Commit): Log
  {
    var l := AfterBatches(Log(h, {}, {}), posted, |posted|, unzip, fate);
    if Uploaded(c, h, |posted|) then l.(host := AfterCommit(l.host, commit)) else l
  }

  /** With the host's own answers, everything uploaded is everything delivered. */
  lemma UploadedDelivers(c: Setting, h: Host, posted: seq<seq<Piece>>, unzip: Unzip, fate: nat -> Delivery)
    requires AllHashed(c.files) && Sized(c.files) && SentFor(c, h, posted) && Uploaded(c, h, |posted|)
    ensures Truthful(c, h, posted, unzip, fate) ==>
              AfterBatches(Log(h, {}, {}), posted, |posted|, unzip, fate).done == Asked(h, c.files)
  {
    hide AfterBatches, SentFor, NoProblems, AllAccepted, AllClean, Deliver, Unasked;
    if Truthful(c, h, posted, unzip, fate) {
      AcceptedIsClean(c, h, posted, |posted|, unzip, fate);
      CleanPassDelivers(c, h, posted, unzip, fate);
    }
  }

  /** Bounded batches, of which all but the last had to be posted. */
  predicate InBatches(posted: seq<seq<Piece>>)
  {
    forall i :: 0 <= i < |posted| ==> Bounded(posted[i]) && (i < |posted| - 1 ==> FullBatch(posted[i]))
  }

  /** The part of `sync_once` between its scan and its commit: the manifest's answer, and the uploads it asks for. */
  method UploadAsked(c: Setting, h: Host) returns (clean: bool, posted: seq<seq<Piece>>)
    ensures SentFor(c, h, posted) && InBatches(posted)
    ensures clean <==> Uploaded(c, h, |posted|)
  {
    hide AskedOf, WantedOf, AllPieces, SortedKeys, Problems, Vanished, Flatten, UploadOf, MissingOf, NoProblems, AllAccepted, Bounded, FullBatch;
    var upload, missingChunks := HandleIngestManifest(h, c.files);
    var pass := new UploadPass(c);
    pass.UploadPaths(upload, missingChunks);
    NoProblemsIff(c, h);
    NoneVanished(c, h);
    return pass.errors == [], pass.posted;
  }

  /**
   `sync_once` over the snapshot of its scan, which may reuse hashes of right sizes: manifest,
   uploads, and the commit if one is wanted and no error was reported. It posts what the manifest is
   answered with, in bounded batches, and succeeds exactly if nothing on the way failed. Whatever comes
   of it, the mirror has some of the files asked for and is otherwise unchanged; if it succeeds, it has
   them all.
   */
  method SyncOnce(local: LocalTree, cached: Option<Entries>, c: Setting, h: Host, unzip: Unzip, fate: nat -> Delivery,
      manifestOk: bool, commit: Commit)
    returns (ok: bool, posted: seq<seq<Piece>>, after: Log)
    requires c.files == Scan(local, cached).files && (cached.Some? ==> SizedEntries(cached.value))
    ensures AllHashed(c.files)
    ensures if manifestOk then SentFor(c, h, posted) && InBatches(posted) && after == PassLeaves(c, h, posted, unzip, fate, commit)
            else posted == [] && after == Log(h, {}, {})
    ensures ok <==> PassSucceeds(c, h, |posted|, manifestOk, commit)
    ensures after.done <= Asked(h, c.files) && after.host.mirror == Deliver(h.mirror, c.files, after.done)
    ensures ok && Truthful(c, h, posted, unzip, fate) ==> after.done == Asked(h, c.files)
    ensures ok && Drops(commit) ==> after.host.staged == map[]
  {
    hide AfterBatches, SentFor, InBatches, Uploaded, Deliver, Asked, Truthful, Scan, Sized, AllHashed, PrefixFree, Blocked;
    ScansAreHashed(local, cached);
    ScansAreSized(local, cached);
    posted := [];
    after := Log(h, {}, {});
    DeliverNone(h.mirror, c.files);
    if !manifestOk { return false, posted, after; }
    ok, posted := UploadAsked(c, h);
    after := AfterBatches(after, posted, |posted|, unzip, fate);
    DeliveredIsAsked(c, h, posted, |posted|, unzip, fate);
    if ok {
      UploadedDelivers(c, h, posted, unzip, fate);
      after := after.(host := AfterCommit(after.host, commit));
      ok := commit.NotWanted? || commit.ok;
    }
  }

  /** A retry that nothing is asked of sends nothing, has no error, and changes nothing. */
  lemma NothingAskedSucceeds(c: Setting, h: Host, unzip: Unzip, fate: nat -> Delivery)
    requires Unasked(h, c.files) == c.files.Keys
    ensures SentFor(c, h, []) && NoProblems(c, h) && AllClean(Log(h, {}, {}), [], 0, unzip, fate)
    ensures AfterBatches(Log(h, {}, {}), [], 0, unzip, fate).host == h
  {
    hide Skips, Received, UploadOf, MissingOf;
    var ids := SortedKeys(c.files.Keys);
    var upload, missing := UploadOf(h, c.files, ids), MissingOf(h, c.files, ids);
    forall id | id in ids ensures Skips(h, c.files, id) { assert id in Unasked(h, c.files); }
    if upload != [] { UploadOfIff(h, c.files, ids, upload[0]); }
    if missing != [] { MissingOfIff(h, c.files, ids, missing[0]); }
    assert AskedOf(h, c.files) == map[];
  }
}
