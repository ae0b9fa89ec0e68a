/**
 The gateway's view of the local tree: files, scans with hash reuse, and fingerprints
 (crates/app/cce-gateway/src/scan.rs, with the comparison of crates/infra/cce-ingest-transfer
 and the reuse rule of crates/infra/cce-scanner).
 */
module Supply {
  import opened Text
  import opened Mirror

  /** A content hash, idealised: it determines its content. */
  datatype Digest = Digest(content: Content)

  const MAX_INGEST_FILE_BYTES: nat := 1_048_576

  /** A file of the local tree that passes the text and extension filters. */
  datatype LocalFile = LocalFile(content: Content, modified: int)

  /** The files of a directory tree: none of them is a directory of another. */
  type LocalTree = tree: map<Identity, LocalFile> | PrefixFree(tree.Keys) witness map[]

  /** What a scan keeps for the next one. */
  datatype FileEntry = FileEntry(size: nat, modified: int, contentHash: Option<Digest>)

  type Entries = map<Identity, FileEntry>

  /** The size, time and hash of a scanned file; also its baseline form. */
  datatype Fingerprint = Fingerprint(size: nat, modifiedSecs: int, contentHash: Option<Digest>)

  type Files = map<Identity, Fingerprint>

  /** `fingerprints_match`. */
  predicate FingerprintsMatch(previous: Fingerprint, current: Fingerprint)
  {
    if previous.contentHash.Some? || current.contentHash.Some? then previous.contentHash == current.contentHash
    else previous.size == current.size && previous.modifiedSecs == current.modifiedSecs
  }

  /** What a fingerprint is compared by. */
  datatype Key = ByHash(hash: Digest) | ByStat(size: nat, modifiedSecs: int)

  function KeyOf(f: Fingerprint): Key
  {
    match f.contentHash case Some(h) => ByHash(h) case None => ByStat(f.size, f.modifiedSecs)
  }

  /** Matching is equality of keys, so it is an equivalence, mixed entries included. */
  lemma MatchIffSameKey(a: Fingerprint, b: Fingerprint)
    ensures FingerprintsMatch(a, b) <==> KeyOf(a) == KeyOf(b)
  {}

  /** Seconds since the epoch, rounded down. */
  function Secs(nanos: int): int { nanos / 1_000_000_000 }

  /** The entry of one file: the previous hash is reused when size and time are unchanged. */
  function ScanEntry(id: Identity, file: LocalFile, previous: Option<Entries>): FileEntry
  {
    var size := |file.content|;
    if previous.Some? && id in previous.value
       && previous.value[id].size == size && previous.value[id].modified == file.modified
       && previous.value[id].contentHash.Some?
    then previous.value[id]
    else if size > MAX_INGEST_FILE_BYTES then FileEntry(size, file.modified, None)
    else FileEntry(size, file.modified, Some(Digest(file.content)))
  }

  datatype ScanOutcome = ScanOutcome(files: Files, entries: Entries)

  /** `scan_local`: files over the ingest bound are scanned but not supplied. */
  function Scan(local: LocalTree, previous: Option<Entries>): ScanOutcome
  {
    var entries := map id | id in local :: ScanEntry(id, local[id], previous);
    ScanOutcome(
      map id | id in local && |local[id].content| <= MAX_INGEST_FILE_BYTES ::
        Fingerprint(entries[id].size, Secs(entries[id].modified), entries[id].contentHash),
      entries)
  }

  predicate AllHashed(files: Files) { forall id :: id in files ==> files[id].contentHash.Some? }

  lemma ScansAreHashed(local: LocalTree, previous: Option<Entries>)
    ensures AllHashed(Scan(local, previous).files)
  {}

  /** The contents a tree supplies. */
  function Supplied(local: LocalTree): map<Identity, Content>
  {
    map id | id in local && |local[id].content| <= MAX_INGEST_FILE_BYTES :: local[id].content
  }

  /** The contents a hashed snapshot stands for. */
  function ContentsOf(files: Files): map<Identity, Content>
    requires AllHashed(files)
  {
    map id | id in files :: files[id].contentHash.value.content
  }

  /** No hash that a scan of this tree could reuse is wrong. */
  predicate EntriesTrue(local: LocalTree, entries: Entries)
  {
    forall id :: id in entries && id in local
                 && entries[id].size == |local[id].content| && entries[id].modified == local[id].modified
                 && entries[id].contentHash.Some?
                 ==> entries[id].contentHash == Some(Digest(local[id].content))
  }

  predicate ScanIsTrue(local: LocalTree, previous: Option<Entries>)
  {
    previous.Some? ==> EntriesTrue(local, previous.value)
  }

  /** A scan that reuses no wrong hash tells the truth and leaves entries that do. */
  lemma TrueScan(local: LocalTree, previous: Option<Entries>)
    requires ScanIsTrue(local, previous)
    ensures Scan(local, previous).files == Scan(local, None).files
    ensures ContentsOf(Scan(local, previous).files) == Supplied(local)
    ensures EntriesTrue(local, Scan(local, previous).entries)
  {}

  /** What a full scan finds of a file: its size and time, and a hash unless it is over the bound; such a file is not supplied. */
  lemma FullScanOf(local: LocalTree, id: Identity)
    requires id in local
    ensures var out, file := Scan(local, None), local[id];
            var small := |file.content| <= MAX_INGEST_FILE_BYTES;
            && id in out.entries
            && out.entries[id] == FileEntry(|file.content|, file.modified, if small then Some(Digest(file.content)) else None)
            && (id in out.files <==> small)
            && (small ==>
                  && out.files[id].size == |file.content| && out.files[id].contentHash == Some(Digest(file.content))
                  && out.files[id].modifiedSecs * 1_000_000_000 <= file.modified < (out.files[id].modifiedSecs + 1) * 1_000_000_000)
  {}

  /** Reuse hides a change exactly behind an unchanged size and time. */
  lemma HiddenChangeIff(local: LocalTree, previous: Entries, id: Identity)
    requires id in Supplied(local)
    ensures var files := Scan(local, Some(previous)).files;
            && id in files
            && (files[id].contentHash != Some(Digest(local[id].content)) <==>
                && id in previous && previous[id].contentHash.Some?
                && previous[id].size == |local[id].content| && previous[id].modified == local[id].modified
                && previous[id].contentHash.value != Digest(local[id].content))
  {}

  // ---------------------------------------------------------------- sizes

  predicate SizedAt(size: nat, contentHash: Option<Digest>) { contentHash.Some? ==> size == |contentHash.value.content| }

  /** Every hashed file has the size of its content. */
  predicate Sized(files: Files) { forall id :: id in files ==> SizedAt(files[id].size, files[id].contentHash) }

  predicate SizedEntries(entries: Entries) { forall id :: id in entries ==> SizedAt(entries[id].size, entries[id].contentHash) }

  /** Scans keep sizes and hashes together, whatever tree they reuse hashes on. */
  lemma ScansAreSized(local: LocalTree, previous: Option<Entries>)
    requires previous.Some? ==> SizedEntries(previous.value)
    ensures Sized(Scan(local, previous).files) && SizedEntries(Scan(local, previous).entries)
  {}

  lemma ScanKeys(local: LocalTree, previous: Option<Entries>)
    ensures Scan(local, previous).files.Keys == Supplied(local).Keys
    ensures PrefixFree(Scan(local, previous).files.Keys)
  {}

  // ---------------------------------------------------------------- delivering a snapshot

  /** The content a hashed snapshot has of a file. */
  function ContentOf(files: Files, id: Identity): Content
    requires AllHashed(files) && id in files
  {
    files[id].contentHash.value.content
  }

  /** A mirror once the snapshot's contents of the listed files are written; other files stay. */
  function Deliver(m: Mirror, files: Files, ids: set<Identity>): Mirror
    requires AllHashed(files)
  {
    Mirror(map id | id in m.files.Keys + ids * files.Keys :: if id in ids && id in files then ContentOf(files, id) else m.files[id],
           m.dirs + set id, a | id in ids && id in files && a in Parents(id) :: a)
  }

  /** The files that are not listed are already held as the snapshot has them. */
  predicate RestHeld(m: Mirror, files: Files, ids: set<Identity>)
    requires AllHashed(files)
  {
    forall id :: id in files && id !in ids ==> At(m.files, id) == Some(ContentOf(files, id))
  }

  /** The mirror becomes the snapshot exactly when it holds nothing else, and what was not written. */
  lemma DeliverIsSnapshotIff(m: Mirror, files: Files, ids: set<Identity>)
    requires AllHashed(files)
    ensures Deliver(m, files, ids).files == ContentsOf(files) <==> m.files.Keys <= files.Keys && RestHeld(m, files, ids)
  {
    var over, contents := Deliver(m, files, ids).files, ContentsOf(files);
    if over == contents {
      forall id | id in m.files ensures id in files { assert id in over; }
      forall id | id in files && id !in ids ensures At(m.files, id) == Some(ContentOf(files, id)) {
        assert id in contents;
        assert id in over && over[id] == contents[id];
      }
    }
    if m.files.Keys <= files.Keys && RestHeld(m, files, ids) { assert over.Keys == contents.Keys; }
  }

  lemma DeliverAt(m: Mirror, files: Files, ids: set<Identity>, id: Identity)
    requires AllHashed(files)
    ensures At(Deliver(m, files, ids).files, id) == if id in files && id in ids then Some(ContentOf(files, id)) else At(m.files, id)
  {}

  lemma DeliverNone(m: Mirror, files: Files)
    requires AllHashed(files)
    ensures Deliver(m, files, {}) == m
  {
    assert Deliver(m, files, {}).dirs == m.dirs;
    assert Deliver(m, files, {}).files == m.files;
  }

  /** Delivering one file is writing it. */
  lemma DeliverOne(m: Mirror, files: Files, id: Identity)
    requires AllHashed(files) && id in files
    ensures Deliver(m, files, {id}) == Write(m, id, ContentOf(files, id))
  {
    var d, w := Deliver(m, files, {id}), Write(m, id, ContentOf(files, id));
    assert d.files.Keys == w.files.Keys;
    assert d.files == w.files;
    assert d.dirs == w.dirs;
  }

  lemma DeliverBoth(m: Mirror, files: Files, a: set<Identity>, b: set<Identity>)
    requires AllHashed(files)
    ensures Deliver(Deliver(m, files, a), files, b) == Deliver(m, files, a + b)
  {
    hide Blocked, Parents;
    var two, one := Deliver(Deliver(m, files, a), files, b), Deliver(m, files, a + b);
    assert two.files.Keys == one.files.Keys;
    assert two.files == one.files;
    assert two.dirs == one.dirs;
  }

  /** Delivering files of a prefix-free snapshot neither blocks nor frees a file of it. */
  lemma DeliverKeepsBlocked(m: Mirror, files: Files, ids: set<Identity>, x: Identity)
    requires AllHashed(files) && PrefixFree(files.Keys) && x in files
    ensures Blocked(Deliver(m, files, ids), x) <==> Blocked(m, x)
  {
    var d := Deliver(m, files, ids);
    if Blocked(d, x) && x !in d.dirs {
      var a :| a in Parents(x) && a in d.files;
      assert a !in files && a in m.files;
    }
    if Blocked(m, x) && x !in m.dirs {
      var a :| a in Parents(x) && a in m.files;
      assert a in d.files;
    }
  }
}
