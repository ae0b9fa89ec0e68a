/**
 The remote host's mirror of a project: files and directories on a disk
 (crates/app/cce-server/src/api/handlers/ingest/{staging,event}.rs).

 A write first makes the directories on its path, which fails where one of them is a file,
 and then writes the file, which fails where a directory stands. Removing a file leaves its
 directories behind.
 */
module Mirror {
  import opened Text

  type Identity = string
  type Content = seq<bv8>

  function At<V>(m: map<Identity, V>, id: Identity): Option<V> { if id in m then Some(m[id]) else None }

  lemma SameMap<V>(a: map<Identity, V>, b: map<Identity, V>)
    requires forall id :: At(a, id) == At(b, id)
    ensures a == b
  {
    forall id ensures id in a <==> id in b { assert At(a, id) == At(b, id); }
    forall id | id in a ensures a[id] == b[id] { assert At(a, id) == At(b, id); }
  }

  // ---------------------------------------------------------------- paths

  /** The directories on the way to a path. */
  function Parents(id: Identity): set<Identity> { set i | 0 <= i < |id| && id[i] == '/' :: id[..i] }

  /** No path of the set is a directory on the way to another, as the files of a disk are. */
  ghost predicate PrefixFree(ids: set<Identity>)
  {
    forall a, b :: a in ids && b in ids ==> a !in Parents(b)
  }

  lemma FlatIsPrefixFree(ids: set<Identity>)
    requires forall id :: id in ids ==> '/' !in id
    ensures PrefixFree(ids)
  {}

  // ---------------------------------------------------------------- the mirror

  datatype Mirror = Mirror(files: map<Identity, Content>, dirs: set<Identity>)

  const EMPTY := Mirror(map[], {})

  /** What a disk can hold: the directories of its files, and no file where a directory is. */
  ghost predicate OnDisk(m: Mirror)
  {
    forall id :: id in m.files ==> id !in m.dirs && Parents(id) <= m.dirs
  }

  /** A file on the way to the path, or a directory in its place. */
  predicate Blocked(m: Mirror, id: Identity)
  {
    id in m.dirs || exists a :: a in Parents(id) && a in m.files
  }

  function Write(m: Mirror, id: Identity, bytes: Content): Mirror
  {
    Mirror(m.files[id := bytes], m.dirs + Parents(id))
  }

  function Remove(m: Mirror, id: Identity): Mirror { Mirror(m.files - {id}, m.dirs) }

  lemma ParentsAreShorter(a: Identity, b: Identity)
    requires a in Parents(b)
    ensures |a| < |b|
  {}

  /** A write that is not blocked leaves a disk. */
  lemma WriteStaysOnDisk(m: Mirror, id: Identity, bytes: Content)
    requires OnDisk(m) && !Blocked(m, id)
    ensures OnDisk(Write(m, id, bytes))
  {
    var m' := Write(m, id, bytes);
    forall x | x in m'.files ensures x !in m'.dirs && Parents(x) <= m'.dirs {
      if x in Parents(id) { assert x in m.files ==> Blocked(m, id); ParentsAreShorter(x, id); }
    }
  }

  /** Among paths that are prefix-free, writing one blocks or frees no other. */
  lemma WriteKeepsBlocked(m: Mirror, id: Identity, bytes: Content, ids: set<Identity>, x: Identity)
    requires PrefixFree(ids) && id in ids && x in ids
    ensures Blocked(Write(m, id, bytes), x) <==> Blocked(m, x)
  {
    var m' := Write(m, id, bytes);
    assert x !in Parents(id);
    if Blocked(m', x) && x !in m'.dirs {
      var a :| a in Parents(x) && a in m'.files;
      assert a != id && a in m.files;
    }
    if Blocked(m, x) && x !in m.dirs {
      var a :| a in Parents(x) && a in m.files;
      assert a in m'.files;
    }
  }
}
