/**
 When the order of a poll's events matters on the mirror's disk
 (crates/app/cce-server/src/api/handlers/ingest/event.rs).

 A file that becomes a directory, or the other way round, makes one event block another; which
 one takes effect then depends on their order.
 */
module EventOrder {
  import opened Text
  import opened Mirror
  import opened Supply
  import opened Watch

  predicate IsWrite(e: Event, faulty: set<Identity>) { e.relativePath !in faulty && Written(e).Some? }

  predicate IsDelete(e: Event, faulty: set<Identity>) { e.relativePath !in faulty && e.kind.Deleted? }

  predicate Deleting(es: seq<Event>, faulty: set<Identity>, id: Identity)
  {
    exists e :: e in es && e.relativePath == id && IsDelete(e, faulty)
  }

  predicate Writing(es: seq<Event>, faulty: set<Identity>, id: Identity)
  {
    exists e :: e in es && e.relativePath == id && IsWrite(e, faulty)
  }

  /** A write that some order lets through: no directory is in its place, and every file above it is to go. */
  predicate Live(m: Mirror, es: seq<Event>, faulty: set<Identity>, id: Identity)
  {
    && Writing(es, faulty, id) && id !in m.dirs
    && forall a :: a in Parents(id) && a in m.files ==> Deleting(es, faulty, a)
  }

  /** No such write has a file above it, on the mirror or among the other such writes. */
  ghost predicate NoClash(m: Mirror, es: seq<Event>, faulty: set<Identity>)
  {
    forall id, a :: a in Parents(id) && Live(m, es, faulty, id) ==> a !in m.files && !Live(m, es, faulty, a)
  }

  ghost predicate OrderFree(m: Mirror, es: seq<Event>, faulty: set<Identity>)
  {
    forall fs :: multiset(fs) == multiset(es) ==> ApplyAll(m, fs, faulty).files == ApplyAll(m, es, faulty).files
  }

  // ---------------------------------------------------------------- without a clash

  /** What an event leaves at its path, in any order. */
  function Effect(m: Mirror, es: seq<Event>, faulty: set<Identity>, e: Event): Option<Content>
  {
    if IsDelete(e, faulty) then None
    else if IsWrite(e, faulty) && Live(m, es, faulty, e.relativePath) then Written(e)
    else At(m.files, e.relativePath)
  }

  /** The mirror once some of the events are applied. */
  ghost predicate Partway(m: Mirror, es: seq<Event>, faulty: set<Identity>, done: seq<Event>, now: Mirror)
  {
    && (forall e :: e in done ==> At(now.files, e.relativePath) == Effect(m, es, faulty, e))
    && (forall id :: (forall e :: e in done ==> e.relativePath != id) ==> At(now.files, id) == At(m.files, id))
    && m.dirs <= now.dirs
    && (forall x :: x in now.dirs ==> x in m.dirs || exists e :: e in done && x in Parents(e.relativePath) && Live(m, es, faulty, e.relativePath))
  }

  lemma StillThere(m: Mirror, es: seq<Event>, faulty: set<Identity>, done: seq<Event>, now: Mirror, a: Identity)
    requires Partway(m, es, faulty, done, now) && forall e :: e in done ==> e in es
    requires a in m.files && !Deleting(es, faulty, a)
    ensures a in now.files
  {
    hide Live, Writing;
    if e :| e in done && e.relativePath == a {
      assert At(now.files, a) == Effect(m, es, faulty, e);
    } else {
      assert At(now.files, a) == At(m.files, a);
    }
  }

  lemma NotThere(m: Mirror, es: seq<Event>, faulty: set<Identity>, done: seq<Event>, now: Mirror, a: Identity)
    requires Partway(m, es, faulty, done, now) && a !in m.files && !Live(m, es, faulty, a)
    ensures a !in now.files
  {
    hide Live, Writing;
    if e :| e in done && e.relativePath == a {
      assert At(now.files, a) == Effect(m, es, faulty, e);
    } else {
      assert At(now.files, a) == At(m.files, a);
    }
  }

  /** Without a clash a write is blocked at its turn exactly when it is not live. */
  lemma BlockedIffNotLive(m: Mirror, es: seq<Event>, faulty: set<Identity>, done: seq<Event>, now: Mirror, id: Identity)
    requires NoClash(m, es, faulty) && Partway(m, es, faulty, done, now) && forall e :: e in done ==> e in es
    requires Writing(es, faulty, id)
    ensures Blocked(now, id) <==> !Live(m, es, faulty, id)
  {
    hide Writing, Deleting;
    if Live(m, es, faulty, id) {
      assert id !in now.dirs;
      forall a | a in Parents(id) ensures a !in now.files { NotThere(m, es, faulty, done, now, a); }
    } else if id !in m.dirs {
      var a :| a in Parents(id) && a in m.files && !Deleting(es, faulty, a);
      StillThere(m, es, faulty, done, now, a);
    }
  }

  lemma OneMore(m: Mirror, es: seq<Event>, faulty: set<Identity>, done: seq<Event>, now: Mirror, e: Event)
    requires NoClash(m, es, faulty) && Partway(m, es, faulty, done, now) && e in es
    requires forall d :: d in done ==> d in es && d.relativePath != e.relativePath
    ensures Partway(m, es, faulty, done + [e], ApplyEvent(now, e, faulty))
  {
    hide NoClash, Live, Writing, Deleting, Blocked, Written;
    var id, next := e.relativePath, ApplyEvent(now, e, faulty);
    if IsWrite(e, faulty) {
      assert Writing(es, faulty, id) by { AWrite(es, faulty, e); }
      BlockedIffNotLive(m, es, faulty, done, now, id);
    }
    DeletedIsNotWritten(e);
    assert At(next.files, id) == Effect(m, es, faulty, e);
    assert forall x :: x != id ==> At(next.files, x) == At(now.files, x);
    forall x | x in next.dirs && x !in m.dirs
      ensures exists d :: d in done + [e] && x in Parents(d.relativePath) && Live(m, es, faulty, d.relativePath)
    {
      if x in now.dirs {
        var d :| d in done && x in Parents(d.relativePath) && Live(m, es, faulty, d.relativePath);
        assert d in done + [e];
      } else {
        assert e in done + [e];
      }
    }
  }

  lemma AWrite(es: seq<Event>, faulty: set<Identity>, e: Event)
    requires e in es && IsWrite(e, faulty)
    ensures Writing(es, faulty, e.relativePath)
  {}

  lemma DeletedIsNotWritten(e: Event)
    ensures e.kind.Deleted? ==> Written(e).None?
  {}

  lemma {:induction false} AllDone(m: Mirror, es: seq<Event>, faulty: set<Identity>, done: seq<Event>, now: Mirror, rest: seq<Event>)
    requires NoClash(m, es, faulty) && Partway(m, es, faulty, done, now)
    requires DistinctPaths(done + rest) && forall e :: e in done + rest ==> e in es
    ensures Partway(m, es, faulty, done + rest, ApplyAll(now, rest, faulty))
    decreases |rest|
  {
    hide NoClash, Partway, ApplyEvent;
    if rest == [] {
      assert done + rest == done;
    } else {
      var all := done + rest;
      assert all[|done|] == rest[0];
      forall d | d in done ensures d in es && d.relativePath != rest[0].relativePath {
        var i :| 0 <= i < |done| && done[i] == d;
        assert all[i] == d;
      }
      OneMore(m, es, faulty, done, now, rest[0]);
      assert done + [rest[0]] + rest[1..] == done + rest;
      AllDone(m, es, faulty, done + [rest[0]], ApplyEvent(now, rest[0], faulty), rest[1..]);
    }
  }

  lemma ShuffledPaths(es: seq<Event>, fs: seq<Event>)
    requires DistinctPaths(es) && multiset(fs) == multiset(es)
    ensures DistinctPaths(fs) && forall e :: e in fs <==> e in es
  {
    forall e ensures e in fs <==> e in es { assert e in fs <==> e in multiset(fs); assert e in es <==> e in multiset(es); }
    forall i, j | 0 <= i < j < |fs| ensures fs[i].relativePath != fs[j].relativePath {
      if fs[i].relativePath == fs[j].relativePath {
        SamePathSameEvent(es, fs[i], fs[j]);
        TwiceInMultiset(fs, i, j);
        OnceInMultiset(es, fs[i]);
        assert false;
      }
    }
  }

  lemma SamePathSameEvent(es: seq<Event>, d: Event, e: Event)
    requires DistinctPaths(es) && d in es && e in es && d.relativePath == e.relativePath
    ensures d == e
  {}

  lemma TwiceInMultiset(fs: seq<Event>, i: nat, j: nat)
    requires i < j < |fs| && fs[i] == fs[j]
    ensures multiset(fs)[fs[i]] >= 2
  {
    assert fs == fs[..j] + ([fs[j]] + fs[j + 1..]);
    assert fs[..j][i] == fs[i];
    assert multiset(fs) == multiset(fs[..j]) + (multiset([fs[j]]) + multiset(fs[j + 1..]));
  }

  lemma OnceInMultiset(es: seq<Event>, e: Event)
    requires DistinctPaths(es) && e in es
    ensures multiset(es)[e] == 1
  {
    var k :| 0 <= k < |es| && es[k] == e;
    assert es == es[..k] + ([es[k]] + es[k + 1..]);
    assert multiset(es) == multiset(es[..k]) + (multiset([es[k]]) + multiset(es[k + 1..]));
    assert e !in es[..k] && e !in es[k + 1..];
  }

  lemma NoClashIsOrderFree(m: Mirror, es: seq<Event>, faulty: set<Identity>)
    requires DistinctPaths(es) && NoClash(m, es, faulty)
    ensures OrderFree(m, es, faulty)
  {
    hide NoClash, Effect;
    assert Partway(m, es, faulty, [], m);
    forall fs | multiset(fs) == multiset(es) ensures ApplyAll(m, fs, faulty).files == ApplyAll(m, es, faulty).files {
      ShuffledPaths(es, fs);
      assert [] + fs == fs && [] + es == es;
      AllDone(m, es, faulty, [], m, fs);
      AllDone(m, es, faulty, [], m, es);
      forall id ensures At(ApplyAll(m, fs, faulty).files, id) == At(ApplyAll(m, es, faulty).files, id) {
        if e :| e in es && e.relativePath == id { assert e in fs; }
      }
      SameMap(ApplyAll(m, fs, faulty).files, ApplyAll(m, es, faulty).files);
    }
  }

  // ---------------------------------------------------------------- with a clash

  /** The events with the `k`-th one first. */
  function First(es: seq<Event>, k: nat): seq<Event>
    requires k < |es|
  {
    [es[k]] + (es[..k] + es[k + 1..])
  }

  lemma FirstShuffles(es: seq<Event>, k: nat)
    requires k < |es|
    ensures multiset(First(es, k)) == multiset(es)
  {
    assert es == es[..k] + ([es[k]] + es[k + 1..]);
  }

  /** An event in front of all others leaves at its path what it does to the mirror itself. */
  lemma FirstDecides(m: Mirror, es: seq<Event>, faulty: set<Identity>, k: nat)
    requires DistinctPaths(es) && k < |es|
    ensures At(ApplyAll(m, First(es, k), faulty).files, es[k].relativePath) == At(ApplyEvent(m, es[k], faulty).files, es[k].relativePath)
  {
    hide ApplyEvent;
    FirstShuffles(es, k);
    ShuffledPaths(es, First(es, k));
    assert First(es, k)[..0] == [];
    ApplyAllAt(m, First(es, k), faulty, 0);
  }

  /** The events that are, or are not, deletions. */
  function Keep(es: seq<Event>, faulty: set<Identity>, deletions: bool): seq<Event>
  {
    if es == [] then []
    else (if IsDelete(es[0], faulty) == deletions then [es[0]] else []) + Keep(es[1..], faulty, deletions)
  }

  lemma {:induction false} KeepSplits(es: seq<Event>, faulty: set<Identity>)
    ensures multiset(Keep(es, faulty, true)) + multiset(Keep(es, faulty, false)) == multiset(es)
    ensures forall e :: e in Keep(es, faulty, true) <==> e in es && IsDelete(e, faulty)
  {
    if es != [] {
      KeepSplits(es[1..], faulty);
      assert es == [es[0]] + es[1..];
    }
  }

  lemma {:induction false} AfterDeletions(m: Mirror, ds: seq<Event>, faulty: set<Identity>)
    requires forall e :: e in ds ==> IsDelete(e, faulty)
    ensures var m' := ApplyAll(m, ds, faulty);
            m'.dirs == m.dirs && forall x :: x in m'.files <==> x in m.files && forall e :: e in ds ==> e.relativePath != x
    decreases |ds|
  {
    if ds != [] {
      assert ds[0] in ds;
      AfterDeletions(ApplyEvent(m, ds[0], faulty), ds[1..], faulty);
      assert forall e :: e in ds <==> e == ds[0] || e in ds[1..];
    }
  }

  /** Once all deletions are done, a live write is not blocked. */
  lemma FreeAfterDeletions(m: Mirror, es: seq<Event>, faulty: set<Identity>, id: Identity, ds: seq<Event>)
    requires Live(m, es, faulty, id)
    requires forall e :: e in ds <==> e in es && IsDelete(e, faulty)
    ensures !Blocked(ApplyAll(m, ds, faulty), id)
  {
    hide Writing, ApplyAll;
    AfterDeletions(m, ds, faulty);
    var before := ApplyAll(m, ds, faulty);
    forall a | a in Parents(id) ensures a !in before.files {
      if a in m.files {
        var e :| e in es && e.relativePath == a && IsDelete(e, faulty);
        assert e in ds;
      }
    }
  }

  /** The deletions, then the `k`-th event, then the others. */
  function DeletionsFirst(es: seq<Event>, faulty: set<Identity>, k: nat): seq<Event>
    requires k < |es|
  {
    var others := es[..k] + es[k + 1..];
    Keep(others, faulty, true) + ([es[k]] + Keep(others, faulty, false))
  }

  lemma WithoutOne(es: seq<Event>, k: nat)
    requires k < |es|
    ensures multiset(es) == multiset([es[k]]) + multiset(es[..k] + es[k + 1..])
  {
    assert es == es[..k] + ([es[k]] + es[k + 1..]);
  }

  lemma MultisetOfThree(a: seq<Event>, b: seq<Event>, c: seq<Event>)
    ensures multiset(a + (b + c)) == multiset(b) + (multiset(a) + multiset(c))
  {}

  lemma DeletionsFirstShuffles(es: seq<Event>, faulty: set<Identity>, k: nat)
    requires k < |es| && !IsDelete(es[k], faulty)
    ensures multiset(DeletionsFirst(es, faulty, k)) == multiset(es)
    ensures forall e :: e in Keep(es[..k] + es[k + 1..], faulty, true) <==> e in es && IsDelete(e, faulty)
  {
    hide IsDelete, Keep;
    var others := es[..k] + es[k + 1..];
    WithoutOne(es, k);
    KeepSplits(others, faulty);
    MultisetOfThree(Keep(others, faulty, true), [es[k]], Keep(others, faulty, false));
    forall e ensures e in es <==> e == es[k] || e in others { assert e in multiset(es) <==> e in multiset([es[k]]) + multiset(others); }
  }

  /** In that order a live write takes effect. */
  lemma DeletionsFirstLets(m: Mirror, es: seq<Event>, faulty: set<Identity>, k: nat)
    requires DistinctPaths(es) && k < |es| && IsWrite(es[k], faulty) && Live(m, es, faulty, es[k].relativePath)
    ensures At(ApplyAll(m, DeletionsFirst(es, faulty, k), faulty).files, es[k].relativePath) == Written(es[k])
  {
    hide Written, Live, Keep, Blocked, ApplyAll;
    var fs, ds := DeletionsFirst(es, faulty, k), Keep(es[..k] + es[k + 1..], faulty, true);
    DeletedIsNotWritten(es[k]);
    DeletionsFirstShuffles(es, faulty, k);
    ShuffledPaths(es, fs);
    assert fs[|ds|] == es[k] && fs[..|ds|] == ds;
    ApplyAllAt(m, fs, faulty, |ds|);
    FreeAfterDeletions(m, es, faulty, es[k].relativePath, ds);
  }

  /** A live write below a file that is to go: it fails if it comes first. */
  lemma ClashWithMirror(m: Mirror, es: seq<Event>, faulty: set<Identity>, id: Identity, a: Identity)
    requires OnDisk(m) && DistinctPaths(es)
    requires Live(m, es, faulty, id) && a in Parents(id) && a in m.files
    ensures !OrderFree(m, es, faulty)
  {
    hide Written, Keep, DeletionsFirst, First, ApplyAll;
    var e :| e in es && e.relativePath == id && IsWrite(e, faulty);
    var k :| 0 <= k < |es| && es[k] == e;
    FirstShuffles(es, k);
    FirstDecides(m, es, faulty, k);
    assert id !in m.files;
    DeletedIsNotWritten(e);
    var fs := DeletionsFirst(es, faulty, k);
    DeletionsFirstShuffles(es, faulty, k);
    DeletionsFirstLets(m, es, faulty, k);
    assert At(ApplyAll(m, First(es, k), faulty).files, id) == None;
    assert At(ApplyAll(m, fs, faulty).files, id).Some?;
  }

  /** A live write without files above it takes effect if it comes first. */
  lemma FirstLets(m: Mirror, es: seq<Event>, faulty: set<Identity>, k: nat)
    requires DistinctPaths(es) && k < |es| && IsWrite(es[k], faulty) && es[k].relativePath !in m.dirs
    requires forall x :: x in Parents(es[k].relativePath) ==> x !in m.files
    ensures At(ApplyAll(m, First(es, k), faulty).files, es[k].relativePath) == Written(es[k])
  {
    hide Written, First, ApplyAll;
    DeletedIsNotWritten(es[k]);
    FirstDecides(m, es, faulty, k);
    assert !Blocked(m, es[k].relativePath);
  }

  /** A write below another that came first has no effect. */
  lemma SecondIsBlocked(m: Mirror, fs: seq<Event>, faulty: set<Identity>, n: nat)
    requires DistinctPaths(fs) && 0 < n < |fs| && IsWrite(fs[n], faulty) && IsWrite(fs[0], faulty)
    requires fs[0].relativePath in Parents(fs[n].relativePath) && !Blocked(m, fs[0].relativePath)
    ensures At(ApplyAll(m, fs, faulty).files, fs[n].relativePath) == At(m.files, fs[n].relativePath)
  {
    hide Written, ApplyAll;
    DeletedIsNotWritten(fs[0]);
    DeletedIsNotWritten(fs[n]);
    ApplyAllAt(m, fs, faulty, n);
    var before, init := ApplyAll(m, fs[..n], faulty), fs[..n];
    assert init[0] == fs[0] && init[..0] == [];
    ApplyAllAt(m, init, faulty, 0);
    NoneApplied(m, faulty);
    assert At(before.files, fs[0].relativePath).Some?;
    assert Blocked(before, fs[n].relativePath);
  }

  lemma NoneApplied(m: Mirror, faulty: set<Identity>)
    ensures ApplyAll(m, [], faulty) == m
  {}

  /** Two live writes, one above the other: the first one wins. */
  lemma ClashOfWrites(m: Mirror, es: seq<Event>, faulty: set<Identity>, id: Identity, a: Identity)
    requires OnDisk(m) && DistinctPaths(es)
    requires Live(m, es, faulty, id) && a in Parents(id) && Live(m, es, faulty, a)
    requires forall x :: x in Parents(id) ==> x !in m.files
    requires forall x :: x in Parents(a) ==> x !in m.files
    ensures !OrderFree(m, es, faulty)
  {
    hide Written, Deleting, First, ApplyAll, DistinctPaths;
    var e :| e in es && e.relativePath == id && IsWrite(e, faulty);
    var d :| d in es && d.relativePath == a && IsWrite(d, faulty);
    var k :| 0 <= k < |es| && es[k] == e;
    var j :| 0 <= j < |es| && es[j] == d;
    FirstShuffles(es, k);
    FirstLets(m, es, faulty, k);
    FirstShuffles(es, j);
    var fs := First(es, j);
    ShuffledPaths(es, fs);
    FirstIsFirst(es, j);
    ParentsAreShorter(a, id);
    var n :| 0 <= n < |fs| && fs[n] == e;
    SecondIsBlocked(m, fs, faulty, n);
    assert id !in m.files;
    assert At(ApplyAll(m, fs, faulty).files, id) == None;
  }

  lemma FirstIsFirst(es: seq<Event>, j: nat)
    requires j < |es|
    ensures First(es, j) != [] && First(es, j)[0] == es[j]
  {}

  /**
   On a disk, events with distinct paths leave the same files in every order exactly when no
   write that can take effect has a file above it, on the mirror or among the other such writes.
   */
  lemma OrderFreeIff(m: Mirror, es: seq<Event>, faulty: set<Identity>)
    requires OnDisk(m) && DistinctPaths(es)
    ensures OrderFree(m, es, faulty) <==> NoClash(m, es, faulty)
  {
    hide Live, OrderFree, OnDisk, DistinctPaths;
    if NoClash(m, es, faulty) {
      NoClashIsOrderFree(m, es, faulty);
    } else {
      var id, a :| a in Parents(id) && Live(m, es, faulty, id) && (a in m.files || Live(m, es, faulty, a));
      if x :| x in Parents(id) && x in m.files {
        ClashWithMirror(m, es, faulty, id, x);
      } else if x :| x in Parents(a) && x in m.files {
        ClashWithMirror(m, es, faulty, a, x);
      } else {
        ClashOfWrites(m, es, faulty, id, a);
      }
    }
  }

  lemma TwoApplied(m: Mirror, d: Event, e: Event, faulty: set<Identity>)
    ensures ApplyAll(m, [d, e], faulty) == ApplyEvent(ApplyEvent(m, d, faulty), e, faulty)
  {
    hide ApplyEvent;
    assert [d, e][1..] == [e] && [e][1..] == [];
    NoneApplied(ApplyEvent(ApplyEvent(m, d, faulty), e, faulty), faulty);
  }

  /** The order a poll produces, and the reverse, where the file `a` has become the directory of `a/b`. */
  lemma FileBecomesDirectory(bytes: Content)
    requires |bytes| <= MAX_INGEST_FILE_BYTES
    ensures var m := Mirror(map["a" := bytes], {});
            var created, deleted := Event("a/b", Created, None, Some(bytes)), Event("a", Deleted, None, None);
            && ApplyAll(m, [created, deleted], {}).files == map[]
            && ApplyAll(m, [deleted, created], {}).files == map["a/b" := bytes]
  {
    var m := Mirror(map["a" := bytes], {});
    var created, deleted := Event("a/b", Created, None, Some(bytes)), Event("a", Deleted, None, None);
    TwoApplied(m, created, deleted, {});
    TwoApplied(m, deleted, created, {});
    assert "a/b"[..1] == "a" && "a/b"[1] == '/';
    assert "a" in Parents("a/b");
    assert Blocked(m, "a/b");
    var gone := Remove(m, "a");
    assert gone.files == map[];
    assert !Blocked(gone, "a/b");
  }
}
