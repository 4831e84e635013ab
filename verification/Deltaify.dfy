/** Replacing a fresh snapshot's full copies by deltas, and turning one delta back
    into a full copy: every state the disk goes through, and why no version notices. */
module Deltaify {
  import opened Wrappers
  import opened SnapshotStore

  // ----- deltaifySnapshot -----

  /** A delta is kept when it saves at least `threshold` percent. An empty file never does:
      its percentage is not a number, or minus infinity. */
  predicate Saves(threshold: int, size: nat, deltaSize: nat) {
    size > 0 && (size - deltaSize) * 100 >= threshold * size
  }

  /** Deltas are being written; there is no manifest yet, so full copies still count. */
  ghost predicate Converting(st: Store, st': Store, T: Time) {
    && T in st.snapshots && T in st'.snapshots
    && st' == st.(snapshots := st.snapshots[T := st'.snapshots[T]])
    && st.snapshots[T].manifest == None && st'.snapshots[T].manifest == None
    && st'.snapshots[T].full == st.snapshots[T].full
    && st'.snapshots[T].deltas.Keys <= st.snapshots[T].full.Keys
  }

  /** The manifest is out, and some of the converted full copies have been unlinked. */
  ghost predicate Published(rd: Rdiff, st: Store, st': Store, T: Time, threshold: int) {
    && T in st.snapshots && T in st'.snapshots
    && st' == st.(snapshots := st.snapshots[T := st'.snapshots[T]])
    && st.snapshots[T].manifest == None && st'.snapshots[T].manifest.Some?
    && var s, s' := st.snapshots[T], st'.snapshots[T];
       && s'.manifest.value.Keys == s.full.Keys && s'.deltas.Keys <= s.full.Keys
       && (forall p :: p in s'.full ==> p in s.full && s'.full[p] == s.full[p])
       && forall p :: p in s.full ==> Settled(rd, st, s.full[p], s', p, threshold)
  }

  /** What the manifest says about `p` is backed by the files on disk. */
  ghost predicate Settled(rd: Rdiff, st: Store, original: Bytes, s: Snapshot, p: Path, threshold: int)
    requires s.manifest.Some? && p in s.manifest.value
  {
    Backed(rd, st, original, s.manifest.value[p], s, p, threshold)
  }

  /** A delta is there only when it saves enough. */
  ghost predicate Backed(rd: Rdiff, st: Store, original: Bytes, e: Entry, s: Snapshot, p: Path, threshold: int) {
    match e
    case Full(size) => size == |original| && p in s.full
    case Delta(size, deltaSize, base) =>
      && base == Current && p in st.current && p in s.deltas
      && s.deltas[p] == rd.delta(rd.signature(st.current[p]), original)
      && size == |original| && deltaSize == |s.deltas[p]| && Saves(threshold, size, deltaSize)
  }

  /** At no point of deltaifying a snapshot, crash included, does any version of any file
      read differently: neither its own nor one whose chain passes through it. */
  lemma DeltaifyKeepsAll(rd: Rdiff, st: Store, st': Store, T: Time, threshold: int)
    requires rd.Sound() && Valid(st)
    requires Converting(st, st', T) || Published(rd, st, st', T, threshold)
    ensures Valid(st') && Unchanged(rd, st, st')
  {
    forall t: Time, p
      ensures t != T ==> Lookup(st', t, p) == Lookup(st, t, p)
      ensures Lookup(st', T, p).Step? ==> Lookup(st', T, p).base == Current
    {
      if Published(rd, st, st', T, threshold) && p in st.snapshots[T].full {
        assert Settled(rd, st, st.snapshots[T].full[p], st'.snapshots[T], p, threshold);
      }
    }
    assert Valid(st');
    forall p ensures Read(rd, st', T, p) == Read(rd, st, T, p) {
      if Published(rd, st, st', T, threshold) && p in st.snapshots[T].full {
        assert Settled(rd, st, st.snapshots[T].full[p], st'.snapshots[T], p, threshold);
      }
    }
    RewriteOne(rd, st, st', T);
  }

  // ----- promoteDeltaToFull -----

  /** The disk while the delta of `p` at `t`, which reads as `content`, is being promoted:
      the full copy partly written, complete, the manifest swapped, the delta unlinked. */
  ghost predicate Promoting(st: Store, st': Store, t: Time, p: Path, content: Bytes) {
    && Lookup(st, t, p).Step? && t in st'.snapshots
    && st' == With(st, t, st'.snapshots[t])
    && PromotingSnapshot(st.snapshots[t], st'.snapshots[t], p, content)
  }

  ghost predicate PromotingSnapshot(s: Snapshot, s': Snapshot, p: Path, content: Bytes)
    requires LookupIn(s, p).Step?
  {
    || (s'.manifest == s.manifest && s'.deltas == s.deltas && SameExcept(s.full, s'.full, p))
    || s' == PromotedSnapshot(s, p, content).(deltas := s.deltas)
    || s' == PromotedSnapshot(s, p, content)
  }

  ghost predicate SameExcept(files: map<Path, Bytes>, files': map<Path, Bytes>, p: Path) {
    forall q :: q != p ==> (q in files <==> q in files') && (q in files ==> files'[q] == files[q])
  }

  function PromotedSnapshot(s: Snapshot, p: Path, content: Bytes): Snapshot
    requires LookupIn(s, p).Step?
  {
    Snapshot(
      Some(s.manifest.value[p := Full(s.manifest.value[p].originalSize)]),
      s.full[p := content],
      s.deltas - {p})
  }

  lemma PromotionLookups(st: Store, st': Store, t: Time, p: Path, content: Bytes)
    requires Promoting(st, st', t, p, content)
    ensures forall u: Time, q :: u != t || q != p ==> Lookup(st', u, q) == Lookup(st, u, q)
    ensures Lookup(st', t, p) == Lookup(st, t, p) || Lookup(st', t, p) == Whole(content)
  {
  }

  /** Promotion is invisible at every crash point, also to chains through the promoted entry. */
  lemma PromotionKeepsAll(rd: Rdiff, st: Store, st': Store, t: Time, p: Path, content: Bytes)
    requires Valid(st) && Promoting(st, st', t, p, content)
    requires Read(rd, st, t, p) == Content(content)
    ensures Valid(st') && Unchanged(rd, st, st')
  {
    PromotionLookups(st, st', t, p, content);
    assert Valid(st');
    forall q ensures Read(rd, st', t, q) == Read(rd, st, t, q) {
      var node := Lookup(st, t, q);
      if node.Step? && node.base.At? {
        ReadsOnlyLater(rd, st, st', t + 1, node.base.time, q);
      }
    }
    RewriteOne(rd, st, st', t);
  }

  // ----- pruneVersions: removing one snapshot -----

  ghost predicate Unreferenced(st: Store, gone: Time) {
    forall u, q :: u != gone && Lookup(st, u, q).Step? ==> Lookup(st, u, q).base != At(gone)
  }

  /** The snapshot directory is being deleted: some of its files are gone, or all of it. */
  ghost predicate Removing(st: Store, st': Store, gone: Time) {
    && gone in st.snapshots && st'.current == st.current
    && st'.snapshots - {gone} == st.snapshots - {gone}
    && (gone in st'.snapshots ==>
          var s, s' := st.snapshots[gone], st'.snapshots[gone];
          && (s'.manifest == s.manifest || s'.manifest == None)
          && s'.full.Keys <= s.full.Keys && s'.deltas.Keys <= s.deltas.Keys)
  }

  /** Removing a snapshot nobody is based on leaves every other version readable as before. */
  lemma RemovalKeepsOthers(rd: Rdiff, st: Store, st': Store, gone: Time)
    requires Valid(st) && Removing(st, st', gone) && Unreferenced(st, gone)
    ensures Valid(st') && Unreferenced(st', gone)
    ensures forall t, p :: t != gone ==> Read(rd, st', t, p) == Read(rd, st, t, p)
  {
    forall u: Time, q
      ensures u != gone ==> Lookup(st', u, q) == Lookup(st, u, q)
      ensures Lookup(st', gone, q).Step? ==>
        Lookup(st, gone, q).Step? && Lookup(st', gone, q).base == Lookup(st, gone, q).base
    {
      if u != gone {
        assert u in st'.snapshots <==> u in st'.snapshots - {gone};
        assert u in st.snapshots <==> u in st.snapshots - {gone};
        if u in st.snapshots {
          assert st'.snapshots[u] == (st'.snapshots - {gone})[u] == (st.snapshots - {gone})[u];
        }
      }
    }
    assert Valid(st');
    forall t: Time, p | t != gone ensures Read(rd, st', t, p) == Read(rd, st, t, p) {
      UnreferencedIsAvoided(st, gone, t, p);
      DropUnreferenced(rd, st, st', gone, t, p);
    }
  }
}
