/** The on-disk version store of one SSD backup config: the live tree, and under
    `.versions/<time>` one snapshot per run holding full copies, binary deltas and
    a manifest. `Read` is the meaning of a version: what its delta chain says it is. */
module SnapshotStore {
  import opened Wrappers

  type Bytes = seq<bv8>
  type Path = string
  /** A snapshot name. The names are fixed-width, so their string order is the order of time. */
  type Time = nat

  datatype Base = Current | At(time: Time)

  datatype Entry =
    | Full(originalSize: nat)
    | Delta(originalSize: nat, deltaSize: nat, base: Base)

  type Manifest = map<Path, Entry>

  /** `full[p]` is the file `p` in the snapshot directory, `deltas[p]` the file `p.rdelta`. */
  datatype Snapshot = Snapshot(manifest: Option<Manifest>, full: map<Path, Bytes>, deltas: map<Path, Bytes>)

  datatype Store = Store(current: map<Path, Bytes>, snapshots: map<Time, Snapshot>)

  /** The external delta tool. Nothing is known of it but soundness. */
  datatype Rdiff = Rdiff(
    signature: Bytes -> Bytes,
    delta: (Bytes, Bytes) -> Bytes,
    patch: (Bytes, Bytes) -> Bytes)
  {
    ghost predicate Sound() {
      forall base, target :: patch(base, delta(signature(base), target)) == target
    }
  }

  // ----- What one snapshot says about one path -----

  datatype Node =
    | NoSnapshot
    | NoFile
    | NoDelta
    | Whole(bytes: Bytes)
    | Step(delta: Bytes, base: Base)

  function Lookup(st: Store, t: Time, p: Path): Node {
    if t !in st.snapshots then NoSnapshot
    else LookupIn(st.snapshots[t], p)
  }

  function LookupIn(s: Snapshot, p: Path): Node {
    if s.manifest.Some? && p in s.manifest.value && s.manifest.value[p].Delta? then
      if p in s.deltas then Step(s.deltas[p], s.manifest.value[p].base) else NoDelta
    else if p in s.full then Whole(s.full[p])
    else NoFile
  }

  function CurrentOf(st: Store, p: Path): Option<Bytes> {
    if p in st.current then Some(st.current[p]) else None
  }

  /** Every snapshot that a delta names as its base is strictly newer than its holder. */
  ghost predicate Valid(st: Store) {
    forall t: Time, p :: Lookup(st, t, p).Step? && Lookup(st, t, p).base.At? ==> t < Lookup(st, t, p).base.time
  }

  // ----- Meaning -----

  datatype Fault =
    | DeltaMissing(at: Time)
    | SnapshotMissing(at: Time)
    | BaseMissing(at: Time)
    | CurrentMissing

  datatype Reading = Absent | Broken(fault: Fault) | Content(bytes: Bytes)

  ghost function Later(st: Store, t: Time): set<Time> {
    set u | u in st.snapshots && t < u
  }

  /** Patch the delta onto whatever its base reads as. */
  function Patched(rd: Rdiff, d: Bytes, base: Reading, missing: Fault): Reading {
    match base
    case Content(b) => Content(rd.patch(b, d))
    case Broken(f) => Broken(f)
    case Absent => Broken(missing)
  }

  function LiveReading(st: Store, p: Path): Reading {
    if p in st.current then Content(st.current[p]) else Absent
  }

  function Read(rd: Rdiff, st: Store, t: Time, p: Path): Reading
    requires Valid(st)
    decreases Later(st, t)
  {
    match Lookup(st, t, p)
    case NoSnapshot => Absent
    case NoFile => Absent
    case Whole(b) => Content(b)
    case NoDelta => Broken(DeltaMissing(t))
    case Step(d, Current) => Patched(rd, d, LiveReading(st, p), CurrentMissing)
    case Step(d, At(b)) =>
      if b !in st.snapshots then Broken(SnapshotMissing(b))
      else
        assert b in Later(st, t) && b !in Later(st, b);
        Patched(rd, d, Read(rd, st, b, p), BaseMissing(b))
  }

  /** Two readings a user cannot tell apart: equal, or unreadable both times. */
  predicate Alike(r: Reading, r': Reading) {
    r == r' || (r.Broken? && r'.Broken?)
  }

  /** Every version of every file in `st` still reads the same in `st'`. */
  ghost predicate Unchanged(rd: Rdiff, st: Store, st': Store)
    requires Valid(st) && Valid(st')
  {
    forall t, p :: t in st.snapshots ==> Read(rd, st', t, p) == Read(rd, st, t, p)
  }

  /** `st` with one snapshot directory replaced. */
  function With(st: Store, t: Time, s: Snapshot): Store {
    st.(snapshots := st.snapshots[t := s])
  }

  // ----- Two ways of changing a store that no chain notices -----

  /** A chain only looks at snapshots from its start on. */
  lemma {:induction false} ReadsOnlyLater(rd: Rdiff, st: Store, st': Store, from: Time, t: Time, p: Path)
    requires Valid(st) && Valid(st') && st.current == st'.current && from <= t
    requires forall u :: from <= u ==> Lookup(st, u, p) == Lookup(st', u, p)
    ensures Read(rd, st, t, p) == Read(rd, st', t, p)
    decreases Later(st, t)
  {
    var node := Lookup(st, t, p);
    assert Lookup(st', t, p) == node;
    if node.Step? && node.base.At? {
      var b := node.base.time;
      assert Lookup(st, b, p) == Lookup(st', b, p);
      if b in st.snapshots {
        assert b in Later(st, t) && b !in Later(st, b);
        ReadsOnlyLater(rd, st, st', from, b, p);
      }
    }
  }

  /** If one snapshot alone is rewritten, and its own versions read as before,
      then every chain that passes through it reads as before too. */
  lemma {:induction false} RewriteOne(rd: Rdiff, st: Store, st': Store, at: Time)
    requires Valid(st) && Valid(st') && st.current == st'.current
    requires at in st.snapshots && st'.snapshots.Keys == st.snapshots.Keys
    requires forall u :: u in st.snapshots && u != at ==> st'.snapshots[u] == st.snapshots[u]
    requires forall p :: Read(rd, st', at, p) == Read(rd, st, at, p)
    ensures Unchanged(rd, st, st')
  {
    forall t, p | t in st.snapshots
      ensures Read(rd, st', t, p) == Read(rd, st, t, p)
    {
      RewriteOneAt(rd, st, st', at, t, p);
    }
  }

  lemma {:induction false} RewriteOneAt(rd: Rdiff, st: Store, st': Store, at: Time, t: Time, p: Path)
    requires Valid(st) && Valid(st') && st.current == st'.current
    requires at in st.snapshots && st'.snapshots.Keys == st.snapshots.Keys
    requires forall u :: u in st.snapshots && u != at ==> st'.snapshots[u] == st.snapshots[u]
    requires Read(rd, st', at, p) == Read(rd, st, at, p)
    ensures Read(rd, st', t, p) == Read(rd, st, t, p)
    decreases Later(st, t)
  {
    if t != at {
      assert Lookup(st', t, p) == Lookup(st, t, p);
      var node := Lookup(st, t, p);
      if node.Step? && node.base.At? && node.base.time in st.snapshots {
        var b := node.base.time;
        assert b in Later(st, t) && b !in Later(st, b);
        RewriteOneAt(rd, st, st', at, b, p);
      }
    }
  }

  /** The chain of a version never names `gone`. */
  ghost predicate Avoids(st: Store, t: Time, p: Path, gone: Time)
    requires Valid(st)
    decreases Later(st, t)
  {
    match Lookup(st, t, p)
    case Step(_, At(b)) =>
      b != gone &&
      if b !in st.snapshots then true
      else
        assert b in Later(st, t) && b !in Later(st, b);
        Avoids(st, b, p, gone)
    case _ => true
  }

  /** A snapshot that the chain of a version does not name can be damaged or removed without the
      version noticing. */
  lemma {:induction false} DropUnreferenced(rd: Rdiff, st: Store, st': Store, gone: Time, t: Time, p: Path)
    requires Valid(st) && Valid(st') && st.current == st'.current && t != gone
    requires forall u, q :: u != gone ==> Lookup(st', u, q) == Lookup(st, u, q)
    requires Avoids(st, t, p, gone)
    ensures Read(rd, st', t, p) == Read(rd, st, t, p)
    decreases Later(st, t)
  {
    assert Lookup(st', t, p) == Lookup(st, t, p);
    var node := Lookup(st, t, p);
    if node.Step? && node.base.At? {
      var b := node.base.time;
      assert Lookup(st', b, p) == Lookup(st, b, p);
      if b in st.snapshots {
        assert b in Later(st, t) && b !in Later(st, b);
        DropUnreferenced(rd, st, st', gone, b, p);
      }
    }
  }

  lemma {:induction false} UnreferencedIsAvoided(st: Store, gone: Time, t: Time, p: Path)
    requires Valid(st) && t != gone
    requires forall u, q :: u != gone && Lookup(st, u, q).Step? ==> Lookup(st, u, q).base != At(gone)
    ensures Avoids(st, t, p, gone)
    decreases Later(st, t)
  {
    var node := Lookup(st, t, p);
    if node.Step? && node.base.At? && node.base.time in st.snapshots {
      var b := node.base.time;
      assert b in Later(st, t) && b !in Later(st, b);
      UnreferencedIsAvoided(st, gone, b, p);
    }
  }
}
