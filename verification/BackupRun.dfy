/** One backup run: rsync moves the old contents of changed files into the new
    snapshot `T`, the newest manifest is rebased, the new snapshot is deltaified. */
module BackupRun {
  import opened Wrappers
  import opened SnapshotStore

  // ----- Step 1: rsync with --backup-dir -----

  /** `T` is the time of the run: later than every snapshot there is or that a delta names. */
  ghost predicate IsNew(st: Store, T: Time) {
    && (forall t :: t in st.snapshots ==> t < T)
    && (forall t, p :: Lookup(st, t, p).Step? && Lookup(st, t, p).base.At? ==> Lookup(st, t, p).base.time < T)
  }

  /** `st1` is the store once rsync is done. The snapshot directory was made before, and the old
      content of every path that changed or disappeared is in it. Which paths the run recorded as
      changed is another matter: they are read off rsync's output. */
  ghost predicate RsyncRan(st: Store, st1: Store, T: Time) {
    && IsNew(st, T) && T in st1.snapshots
    && st1.snapshots == st.snapshots[T := st1.snapshots[T]]
    && st1.snapshots[T].manifest == None && st1.snapshots[T].deltas == map[]
    && (forall p :: p in st1.snapshots[T].full ==> p in st.current && st1.snapshots[T].full[p] == st.current[p])
    && (forall p :: p in st.current && CurrentOf(st1, p) != CurrentOf(st, p) ==> p in st1.snapshots[T].full)
  }

  // ----- Step 2: rebase -----

  /** The newest snapshot before `T` that has a manifest: where the rebase loop stops. */
  ghost predicate IsNewestManifested(st: Store, T: Time, n: Time) {
    && n in st.snapshots && n != T && st.snapshots[n].manifest.Some?
    && forall t :: t in st.snapshots && t != T && st.snapshots[t].manifest.Some? ==> t <= n
  }

  function RebaseEntry(e: Entry, p: Path, changed: set<Path>, T: Time): Entry {
    if e.Delta? && e.base == Current && p in changed then e.(base := At(T)) else e
  }

  function RebaseManifest(m: Manifest, changed: set<Path>, T: Time): Manifest {
    map p | p in m :: RebaseEntry(m[p], p, changed, T)
  }

  function RebaseAt(st: Store, n: Time, changed: set<Path>, T: Time): Store
    requires n in st.snapshots && st.snapshots[n].manifest.Some?
  {
    var s := st.snapshots[n];
    st.(snapshots := st.snapshots[n := s.(manifest := Some(RebaseManifest(s.manifest.value, changed, T)))])
  }

  ghost predicate Rebased(st: Store, st': Store, changed: set<Path>, T: Time) {
    && (forall n :: IsNewestManifested(st, T, n) ==> st' == RebaseAt(st, n, changed, T))
    && ((forall n :: !IsNewestManifested(st, T, n)) ==> st' == st)
  }

  ghost predicate LiveBased(st: Store, t: Time, p: Path) {
    Lookup(st, t, p).Step? && Lookup(st, t, p).base == Current
  }

  /** Whether the run that creates `T` leaves every live-based delta readable, when `changed` are
      the paths it recorded: what changed is retargeted, and what is retargeted was moved.
      It can be checked after rsync and before the rebase, from manifests and directories alone. */
  ghost predicate Covered(st: Store, st1: Store, T: Time, changed: set<Path>) {
    forall t, p :: t in st.snapshots && LiveBased(st, t, p) ==> CoveredAt(st, st1, T, changed, t, p)
  }

  /** The rebase turns live-based deltas of `p` in `t` to `T`. */
  ghost predicate Retargeted(st1: Store, T: Time, changed: set<Path>, t: Time, p: Path) {
    p in changed && IsNewestManifested(st1, T, t)
  }

  /** Covered, as far as one delta goes. */
  ghost predicate CoveredAt(st: Store, st1: Store, T: Time, changed: set<Path>, t: Time, p: Path) {
    && (CurrentOf(st1, p) != CurrentOf(st, p) ==> Retargeted(st1, T, changed, t, p))
    && (Retargeted(st1, T, changed, t, p) && p in st.current ==> Moved(st1, T, p))
  }

  predicate Moved(st1: Store, T: Time, p: Path) {
    T in st1.snapshots && p in st1.snapshots[T].full
  }

  /** Every old version reads alike before the run and after its rebase. */
  ghost predicate OldVersionsKept(rd: Rdiff, st: Store, st2: Store)
    requires Valid(st) && Valid(st2)
  {
    forall t, p :: t in st.snapshots ==> Alike(Read(rd, st, t, p), Read(rd, st2, t, p))
  }

  lemma RebasedLookup(st1: Store, st2: Store, changed: set<Path>, T: Time, t: Time, p: Path)
    requires Rebased(st1, st2, changed, T)
    ensures
      var a, b := Lookup(st1, t, p), Lookup(st2, t, p);
      b == if a.Step? && a.base == Current && p in changed && IsNewestManifested(st1, T, t)
           then Step(a.delta, At(T)) else a
    ensures st2.current == st1.current && st2.snapshots.Keys == st1.snapshots.Keys
    ensures t == T && T in st1.snapshots ==> st2.snapshots[t] == st1.snapshots[t]
  {
    if n :| IsNewestManifested(st1, T, n) {
      if t != n { assert !IsNewestManifested(st1, T, t); }
    }
  }

  lemma RunStaysValid(st: Store, st1: Store, st2: Store, T: Time, changed: set<Path>)
    requires Valid(st) && RsyncRan(st, st1, T) && Rebased(st1, st2, changed, T)
    ensures Valid(st1) && Valid(st2)
  {
    forall t: Time, p ensures Lookup(st1, t, p) == if t == T then Lookup(st1, T, p) else Lookup(st, t, p) {}
    forall t: Time, p
      ensures Lookup(st2, t, p).Step? && Lookup(st2, t, p).base.At? ==> t < Lookup(st2, t, p).base.time
    {
      RebasedLookup(st1, st2, changed, T, t, p);
    }
  }

  /** What a live-based delta reads as once it has been retargeted. */
  lemma RetargetedReading(rd: Rdiff, st: Store, st1: Store, st2: Store, T: Time, changed: set<Path>, t: Time, p: Path)
    requires Valid(st) && Valid(st2) && RsyncRan(st, st1, T) && Rebased(st1, st2, changed, T)
    requires t in st.snapshots && LiveBased(st, t, p) && Retargeted(st1, T, changed, t, p)
    ensures Read(rd, st2, t, p) ==
      if Moved(st1, T, p) then Content(rd.patch(st.current[p], Lookup(st, t, p).delta)) else Broken(BaseMissing(T))
  {
    assert Lookup(st1, t, p) == Lookup(st, t, p);
    RebasedLookup(st1, st2, changed, T, t, p);
    RebasedLookup(st1, st2, changed, T, T, p);
    assert Read(rd, st2, t, p) == Patched(rd, Lookup(st, t, p).delta, Read(rd, st2, T, p), BaseMissing(T));
  }

  lemma NotRetargetedReading(rd: Rdiff, st: Store, st1: Store, st2: Store, T: Time, changed: set<Path>, t: Time,
                             p: Path)
    requires Valid(st) && Valid(st2) && RsyncRan(st, st1, T) && Rebased(st1, st2, changed, T)
    requires t in st.snapshots && LiveBased(st, t, p) && !Retargeted(st1, T, changed, t, p)
    ensures Read(rd, st2, t, p) == Patched(rd, Lookup(st, t, p).delta, LiveReading(st1, p), CurrentMissing)
  {
    assert Lookup(st1, t, p) == Lookup(st, t, p);
    RebasedLookup(st1, st2, changed, T, t, p);
  }

  /** The heart of the run: covered deltas keep their meaning, chain by chain. */
  lemma {:induction false} CoveredKeepsReading(
      rd: Rdiff, st: Store, st1: Store, st2: Store, T: Time, changed: set<Path>, t: Time, p: Path)
    requires Valid(st) && Valid(st2) && RsyncRan(st, st1, T) && Rebased(st1, st2, changed, T)
    requires Covered(st, st1, T, changed) && t in st.snapshots
    ensures Alike(Read(rd, st, t, p), Read(rd, st2, t, p))
    decreases Later(st, t)
  {
    var node := Lookup(st, t, p);
    assert Lookup(st1, t, p) == node;
    RebasedLookup(st1, st2, changed, T, t, p);
    if node.Step? && node.base.At? {
      var b := node.base.time;
      if b in st.snapshots {
        assert b in Later(st, t) && b !in Later(st, b);
        CoveredKeepsReading(rd, st, st1, st2, T, changed, b, p);
      }
    } else if node.Step? {
      assert LiveBased(st, t, p) && CoveredAt(st, st1, T, changed, t, p);
      if Retargeted(st1, T, changed, t, p) {
        RetargetedReading(rd, st, st1, st2, T, changed, t, p);
      } else {
        assert CurrentOf(st1, p) == CurrentOf(st, p);
      }
    }
  }

  /** A sound delta tool under which `d` is the genuine delta from `base` to `target`
      and gives something else on every other base. */
  ghost function Adversary(d: Bytes, base: Bytes, target: Bytes): (rd: Rdiff)
    ensures rd.Sound()
    ensures rd.delta(rd.signature(base), target) == d
    ensures forall other :: other != base ==> rd.patch(other, d) != target
  {
    var tag: bv8 := if |d| > 0 && d[0] == 0 then 1 else 0;
    Rdiff(
      b => b,
      (s, n) => if s == base && n == target then d else [tag] + n,
      (b, x) => if x == d then (if b == base then target else target + [0])
                else if |x| > 0 then x[1..] else [])
  }

  lemma UncoveredDeltaBreaks(st: Store, st1: Store, st2: Store, T: Time, changed: set<Path>, t: Time, p: Path,
                             content: Bytes)
    returns (rd: Rdiff)
    requires Valid(st) && Valid(st2) && RsyncRan(st, st1, T) && Rebased(st1, st2, changed, T)
    requires t in st.snapshots && LiveBased(st, t, p) && !CoveredAt(st, st1, T, changed, t, p)
    ensures rd.Sound() && !Alike(Read(rd, st, t, p), Read(rd, st2, t, p))
    ensures p in st.current ==>
      && Read(rd, st, t, p) == Content(content)
      && Lookup(st, t, p) == Step(rd.delta(rd.signature(st.current[p]), content), Current)
  {
    var d := Lookup(st, t, p).delta;
    rd := Adversary(d, if p in st.current then st.current[p] else [], content);
    assert Read(rd, st, t, p) == Patched(rd, d, LiveReading(st, p), CurrentMissing);
    if Retargeted(st1, T, changed, t, p) {
      RetargetedReading(rd, st, st1, st2, T, changed, t, p);
    } else {
      NotRetargetedReading(rd, st, st1, st2, T, changed, t, p);
    }
  }

  /** Without coverage some old version breaks. If its path was not retargeted, a sound delta tool
      exists under which the delta is the genuine one for `content`, read so before the run and
      otherwise after it; if it was retargeted to a snapshot without it, it breaks under every tool. */
  lemma UncoveredBreaks(st: Store, st1: Store, st2: Store, T: Time, changed: set<Path>, content: Bytes)
    returns (rd: Rdiff, t: Time, p: Path)
    requires Valid(st) && Valid(st2) && RsyncRan(st, st1, T) && Rebased(st1, st2, changed, T)
    requires !Covered(st, st1, T, changed)
    ensures rd.Sound() && t in st.snapshots && LiveBased(st, t, p)
    ensures !Alike(Read(rd, st, t, p), Read(rd, st2, t, p))
    ensures p in st.current ==>
      && Read(rd, st, t, p) == Content(content)
      && Lookup(st, t, p) == Step(rd.delta(rd.signature(st.current[p]), content), Current)
  {
    t, p :| t in st.snapshots && LiveBased(st, t, p) && !CoveredAt(st, st1, T, changed, t, p);
    rd := UncoveredDeltaBreaks(st, st1, st2, T, changed, t, p, content);
  }

  /** A recorded path that rsync did not move loses the version its delta stands for, under every
      delta tool. */
  lemma RecordedButNotMoved(rd: Rdiff, st: Store, st1: Store, st2: Store, T: Time, changed: set<Path>, t: Time, p: Path)
    requires Valid(st) && Valid(st2) && RsyncRan(st, st1, T) && Rebased(st1, st2, changed, T)
    requires t in st.snapshots && LiveBased(st, t, p) && p in st.current
    requires Retargeted(st1, T, changed, t, p) && !Moved(st1, T, p)
    ensures Read(rd, st, t, p).Content? && Read(rd, st2, t, p) == Broken(BaseMissing(T))
  {
    RetargetedReading(rd, st, st1, st2, T, changed, t, p);
  }

  /** A run keeps every old version under every sound delta tool exactly when it is covered. */
  lemma RunKeepsOldVersionsExactly(st: Store, st1: Store, st2: Store, T: Time, changed: set<Path>)
    requires Valid(st) && Valid(st2) && RsyncRan(st, st1, T) && Rebased(st1, st2, changed, T)
    ensures (forall rd: Rdiff :: rd.Sound() ==> OldVersionsKept(rd, st, st2)) <==> Covered(st, st1, T, changed)
  {
    if Covered(st, st1, T, changed) {
      forall rd: Rdiff, t, p | t in st.snapshots
        ensures Alike(Read(rd, st, t, p), Read(rd, st2, t, p))
      {
        CoveredKeepsReading(rd, st, st1, st2, T, changed, t, p);
      }
    } else {
      var rd, t, p := UncoveredBreaks(st, st1, st2, T, changed, []);
      assert !OldVersionsKept(rd, st, st2);
    }
  }

  ghost predicate LiveCopiesKept(st: Store, st1: Store) {
    forall t, p :: t in st.snapshots && LiveBased(st, t, p) ==> CurrentOf(st1, p) == CurrentOf(st, p)
  }

  /** A run that fails or is cancelled never rebases: it keeps every old version, under every sound
      delta tool, exactly when the live copies under its live-based deltas are untouched. */
  lemma UnrebasedRunKeepsExactly(st: Store, st1: Store, T: Time)
    requires Valid(st) && RsyncRan(st, st1, T)
    ensures Valid(st1)
    ensures (forall rd: Rdiff :: rd.Sound() ==> OldVersionsKept(rd, st, st1)) <==> LiveCopiesKept(st, st1)
  {
    forall n | IsNewestManifested(st1, T, n) ensures RebaseAt(st1, n, {}, T) == st1 {
      assert RebaseManifest(st1.snapshots[n].manifest.value, {}, T) == st1.snapshots[n].manifest.value;
    }
    RunStaysValid(st, st1, st1, T, {});
    RunKeepsOldVersionsExactly(st, st1, st1, T, {});
    assert forall t, p :: CoveredAt(st, st1, T, {}, t, p) <==> CurrentOf(st1, p) == CurrentOf(st, p);
  }
}
