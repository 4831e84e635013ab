/** The operations of the delta service as they run: loops over chains, manifests and
    directories, temp files registered and released, and one disk write after another.
    `trace` keeps every state the disk has been in, so that what is said about it
    holds at every point where the process may die. */
module VersionService {
  import opened Wrappers
  import opened SnapshotStore
  import opened BackupRun
  import opened Deltaify

  datatype Reconstruction =
    | Nothing                          // no such version
    | InPlace(bytes: Bytes)            // a file that is on disk anyway
    | Temp(name: nat)                  // a temp file, registered until the caller cleans it up
    | Thrown(fault: Fault)             // the chain is broken
    | PatchFailed(step: nat)           // rdiff patch exited with an error

  datatype Outcome = Done | Skipped | Failed(error: Reconstruction)

  /** The number of deltas between a version and the file its chain rests on. */
  ghost function ChainLength(st: Store, t: Time, p: Path): nat
    requires Valid(st)
    decreases Later(st, t)
  {
    match Lookup(st, t, p)
    case Step(_, Current) => 1
    case Step(_, At(b)) =>
      if b !in st.snapshots then 1
      else
        assert b in Later(st, t) && b !in Later(st, b);
        1 + ChainLength(st, b, p)
    case _ => 0
  }

  /** Patching outward from the base: the last delta of the chain is applied first. */
  ghost function PatchAll(rd: Rdiff, chain: seq<Bytes>, base: Bytes): Bytes {
    if chain == [] then base else rd.patch(PatchAll(rd, chain[1..], base), chain[0])
  }

  ghost function Lift(rd: Rdiff, chain: seq<Bytes>, r: Reading): Reading {
    if r.Content? then Content(PatchAll(rd, chain, r.bytes)) else r
  }

  lemma {:induction false} PatchAllSnoc(rd: Rdiff, chain: seq<Bytes>, d: Bytes, base: Bytes)
    ensures PatchAll(rd, chain + [d], base) == PatchAll(rd, chain, rd.patch(base, d))
  {
    if chain == [] {
      assert [d][1..] == [];
      assert chain + [d] == [d];
    } else {
      assert (chain + [d])[1..] == chain[1..] + [d];
      PatchAllSnoc(rd, chain[1..], d, base);
    }
  }

  predicate HasDeltaEntry(st: Store, t: Time, p: Path) {
    t in st.snapshots && st.snapshots[t].manifest.Some?
    && p in st.snapshots[t].manifest.value && st.snapshots[t].manifest.value[p].Delta?
  }

  /** What the last base of a chain reads as, once the walk has stopped there. */
  ghost function BaseReading(rd: Rdiff, st: Store, base: Base, p: Path): Reading
    requires Valid(st)
  {
    match base
    case Current => if p in st.current then Content(st.current[p]) else Broken(CurrentMissing)
    case At(b) =>
      if b !in st.snapshots then Broken(SnapshotMissing(b))
      else
        match Read(rd, st, b, p)
        case Absent => Broken(BaseMissing(b))
        case r => r
  }

  ghost predicate KeepsAll(rd: Rdiff, st: Store, st': Store) {
    Valid(st) && Valid(st') && st'.snapshots.Keys == st.snapshots.Keys && Unchanged(rd, st, st')
  }

  /** Versions in `keep` read as they did. */
  ghost predicate KeepsThese(rd: Rdiff, st: Store, st': Store, keep: set<Time>) {
    && Valid(st) && Valid(st')
    && forall t, p :: t in keep ==> Read(rd, st', t, p) == Read(rd, st, t, p)
  }

  lemma PromotionStep(rd: Rdiff, st: Store, t: Time, p: Path, content: Bytes, s': Snapshot)
    requires Valid(st) && Lookup(st, t, p).Step? && Read(rd, st, t, p) == Content(content)
    requires PromotingSnapshot(st.snapshots[t], s', p, content)
    ensures KeepsAll(rd, st, With(st, t, s'))
  {
    assert With(st, t, s').snapshots[t] == s';
    PromotionKeepsAll(rd, st, With(st, t, s'), t, p, content);
  }

  /** The decision deltaifySnapshot takes for one file. */
  ghost predicate BecomesDelta(rd: Rdiff, st: Store, T: Time, p: Path, threshold: int,
                               keyframe: set<Path>, rdiffFails: set<Path>)
    requires T in st.snapshots && p in st.snapshots[T].full
  {
    && p in st.current && p !in keyframe && p !in rdiffFails
    && Saves(threshold, |st.snapshots[T].full[p]|,
             |rd.delta(rd.signature(st.current[p]), st.snapshots[T].full[p])|)
  }

  lemma RebaseStaysValid(st: Store, st': Store, changed: set<Path>, T: Time)
    requires Valid(st) && Rebased(st, st', changed, T)
    requires T in st.snapshots && forall t :: t in st.snapshots ==> t <= T
    ensures Valid(st')
  {
    forall t: Time, p
      ensures Lookup(st', t, p).Step? && Lookup(st', t, p).base.At? ==> t < Lookup(st', t, p).base.time
    {
      RebasedLookup(st, st', changed, T, t, p);
    }
  }

  /** No delta of snapshot `t` is based on `gone`. */
  ghost predicate NotBasedOn(st: Store, t: Time, gone: Time) {
    forall p :: HasDeltaEntry(st, t, p) ==> st.snapshots[t].manifest.value[p].base != At(gone)
  }

  lemma KeepsAllTransitive(rd: Rdiff, a: Store, b: Store, c: Store)
    requires KeepsAll(rd, a, b) && KeepsAll(rd, b, c)
    ensures KeepsAll(rd, a, c)
  {}

  lemma KeepsAllThenThese(rd: Rdiff, a: Store, b: Store, c: Store, keep: set<Time>)
    requires KeepsThese(rd, a, b, keep) && KeepsAll(rd, b, c)
    ensures KeepsThese(rd, a, c, keep)
  {
    forall t, p | t in keep ensures Read(rd, c, t, p) == Read(rd, a, t, p) {
      assert Read(rd, b, t, p) == Read(rd, a, t, p);
    }
  }

  // ----- Which snapshots to keep -----

  /** What the retention policy says of a snapshot of that age: within the hourly window,
      one candidate for a day, week, month or quarter, or beyond all tiers. */
  datatype Tier = Always | Period(key: string) | Expired

  /** The walk over the listing, newest first, keeps exactly every snapshot in the hourly
      window and the newest of each period. */
  method SelectKept(versions: seq<Time>, tierOf: Time -> Tier) returns (keep: set<Time>)
    requires forall i, j :: 0 <= i < j < |versions| ==> versions[i] > versions[j]
    ensures forall t :: t in keep <==> t in versions && NewestOfItsPeriod(versions, tierOf, t)
  {
    keep := {};
    var periods: set<string> := {};
    for i := 0 to |versions|
      invariant forall k :: k in periods <==> exists j :: 0 <= j < i && tierOf(versions[j]) == Period(k)
      invariant forall t :: t in keep <==>
        exists j :: 0 <= j < i && versions[j] == t && NewestOfItsPeriod(versions, tierOf, t)
    {
      var t := versions[i];
      match tierOf(t) {
        case Always => keep := keep + {t};
        case Period(k) =>
          if k !in periods {
            periods := periods + {k};
            keep := keep + {t};
          }
        case Expired =>
      }
    }
  }

  ghost predicate NewestOfItsPeriod(versions: seq<Time>, tierOf: Time -> Tier, t: Time) {
    match tierOf(t)
    case Always => true
    case Expired => false
    case Period(_) => forall u :: u in versions && tierOf(u) == tierOf(t) ==> u <= t
  }

  /** A trace that went well up to `from` and has kept everything since then. */
  lemma AllKept(rd: Rdiff, st: Store, from: Store, start: nat, seen: seq<Store>, trace: seq<Store>)
    requires start <= |seen| && seen <= trace && KeepsAll(rd, st, from)
    requires forall i :: start <= i < |seen| ==> KeepsAll(rd, st, seen[i])
    requires forall i :: |seen| <= i < |trace| ==> KeepsAll(rd, from, trace[i])
    ensures forall i :: start <= i < |trace| ==> KeepsAll(rd, st, trace[i])
  {
    forall i | start <= i < |trace| ensures KeepsAll(rd, st, trace[i]) {
      if i < |seen| {
        assert trace[i] == seen[i];
      } else {
        KeepsAllTransitive(rd, st, from, trace[i]);
      }
    }
  }

  /** Besides the full copies the manifest names, only those of `more` are there. */
  ghost predicate FullCopiesAre(s: Snapshot, m: Manifest, more: set<Path>) {
    forall p :: p in m ==> (p in s.full <==> m[p].Full? || p in more)
  }

  /** The full copy of a path that has become a delta is no longer needed. */
  lemma UnlinkingKeepsPublished(rd: Rdiff, st: Store, st': Store, T: Time, threshold: int, p: Path)
    requires Published(rd, st, st', T, threshold)
    requires p in st'.snapshots[T].manifest.value && st'.snapshots[T].manifest.value[p].Delta?
    ensures var s := st'.snapshots[T];
      Published(rd, st, With(st, T, s.(full := s.full - {p})), T, threshold)
  {
    var s := st'.snapshots[T];
    forall q | q in st.snapshots[T].full
      ensures Settled(rd, st, st.snapshots[T].full[q], s.(full := s.full - {p}), q, threshold)
    {
      assert Settled(rd, st, st.snapshots[T].full[q], s, q, threshold);
    }
  }

  class Service {
    const rd: Rdiff
    var disk: Store
    var activeTempFiles: set<nat>
    var tempFiles: map<nat, Bytes>
    var nextTemp: nat
    ghost var trace: seq<Store>

    ghost predicate Ok()
      reads this
    {
      && Valid(disk) && rd.Sound()
      && (forall n :: n in activeTempFiles || n in tempFiles ==> n < nextTemp)
    }

    constructor (rd: Rdiff, disk: Store)
      requires rd.Sound() && Valid(disk)
      ensures Ok() && this.rd == rd && this.disk == disk && activeTempFiles == {} && tempFiles == map[]
    {
      this.rd, this.disk, activeTempFiles, tempFiles, nextTemp, trace := rd, disk, {}, map[], 0, [];
    }

    /** One atomic change of the disk. */
    method Write(st: Store)
      modifies this`disk, this`trace
      ensures disk == st && trace == old(trace) + [st]
    {
      disk, trace := st, trace + [st];
    }

    /** Rewrite one snapshot directory, all else being as in `st`. */
    method Replace(ghost st: Store, t: Time, s: Snapshot)
      requires t in st.snapshots && t in disk.snapshots && disk == With(st, t, disk.snapshots[t])
      modifies this`disk, this`trace
      ensures disk == With(st, t, s) && trace == old(trace) + [disk]
    {
      Write(With(disk, t, s));
    }

    method CleanupTempFile(name: nat)
      modifies this`activeTempFiles, this`tempFiles
      ensures activeTempFiles == old(activeTempFiles) - {name} && tempFiles == old(tempFiles) - {name}
    {
      activeTempFiles, tempFiles := activeTempFiles - {name}, tempFiles - {name};
    }

    /** The two-phase walk computes exactly the recursive meaning, or reports that a patch
        failed; success leaves one temp file registered for a delta, failure leaves none. */
    method ReconstructFile(t: Time, p: Path, patchWorks: nat -> bool) returns (r: Reconstruction)
      requires Ok()
      modifies this`activeTempFiles, this`tempFiles, this`nextTemp
      ensures Ok()
      ensures r == Nothing <==> Read(rd, disk, t, p) == Absent
      ensures forall f :: r == Thrown(f) <==> Read(rd, disk, t, p) == Broken(f)
      ensures r.PatchFailed? <==>
        Read(rd, disk, t, p).Content? && exists i: nat :: i < ChainLength(disk, t, p) && !patchWorks(i)
      ensures r.InPlace? ==> Read(rd, disk, t, p) == Content(r.bytes) && ChainLength(disk, t, p) == 0
      ensures r.Temp? ==>
        && r.name !in old(activeTempFiles) && r.name !in old(tempFiles)
        && activeTempFiles == old(activeTempFiles) + {r.name}
        && r.name in tempFiles && tempFiles == old(tempFiles)[r.name := tempFiles[r.name]]
        && Read(rd, disk, t, p) == Content(tempFiles[r.name]) && ChainLength(disk, t, p) > 0
      ensures !r.Temp? ==> activeTempFiles == old(activeTempFiles) && tempFiles == old(tempFiles)
    {
      if t !in disk.snapshots { return Nothing; }
      if !HasDeltaEntry(disk, t, p) {
        if p in disk.snapshots[t].full { return InPlace(disk.snapshots[t].full[p]); }
        return Nothing;
      }

      var chain: seq<Bytes>, base: Base, fault: Option<Fault> := CollectChain(t, p);
      if fault.Some? { return Thrown(fault.value); }

      var file: Bytes;
      match base {
        case Current =>
          if p !in disk.current { return Thrown(CurrentMissing); }
          file := disk.current[p];
        case At(b) =>
          if p !in disk.snapshots[b].full { return Thrown(BaseMissing(b)); }
          file := disk.snapshots[b].full[p];
      }
      r := ApplyChain(chain, file, patchWorks);
    }

    /** Phase one: follow the bases until one is not a delta. */
    method CollectChain(t: Time, p: Path) returns (chain: seq<Bytes>, base: Base, fault: Option<Fault>)
      requires Ok() && HasDeltaEntry(disk, t, p)
      ensures fault.Some? ==> Read(rd, disk, t, p) == Broken(fault.value)
      ensures fault.None? ==>
        && chain != [] && |chain| == ChainLength(disk, t, p)
        && (base.At? ==> base.time in disk.snapshots && !HasDeltaEntry(disk, base.time, p))
        && Read(rd, disk, t, p) == Lift(rd, chain, BaseReading(rd, disk, base, p))
    {
      chain, base, fault := [], Current, None;
      var at := t;
      var walking := true;
      while walking
        invariant walking ==>
          && HasDeltaEntry(disk, at, p)
          && Read(rd, disk, t, p) == Lift(rd, chain, Read(rd, disk, at, p))
          && |chain| + ChainLength(disk, at, p) == ChainLength(disk, t, p)
        invariant !walking ==>
          && chain != [] && |chain| == ChainLength(disk, t, p)
          && (base.At? ==> base.time in disk.snapshots && !HasDeltaEntry(disk, base.time, p))
          && Read(rd, disk, t, p) == Lift(rd, chain, BaseReading(rd, disk, base, p))
        decreases walking, Later(disk, at)
      {
        var snapshot := disk.snapshots[at];
        if p !in snapshot.deltas { return chain, base, Some(DeltaMissing(at)); }
        var d := snapshot.deltas[p];
        base := snapshot.manifest.value[p].base;
        assert Lookup(disk, at, p) == Step(d, base);
        ghost var below := BaseReading(rd, disk, base, p);
        if below.Content? { PatchAllSnoc(rd, chain, d, below.bytes); }
        assert Read(rd, disk, at, p) == Patched(rd, d, below, CurrentMissing);
        assert Lift(rd, chain, Read(rd, disk, at, p)) == Lift(rd, chain + [d], below);
        chain := chain + [d];
        if base.At? && base.time !in disk.snapshots { return chain, base, Some(SnapshotMissing(base.time)); }
        if base == Current || !HasDeltaEntry(disk, base.time, p) {
          walking := false;
        } else {
          assert base.time in Later(disk, at) && base.time !in Later(disk, base.time);
          at := base.time;
        }
      }
    }

    ghost predicate TempsBelow()
      reads this
    {
      forall n :: n in activeTempFiles || n in tempFiles ==> n < nextTemp
    }

    /** One patch: a new temp file comes, and `previous`, when there is one, goes; when the patch
        fails both are gone. */
    method PatchOnce(file: Bytes, previous: set<nat>, delta: Bytes, works: bool) returns (output: nat, patched: Bytes)
      requires TempsBelow() && nextTemp !in previous
      modifies this`activeTempFiles, this`tempFiles, this`nextTemp
      ensures TempsBelow() && output == old(nextTemp) && nextTemp == output + 1
      ensures works ==> patched == rd.patch(file, delta)
      ensures activeTempFiles == old(activeTempFiles) - previous + if works then {output} else {}
      ensures tempFiles == if works then (old(tempFiles) - previous)[output := patched] else old(tempFiles) - previous
    {
      output := nextTemp;
      nextTemp := nextTemp + 1;
      activeTempFiles := activeTempFiles + {output};
      if works {
        patched := rd.patch(file, delta);
        tempFiles := tempFiles[output := patched];
      } else {
        patched := file;
        CleanupTempFile(output);
      }
      activeTempFiles, tempFiles := activeTempFiles - previous, tempFiles - previous;
    }

    /** Phase two: patch from the base outward, releasing each intermediate temp file. */
    method ApplyChain(chain: seq<Bytes>, base: Bytes, patchWorks: nat -> bool) returns (r: Reconstruction)
      requires TempsBelow() && chain != []
      modifies this`activeTempFiles, this`tempFiles, this`nextTemp
      ensures TempsBelow()
      ensures r.Temp? || r.PatchFailed?
      ensures r.PatchFailed? <==> exists i: nat :: i < |chain| && !patchWorks(i)
      ensures r.Temp? ==>
        && r.name !in old(activeTempFiles) && r.name !in old(tempFiles)
        && activeTempFiles == old(activeTempFiles) + {r.name}
        && tempFiles == old(tempFiles)[r.name := PatchAll(rd, chain, base)]
      ensures !r.Temp? ==> activeTempFiles == old(activeTempFiles) && tempFiles == old(tempFiles)
    {
      var file, previous: set<nat>, name := base, {}, nextTemp;
      var i := |chain|;
      while i > 0
        invariant 0 <= i <= |chain| && TempsBelow() && nextTemp >= old(nextTemp)
        invariant file == PatchAll(rd, chain[i..], base)
        invariant forall k: nat :: k < |chain| - i ==> patchWorks(k)
        invariant if i < |chain| then
                    && previous == {name} && old(nextTemp) <= name < nextTemp
                    && tempFiles == old(tempFiles)[name := file] && activeTempFiles == old(activeTempFiles) + {name}
                  else previous == {} && activeTempFiles == old(activeTempFiles) && tempFiles == old(tempFiles)
      {
        i := i - 1;
        assert chain[i..][1..] == chain[i + 1..];
        var output, patched := PatchOnce(file, previous, chain[i], patchWorks(|chain| - 1 - i));
        if !patchWorks(|chain| - 1 - i) { return PatchFailed(|chain| - i); }
        file, previous, name := patched, {output}, output;
      }
      assert chain[0..] == chain;
      r := Temp(name);
    }

    /** One write on the way of a promotion that started from `st`. */
    method PromotionWrite(ghost st: Store, t: Time, p: Path, ghost content: Bytes, s: Snapshot)
      requires Lookup(st, t, p).Step? && t in disk.snapshots && disk == With(st, t, disk.snapshots[t])
      requires PromotingSnapshot(st.snapshots[t], s, p, content)
      modifies this`disk, this`trace
      ensures disk == With(st, t, s) && trace == old(trace) + [disk]
      ensures Promoting(st, disk, t, p, content)
    {
      Replace(st, t, s);
    }

    /** Copy the content in, swap the manifest, unlink the delta. */
    method InstallFull(t: Time, p: Path, content: Bytes, part: Bytes, temp: Option<nat>, unlinkWorks: bool)
      requires Lookup(disk, t, p).Step?
      modifies this`disk, this`trace, this`activeTempFiles, this`tempFiles
      ensures temp.Some? ==> activeTempFiles == old(activeTempFiles) - {temp.value}
      ensures temp.Some? ==> tempFiles == old(tempFiles) - {temp.value}
      ensures temp.None? ==> activeTempFiles == old(activeTempFiles) && tempFiles == old(tempFiles)
      ensures old(trace) < trace && disk == trace[|trace| - 1]
      ensures forall i :: |old(trace)| <= i < |trace| ==> Promoting(old(disk), trace[i], t, p, content)
      ensures var s' := PromotedSnapshot(old(disk).snapshots[t], p, content);
        disk == With(old(disk), t, if unlinkWorks then s' else s'.(deltas := old(disk).snapshots[t].deltas))
    {
      ghost var st := disk;
      CopyIn(st, t, p, content, part);
      if temp.Some? { CleanupTempFile(temp.value); }
      SwapAndUnlink(st, t, p, content, unlinkWorks);
    }

    /** The full copy, first as far as it gets and then complete. */
    method CopyIn(ghost st: Store, t: Time, p: Path, content: Bytes, part: Bytes)
      requires Lookup(st, t, p).Step? && disk == st
      modifies this`disk, this`trace
      ensures old(trace) < trace && disk == trace[|trace| - 1]
      ensures disk == With(st, t, st.snapshots[t].(full := st.snapshots[t].full[p := content]))
      ensures forall i :: |old(trace)| <= i < |trace| ==> Promoting(st, trace[i], t, p, content)
    {
      var s := disk.snapshots[t];
      assert disk == With(st, t, disk.snapshots[t]);
      PromotionWrite(st, t, p, content, s.(full := s.full[p := part]));
      PromotionWrite(st, t, p, content, s.(full := s.full[p := content]));
    }

    method SwapAndUnlink(ghost st: Store, t: Time, p: Path, content: Bytes, unlinkWorks: bool)
      requires Lookup(st, t, p).Step?
      requires disk == With(st, t, st.snapshots[t].(full := st.snapshots[t].full[p := content]))
      modifies this`disk, this`trace
      ensures old(trace) < trace && disk == trace[|trace| - 1]
      ensures forall i :: |old(trace)| <= i < |trace| ==> Promoting(st, trace[i], t, p, content)
      ensures var s' := PromotedSnapshot(st.snapshots[t], p, content);
        disk == With(st, t, if unlinkWorks then s' else s'.(deltas := st.snapshots[t].deltas))
    {
      var s := disk.snapshots[t];
      s := s.(manifest := Some(s.manifest.value[p := Full(s.manifest.value[p].originalSize)]));
      assert s == PromotedSnapshot(st.snapshots[t], p, content).(deltas := st.snapshots[t].deltas);
      PromotionWrite(st, t, p, content, s);
      if unlinkWorks { PromotionWrite(st, t, p, content, s.(deltas := s.deltas - {p})); }
    }

    /** Promotion never changes what any version reads as, whenever it is cut short, and
        releases every temp file. `part` is what a torn copy leaves in the full file. */
    method PromoteDeltaToFull(t: Time, p: Path, patchWorks: nat -> bool, part: Bytes, unlinkWorks: bool)
      returns (outcome: Outcome)
      requires Ok()
      modifies this
      ensures Ok() && activeTempFiles == old(activeTempFiles) && tempFiles == old(tempFiles)
      ensures old(trace) <= trace
      ensures forall i :: |old(trace)| <= i < |trace| ==> KeepsAll(rd, old(disk), trace[i])
      ensures KeepsAll(rd, old(disk), disk)
      ensures outcome == Skipped <==> !HasDeltaEntry(old(disk), t, p)
      ensures outcome != Done ==> disk == old(disk)
      ensures outcome == Done ==>
        && Lookup(old(disk), t, p).Step? && Read(rd, old(disk), t, p).Content?
        && var s' := PromotedSnapshot(old(disk).snapshots[t], p, Read(rd, old(disk), t, p).bytes);
           disk == old(disk).(snapshots := old(disk).snapshots[t :=
             if unlinkWorks then s' else s'.(deltas := old(disk).snapshots[t].deltas)])
    {
      if !HasDeltaEntry(disk, t, p) { return Skipped; }
      var result := ReconstructFile(t, p, patchWorks);
      ghost var st := disk;
      if !(result.InPlace? || result.Temp?) { return Failed(result); }
      assert Lookup(st, t, p).Step?;
      var content := if result.Temp? then tempFiles[result.name] else result.bytes;
      assert Read(rd, st, t, p) == Content(content);

      InstallFull(t, p, content, part, if result.Temp? then Some(result.name) else None, unlinkWorks);
      assert tempFiles == old(tempFiles);
      forall i | |old(trace)| <= i < |trace| ensures KeepsAll(rd, st, trace[i]) {
        assert Promoting(st, trace[i], t, p, content);
        PromotionStep(rd, st, t, p, content, trace[i].snapshots[t]);
      }
      assert disk == trace[|trace| - 1];
      outcome := Done;
    }

    /** Retarget the deltas of the newest manifested snapshot, in one atomic write. `versions`
        is the directory listing, newest first. */
    method RebaseDeltas(changed: set<Path>, T: Time, versions: seq<Time>)
      requires Ok() && Newest(T) && Lists(versions)
      modifies this`disk, this`trace
      ensures Rebased(old(disk), disk, changed, T) && Ok()
      ensures trace == if disk == old(disk) then old(trace) else old(trace) + [disk]
    {
      for i := 0 to |versions|
        invariant disk == old(disk) && trace == old(trace)
        invariant forall j :: 0 <= j < i ==> versions[j] == T || disk.snapshots[versions[j]].manifest.None?
      {
        var n := versions[i];
        if n != T && disk.snapshots[n].manifest.Some? {
          var m := disk.snapshots[n].manifest.value;
          var rebased, dirty := RebaseEntries(m, changed, T);
          assert forall k :: IsNewestManifested(disk, T, k) ==> k == n;
          assert IsNewestManifested(disk, T, n);
          if dirty {
            Write(With(disk, n, disk.snapshots[n].(manifest := Some(rebased))));
          } else {
            assert With(disk, n, disk.snapshots[n].(manifest := Some(rebased))) == disk;
          }
          assert disk == RebaseAt(old(disk), n, changed, T);
          RebaseStaysValid(old(disk), disk, changed, T);
          return;
        }
      }
      assert forall k :: !IsNewestManifested(disk, T, k);
    }

    method RebaseEntries(m: Manifest, changed: set<Path>, T: Time) returns (m': Manifest, dirty: bool)
      ensures m' == RebaseManifest(m, changed, T)
      ensures dirty <==> m' != m
    {
      m', dirty := m, false;
      var todo := m.Keys;
      while todo != {}
        invariant todo <= m.Keys && m'.Keys == m.Keys
        invariant forall p :: p in m ==> m'[p] == if p in todo then m[p] else RebaseEntry(m[p], p, changed, T)
        invariant dirty <==> m' != m
      {
        var p :| p in todo;
        var entry := m'[p];
        if entry.Delta? && entry.base == Current && p in changed {
          m' := m'[p := entry.(base := At(T))];
          dirty := true;
          assert m'[p] != m[p];
        }
        todo := todo - {p};
      }
    }

    /** Replace the full copies of a fresh snapshot by deltas onto the live tree, where that
        saves enough; publish the manifest; unlink. `keyframe` are the paths whose age or chain
        calls for a full copy, `rdiffFails` those rdiff fails on, `stuck` those that cannot be
        unlinked, and `torn` is what a delta looks like before it is complete. */
    method DeltaifySnapshot(T: Time, threshold: int, keyframe: set<Path>, rdiffFails: set<Path>,
                            stuck: set<Path>, torn: Bytes)
      requires Ok() && T in disk.snapshots && disk.snapshots[T].manifest.None?
      requires disk.snapshots[T].deltas.Keys <= disk.snapshots[T].full.Keys
      modifies this`disk, this`trace
      ensures Ok() && old(trace) <= trace
      ensures forall i :: |old(trace)| <= i < |trace| ==> KeepsAll(rd, old(disk), trace[i])
      ensures KeepsAll(rd, old(disk), disk)
      ensures old(disk).snapshots[T].full == map[] ==> disk == old(disk)
      ensures old(disk).snapshots[T].full != map[] ==>
        && Published(rd, old(disk), disk, T, threshold)
        && forall p :: p in old(disk).snapshots[T].full ==>
             && (disk.snapshots[T].manifest.value[p].Delta? <==>
                  BecomesDelta(rd, old(disk), T, p, threshold, keyframe, rdiffFails))
             && (p in disk.snapshots[T].full <==> disk.snapshots[T].manifest.value[p].Full? || p in stuck)
    {
      if |disk.snapshots[T].full| == 0 { return; }
      ghost var st := disk;
      var m := WriteDeltas(T, threshold, keyframe, rdiffFails, torn);
      Replace(st, T, disk.snapshots[T].(manifest := Some(m)));
      assert forall p :: p in m ==> Settled(rd, st, st.snapshots[T].full[p], disk.snapshots[T], p, threshold);
      assert Published(rd, st, disk, T, threshold);
      UnlinkConverted(st, T, stuck, threshold);
      forall i | |old(trace)| <= i < |trace| ensures KeepsAll(rd, st, trace[i]) {
        DeltaifyKeepsAll(rd, st, trace[i], T, threshold);
      }
      DeltaifyKeepsAll(rd, st, disk, T, threshold);
    }

    method WriteDeltas(T: Time, threshold: int, keyframe: set<Path>, rdiffFails: set<Path>, torn: Bytes)
      returns (m: Manifest)
      requires T in disk.snapshots && disk.snapshots[T].manifest.None?
      requires disk.snapshots[T].deltas.Keys <= disk.snapshots[T].full.Keys
      modifies this`disk, this`trace
      ensures Converting(old(disk), disk, T) && old(trace) <= trace
      ensures forall i :: |old(trace)| <= i < |trace| ==> Converting(old(disk), trace[i], T)
      ensures m.Keys == old(disk).snapshots[T].full.Keys
      ensures forall p :: p in m ==>
        && Backed(rd, old(disk), old(disk).snapshots[T].full[p], m[p], disk.snapshots[T], p, threshold)
        && (m[p].Delta? <==> BecomesDelta(rd, old(disk), T, p, threshold, keyframe, rdiffFails))
    {
      ghost var st := disk;
      m := map[];
      var files := disk.snapshots[T].full;
      var todo := files.Keys;
      while todo != {}
        invariant todo <= files.Keys && m.Keys == files.Keys - todo
        invariant Converting(st, disk, T) && old(trace) <= trace
        invariant forall i :: |old(trace)| <= i < |trace| ==> Converting(st, trace[i], T)
        invariant forall p :: p in m ==>
          && Backed(rd, st, files[p], m[p], disk.snapshots[T], p, threshold)
          && (m[p].Delta? <==> BecomesDelta(rd, st, T, p, threshold, keyframe, rdiffFails))
      {
        var p :| p in todo;
        todo := todo - {p};
        var e := ConvertFile(st, T, p, threshold, keyframe, rdiffFails, torn);
        m := m[p := e];
      }
    }

    /** One task of the pool: write `p.rdelta`, keep it or take it back. */
    method ConvertFile(ghost st: Store, T: Time, p: Path, threshold: int, keyframe: set<Path>,
                       rdiffFails: set<Path>, torn: Bytes) returns (e: Entry)
      requires Converting(st, disk, T) && p in disk.snapshots[T].full
      modifies this`disk, this`trace
      ensures Converting(st, disk, T) && old(trace) <= trace
      ensures forall i :: |old(trace)| <= i < |trace| ==> Converting(st, trace[i], T)
      ensures SameExcept(old(disk).snapshots[T].deltas, disk.snapshots[T].deltas, p)
      ensures Backed(rd, st, st.snapshots[T].full[p], e, disk.snapshots[T], p, threshold)
      ensures e.Delta? <==> BecomesDelta(rd, st, T, p, threshold, keyframe, rdiffFails)
    {
      var s := disk.snapshots[T];
      var file := s.full[p];
      if p !in disk.current || p in keyframe { return Full(|file|); }
      Replace(st, T, s.(deltas := s.deltas[p := torn]));
      if p !in rdiffFails {
        var d := rd.delta(rd.signature(disk.current[p]), file);
        Replace(st, T, s.(deltas := s.deltas[p := d]));
        if Saves(threshold, |file|, |d|) { return Delta(|file|, |d|, Current); }
      }
      Replace(st, T, s.(deltas := s.deltas - {p}));
      e := Full(|file|);
    }

    method UnlinkFull(ghost st: Store, T: Time, p: Path, ghost threshold: int)
      requires Published(rd, st, disk, T, threshold)
      requires p in disk.snapshots[T].manifest.value && disk.snapshots[T].manifest.value[p].Delta?
      modifies this`disk, this`trace
      ensures Published(rd, st, disk, T, threshold) && trace == old(trace) + [disk]
      ensures var s := old(disk).snapshots[T]; disk.snapshots[T] == s.(full := s.full - {p})
    {
      var s := disk.snapshots[T];
      UnlinkingKeepsPublished(rd, st, disk, T, threshold, p);
      Replace(st, T, s.(full := s.full - {p}));
    }

    /** Once the manifest is out, the converted full copies go, one at a time. */
    method UnlinkConverted(ghost st: Store, T: Time, stuck: set<Path>, ghost threshold: int)
      requires Published(rd, st, disk, T, threshold) && disk.snapshots[T].full == st.snapshots[T].full
      modifies this`disk, this`trace
      ensures Published(rd, st, disk, T, threshold) && old(trace) <= trace
      ensures forall i :: |old(trace)| <= i < |trace| ==> Published(rd, st, trace[i], T, threshold)
      ensures disk.snapshots[T].manifest == old(disk).snapshots[T].manifest
      ensures FullCopiesAre(disk.snapshots[T], disk.snapshots[T].manifest.value, stuck)
    {
      var m := disk.snapshots[T].manifest.value;
      var todo := set p | p in m && m[p].Delta?;
      while todo != {}
        invariant todo <= m.Keys && forall p :: p in todo ==> m[p].Delta?
        invariant Published(rd, st, disk, T, threshold) && old(trace) <= trace
        invariant forall i :: |old(trace)| <= i < |trace| ==> Published(rd, st, trace[i], T, threshold)
        invariant disk.snapshots[T].manifest == Some(m) && FullCopiesAre(disk.snapshots[T], m, stuck + todo)
      {
        var p :| p in todo;
        todo := todo - {p};
        if p !in stuck {
          UnlinkFull(st, T, p, threshold);
        }
      }
    }

    /** Turn every delta based on `gone` into a full copy, so that `gone` may be deleted. If one
        cannot be reconstructed, report it and stop: nothing may be deleted then. */
    method PromoteDependents(gone: Time, versions: seq<Time>, patchWorks: nat -> bool, part: Bytes, unlinkWorks: bool)
      returns (failure: Option<Reconstruction>)
      requires Ok() && forall t :: t in disk.snapshots ==> t in versions
      modifies this
      ensures Ok() && activeTempFiles == old(activeTempFiles) && tempFiles == old(tempFiles)
      ensures old(trace) <= trace
      ensures forall i :: |old(trace)| <= i < |trace| ==> KeepsAll(rd, old(disk), trace[i])
      ensures KeepsAll(rd, old(disk), disk)
      ensures failure.None? ==> Unreferenced(disk, gone)
    {
      for i := 0 to |versions|
        invariant Ok() && activeTempFiles == old(activeTempFiles) && tempFiles == old(tempFiles)
        invariant old(trace) <= trace
        invariant forall k :: |old(trace)| <= k < |trace| ==> KeepsAll(rd, old(disk), trace[k])
        invariant KeepsAll(rd, old(disk), disk)
        invariant forall j :: 0 <= j < i && versions[j] < gone ==> NotBasedOn(disk, versions[j], gone)
      {
        var dependent := versions[i];
        if dependent < gone && dependent in disk.snapshots && disk.snapshots[dependent].manifest.Some? {
          failure := PromoteIn(dependent, gone, patchWorks, part, unlinkWorks);
          if failure.Some? { return; }
        }
      }
      failure := None;
      forall u: Time, q | Lookup(disk, u, q).Step? && u != gone
        ensures Lookup(disk, u, q).base != At(gone)
      {
        assert u in versions;
        assert u < gone ==> NotBasedOn(disk, u, gone);
      }
    }

    /** The promotions in one dependent snapshot. */
    method PromoteIn(dependent: Time, gone: Time, patchWorks: nat -> bool, part: Bytes, unlinkWorks: bool)
      returns (failure: Option<Reconstruction>)
      requires Ok() && dependent in disk.snapshots && disk.snapshots[dependent].manifest.Some?
      modifies this
      ensures Ok() && activeTempFiles == old(activeTempFiles) && tempFiles == old(tempFiles)
      ensures old(trace) <= trace
      ensures forall i :: |old(trace)| <= i < |trace| ==> KeepsAll(rd, old(disk), trace[i])
      ensures KeepsAll(rd, old(disk), disk)
      ensures forall t :: t in disk.snapshots && t != dependent ==> disk.snapshots[t] == old(disk).snapshots[t]
      ensures failure.None? ==> NotBasedOn(disk, dependent, gone)
    {
      var m := disk.snapshots[dependent].manifest.value;
      var todo := m.Keys;
      while todo != {}
        invariant todo <= m.Keys
        invariant Ok() && activeTempFiles == old(activeTempFiles) && tempFiles == old(tempFiles)
        invariant old(trace) <= trace
        invariant forall i :: |old(trace)| <= i < |trace| ==> KeepsAll(rd, old(disk), trace[i])
        invariant KeepsAll(rd, old(disk), disk)
        invariant forall t :: t in disk.snapshots && t != dependent ==> disk.snapshots[t] == old(disk).snapshots[t]
        invariant dependent in disk.snapshots && disk.snapshots[dependent].manifest.Some?
        invariant forall p :: HasDeltaEntry(disk, dependent, p) ==>
          p in m && disk.snapshots[dependent].manifest.value[p] == m[p]
        invariant forall p :: HasDeltaEntry(disk, dependent, p) && p !in todo ==> m[p].base != At(gone)
      {
        var p :| p in todo;
        todo := todo - {p};
        if m[p].Delta? && m[p].base == At(gone) {
          ghost var before, seen := disk, trace;
          var outcome := PromoteDeltaToFull(dependent, p, patchWorks, part, unlinkWorks);
          AllKept(rd, old(disk), before, |old(trace)|, seen, trace);
          KeepsAllTransitive(rd, old(disk), before, disk);
          if outcome.Failed? { return Some(outcome.error); }
        }
      }
      failure := None;
    }

    /** Delete every listed snapshot that is not kept. Kept versions read the same in every state on
        the way; when all went well exactly the kept snapshots are left, and when a dependent
        could not be promoted the pruning stops with everything not yet deleted intact. */
    method PruneVersions(keep: set<Time>, versions: seq<Time>, patchWorks: nat -> bool, part: Bytes, unlinkWorks: bool)
      returns (failure: Option<Reconstruction>)
      requires Ok() && Lists(versions)
      modifies this
      ensures Ok() && activeTempFiles == old(activeTempFiles) && tempFiles == old(tempFiles)
      ensures old(trace) <= trace
      ensures forall i :: |old(trace)| <= i < |trace| ==> KeepsThese(rd, old(disk), trace[i], keep)
      ensures KeepsThese(rd, old(disk), disk, disk.snapshots.Keys)
      ensures disk.snapshots.Keys <= old(disk).snapshots.Keys
      ensures old(disk).snapshots.Keys * keep <= disk.snapshots.Keys
      ensures failure.None? ==> disk.snapshots.Keys == old(disk).snapshots.Keys * keep
    {
      for i := 0 to |versions|
        invariant Ok() && activeTempFiles == old(activeTempFiles) && tempFiles == old(tempFiles)
        invariant old(trace) <= trace
        invariant forall k :: |old(trace)| <= k < |trace| ==> KeepsThese(rd, old(disk), trace[k], keep)
        invariant KeepsThese(rd, old(disk), disk, disk.snapshots.Keys + keep)
        invariant forall t :: t in disk.snapshots <==> t in versions && (t in keep || t in versions[i..])
      {
        var gone := versions[i];
        assert versions[i..][1..] == versions[i + 1..] && gone !in versions[i + 1..];
        if gone !in keep {
          ghost var seen := trace;
          failure := PruneOne(old(disk), gone, keep, versions, patchWorks, part, unlinkWorks);
          assert forall k :: |old(trace)| <= k < |seen| ==> trace[k] == seen[k];
          if failure.Some? { return; }
        }
      }
      failure := None;
    }

    method PruneOne(ghost st: Store, gone: Time, ghost keep: set<Time>, versions: seq<Time>,
                    patchWorks: nat -> bool, part: Bytes, unlinkWorks: bool)
      returns (failure: Option<Reconstruction>)
      requires Ok() && gone in disk.snapshots && gone !in keep
      requires forall t :: t in disk.snapshots ==> t in versions
      requires KeepsThese(rd, st, disk, disk.snapshots.Keys + keep)
      modifies this
      ensures Ok() && activeTempFiles == old(activeTempFiles) && tempFiles == old(tempFiles)
      ensures old(trace) <= trace
      ensures forall i :: |old(trace)| <= i < |trace| ==> KeepsThese(rd, st, trace[i], keep)
      ensures KeepsThese(rd, st, disk, disk.snapshots.Keys + keep)
      ensures disk.snapshots.Keys ==
        if failure.None? then old(disk).snapshots.Keys - {gone} else old(disk).snapshots.Keys
    {
      ghost var before := disk;
      failure := PromoteDependents(gone, versions, patchWorks, part, unlinkWorks);
      ghost var seen := trace;
      forall k | |old(trace)| <= k < |trace| ensures KeepsThese(rd, st, trace[k], keep) {
        KeepsAllThenThese(rd, st, before, trace[k], keep);
      }
      KeepsAllThenThese(rd, st, before, disk, before.snapshots.Keys + keep);
      if failure.None? {
        RemoveSnapshot(st, gone, keep);
        assert forall k :: |old(trace)| <= k < |seen| ==> trace[k] == seen[k];
      }
    }

    /** `rm -r` of one snapshot directory, here in two stages. */
    method RemoveSnapshot(ghost st: Store, gone: Time, ghost keep: set<Time>)
      requires Ok() && gone in disk.snapshots && gone !in keep && Unreferenced(disk, gone)
      requires KeepsThese(rd, st, disk, disk.snapshots.Keys + keep)
      modifies this`disk, this`trace
      ensures Ok() && old(trace) <= trace
      ensures forall i :: |old(trace)| <= i < |trace| ==> KeepsThese(rd, st, trace[i], keep)
      ensures disk.snapshots == old(disk).snapshots - {gone}
      ensures KeepsThese(rd, st, disk, disk.snapshots.Keys + keep)
    {
      ghost var before := disk;
      Write(With(disk, gone, disk.snapshots[gone].(manifest := None, full := map[])));
      assert disk.snapshots - {gone} == before.snapshots - {gone};
      RemovalKeepsOthers(rd, before, disk, gone);
      Write(disk.(snapshots := disk.snapshots - {gone}));
      assert disk.snapshots - {gone} == before.snapshots - {gone};
      RemovalKeepsOthers(rd, before, disk, gone);
    }

    ghost predicate Newest(T: Time)
      reads this
    {
      T in disk.snapshots && forall t :: t in disk.snapshots ==> t <= T
    }

    /** `versions` is the listing of `.versions`, newest first. */
    ghost predicate Lists(versions: seq<Time>)
      reads this
    {
      && (forall t :: t in disk.snapshots <==> t in versions)
      && forall i, j :: 0 <= i < j < |versions| ==> versions[i] > versions[j]
    }
  }
}
