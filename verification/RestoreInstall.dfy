/** Installing a staged database restore at startup: all or nothing under faults, and safe to run
    again after a crash at any step. */
module RestoreInstall {
  import opened Wrappers

  type Bytes = string
  datatype Suffix = Main | Wal | Shm
  datatype Name = Live(suffix: Suffix) | Pending | Safety(timestamp: nat, suffix: Suffix)
  type Fs = map<Name, Bytes>

  const SUFFIXES: seq<Suffix> := [Main, Wal, Shm]
  const KEEP := 3

  function Renamed(fs: Fs, a: Name, b: Name): Fs
    requires a in fs
  {
    (fs - {a})[b := fs[a]]
  }

  /** The timestamps of the safety copies there are. */
  function Groups(fs: Fs): set<nat> {
    set n | n in fs && n.Safety? :: n.timestamp
  }

  function Newer(groups: set<nat>, t: nat): set<nat> {
    set u | u in groups && u > t
  }

  /** At least `KEEP` groups are newer. */
  predicate Expired(groups: set<nat>, t: nat) {
    t in groups && |Newer(groups, t)| >= KEEP
  }

  predicate NewerThanAll(fs: Fs, timestamp: nat) {
    forall t :: t in Groups(fs) ==> t < timestamp
  }

  function SetOf<T>(s: seq<T>): set<T> {
    set t | t in s
  }

  lemma SetOfSnoc<T>(s: seq<T>, t: T)
    ensures SetOf(s + [t]) == SetOf(s) + {t}
  {
  }

  // ----- What a run may leave behind -----

  predicate Same(a: Fs, b: Fs, n: Name) {
    (n in a <==> n in b) && (n in a ==> a[n] == b[n])
  }

  /** `fs` is `fs0` with the live files in `moved` renamed to safety copies. */
  ghost predicate MovedAway(fs0: Fs, fs: Fs, timestamp: nat, moved: set<Suffix>) {
    forall n: Name ::
      match n
      case Live(s) => if s in moved then n in fs0 && n !in fs else Same(fs0, fs, n)
      case Safety(t, s) =>
        if t == timestamp then (n in fs <==> s in moved) && (s in moved ==> Live(s) in fs0 && fs[n] == fs0[Live(s)])
        else Same(fs0, fs, n)
      case Pending => Same(fs0, fs, n)
  }

  function LiveSuffixes(fs: Fs): set<Suffix> {
    set s | Live(s) in fs
  }

  /** The groups there are once the live files have been saved. */
  function GroupsAfter(fs0: Fs, timestamp: nat): set<nat> {
    Groups(fs0) + (if LiveSuffixes(fs0) == {} then {} else {timestamp})
  }

  /** The safety copies of all live files. */
  function SavedCopies(fs: Fs, timestamp: nat): Fs {
    map s | s in SUFFIXES && Live(s) in fs :: Safety(timestamp, s) := fs[Live(s)]
  }

  /** The candidate is live and alone, the old files are saved, and what rotation drops is
      expired. */
  ghost predicate Installed(fs0: Fs, fs: Fs, timestamp: nat) {
    && Pending in fs0 && Pending !in fs
    && Live(Main) in fs && fs[Live(Main)] == fs0[Pending] && Live(Wal) !in fs && Live(Shm) !in fs
    && (forall s :: Same(SavedCopies(fs0, timestamp), fs, Safety(timestamp, s)))
    && (forall t, s :: t != timestamp ==>
          if Expired(GroupsAfter(fs0, timestamp), t) then Safety(t, s) !in fs else Same(fs0, fs, Safety(t, s)))
  }

  /** Nothing has changed, or only the candidate and copies already expired are gone. */
  ghost predicate RolledBack(fs0: Fs, fs: Fs, timestamp: nat) {
    || fs == fs0
    || (&& Pending !in fs
        && forall n :: n != Pending && !Same(fs0, fs, n) ==>
             n.Safety? && n !in fs && Expired(GroupsAfter(fs0, timestamp), n.timestamp))
  }

  /** Every file that was live is still on disk. */
  ghost predicate OldFilesStored(fs0: Fs, fs: Fs, timestamp: nat) {
    forall s :: Live(s) in fs0 ==>
      || (Live(s) in fs && fs[Live(s)] == fs0[Live(s)])
      || (Safety(timestamp, s) in fs && fs[Safety(timestamp, s)] == fs0[Live(s)])
  }

  /** The candidate is still staged, or it is live and whatever was live is saved. */
  ghost predicate CandidateStored(fs0: Fs, fs: Fs) {
    Pending in fs0 &&
    if Pending in fs then fs[Pending] == fs0[Pending]
    else Live(Main) in fs && fs[Live(Main)] == fs0[Pending]
  }

  /** Every live file is saved under `timestamp`; of the older copies only expired ones may be gone. */
  ghost predicate AllSaved(fs0: Fs, fs: Fs, timestamp: nat) {
    forall t, s ::
      if t == timestamp then
        (Safety(t, s) in fs <==> Live(s) in fs0) && (Live(s) in fs0 ==> fs[Safety(t, s)] == fs0[Live(s)])
      else
        Same(fs0, fs, Safety(t, s)) || (Safety(t, s) !in fs && Expired(GroupsAfter(fs0, timestamp), t))
  }

  ghost predicate OlderCopiesKept(fs0: Fs, fs: Fs, timestamp: nat) {
    forall t, s :: t != timestamp ==> Same(fs0, fs, Safety(t, s))
  }

  /** The candidate has been renamed into place. */
  ghost predicate Placed(fs0: Fs, fs: Fs, timestamp: nat) {
    && AllSaved(fs0, fs, timestamp) && Pending in fs0 && Pending !in fs
    && Live(Main) in fs && fs[Live(Main)] == fs0[Pending]
  }

  /** What holds at every step of a run. */
  ghost predicate AtEveryStep(fs0: Fs, fs: Fs, timestamp: nat) {
    && OldFilesStored(fs0, fs, timestamp)
    && (forall n :: n in fs && n.Safety? && n.timestamp != timestamp ==> n in fs0 && fs[n] == fs0[n])
    && (forall n :: n in fs0 && n.Safety? && n !in fs ==> Expired(GroupsAfter(fs0, timestamp), n.timestamp))
    && Groups(fs) <= GroupsAfter(fs0, timestamp)
  }

  // ----- The installer -----

  datatype Result = NothingPending | Restored(saved: Option<nat>) | Failed

  class Installer {
    var fs: Fs
    var steps: nat
    ghost var trace: seq<Fs>
    /** How many states of the trace came before any rolling back. */
    ghost var forward: nat
    /** Which forward steps fail; a step that fails changes nothing. */
    const fault: nat -> bool
    const valid: Bytes -> bool
    /** What checking the live database leaves beside it, if anything. */
    const leavings: Option<Bytes>

    constructor (fs: Fs, fault: nat -> bool, valid: Bytes -> bool, leavings: Option<Bytes>)
      ensures this.fs == fs && this.fault == fault && this.valid == valid && this.leavings == leavings
    {
      this.fs, this.fault, this.valid, this.leavings := fs, fault, valid, leavings;
      steps, trace, forward := 0, [fs], 1;
    }

    ghost predicate TraceOk(fs0: Fs, timestamp: nat)
      reads this
    {
      forall i :: 0 <= i < |trace| ==> AtEveryStep(fs0, trace[i], timestamp)
    }

    ghost predicate TraceForward(fs0: Fs)
      reads this
    {
      forall i :: 0 <= i < |trace| ==> CandidateStored(fs0, trace[i])
    }

    /** The candidate is stored in every state before rolling back begins; rolling back loses it just
        when it had been installed by then, and with its first step. */
    ghost predicate ForwardKeepsCandidate(fs0: Fs)
      reads this
    {
      && 0 < forward <= |trace|
      && (forall i :: 0 <= i < forward ==> CandidateStored(fs0, trace[i]))
      && (Pending in trace[forward - 1] ==> TraceForward(fs0))
      && (Pending !in trace[forward - 1] && forward < |trace| ==> !CandidateStored(fs0, trace[forward]))
    }

    method Step() returns (ok: bool)
      modifies `steps
      ensures ok == !fault(old(steps)) && steps == old(steps) + 1
    {
      ok := !fault(steps);
      steps := steps + 1;
    }

    method Put(fs': Fs)
      modifies `fs, `trace
      ensures fs == fs' && trace == old(trace) + [fs']
    {
      fs, trace := fs', trace + [fs'];
    }

    method RemoveIfExists(n: Name) returns (ok: bool)
      modifies `fs, `trace, `steps
      ensures fs == if ok then old(fs) - {n} else old(fs)
      ensures trace == old(trace) || trace == old(trace) + [fs]
      ensures (forall i :: !fault(i)) ==> ok
    {
      if n !in fs { return true; }
      ok := Step();
      if ok { Put(fs - {n}); }
    }

    /** Moves one live file aside; `did` when it moved, even if a later step failed. */
    method SaveOne(ghost fs0: Fs, timestamp: nat, ghost moved: set<Suffix>, s: Suffix) returns (ok: bool, did: bool)
      requires NewerThanAll(fs0, timestamp) && Pending in fs0 && s !in moved
      requires MovedAway(fs0, fs, timestamp, moved) && TraceOk(fs0, timestamp) && TraceForward(fs0)
      modifies `fs, `trace, `steps
      ensures MovedAway(fs0, fs, timestamp, if did then moved + {s} else moved)
      ensures TraceOk(fs0, timestamp) && TraceForward(fs0)
      ensures did ==> Live(s) in fs0
      ensures ok ==> did == (Live(s) in fs0)
      ensures (forall i :: !fault(i)) ==> ok
    {
      assert Same(fs0, fs, Live(s));
      if Live(s) !in fs { return true, false; }
      assert Safety(timestamp, s) !in fs;
      ok := RemoveIfExists(Safety(timestamp, s));
      assert fs == old(fs);
      MovedIsFine(fs0, fs, timestamp, moved);
      if !ok { return false, false; }
      ok := Step();
      if !ok { return false, false; }
      MoveOne(fs0, fs, timestamp, moved, s);
      Put(Renamed(fs, Live(s), Safety(timestamp, s)));
      ok := Step();
      did := true;
    }

    /** The files in place of the database move aside one by one. */
    method SaveLive(ghost fs0: Fs, timestamp: nat) returns (ok: bool, moved: seq<Suffix>)
      requires fs == fs0 && NewerThanAll(fs0, timestamp) && Pending in fs0
      requires TraceOk(fs0, timestamp) && TraceForward(fs0)
      modifies `fs, `trace, `steps
      ensures MovedAway(fs0, fs, timestamp, SetOf(moved)) && Unique(moved)
      ensures ok ==> SetOf(moved) == LiveSuffixes(fs0)
      ensures TraceOk(fs0, timestamp) && TraceForward(fs0)
      ensures (forall i :: !fault(i)) ==> ok
    {
      ok, moved := true, [];
      NothingMoved(fs0, timestamp);
      for i := 0 to |SUFFIXES|
        invariant MovedAway(fs0, fs, timestamp, SetOf(moved)) && Unique(moved)
        invariant forall s :: s in moved <==> s in SUFFIXES[..i] && Live(s) in fs0
        invariant TraceOk(fs0, timestamp) && TraceForward(fs0)
      {
        var s := SUFFIXES[i];
        assert s !in SUFFIXES[..i] && SUFFIXES[..i + 1] == SUFFIXES[..i] + [s];
        var did;
        ghost var before := SetOf(moved);
        ok, did := SaveOne(fs0, timestamp, before, s);
        if did {
          SetOfSnoc(moved, s);
          moved := moved + [s];
        }
        if !ok { return; }
      }
      EverySuffix();
    }

    ghost predicate Good(fs0: Fs, timestamp: nat)
      reads this
    {
      NewerThanAll(fs0, timestamp) && TraceOk(fs0, timestamp) && TraceForward(fs0)
    }

    /** The state in which only the sidecars and the expired copies are still to go. */
    ghost predicate InPlace(fs0: Fs, timestamp: nat)
      reads this
    {
      Placed(fs0, fs, timestamp) && OlderCopiesKept(fs0, fs, timestamp)
    }

    method RenamePending(ghost fs0: Fs, timestamp: nat) returns (ok: bool)
      requires Good(fs0, timestamp) && Pending in fs0 && MovedAway(fs0, fs, timestamp, LiveSuffixes(fs0))
      modifies `fs, `trace, `steps
      ensures Good(fs0, timestamp) && if ok then InPlace(fs0, timestamp) else fs == old(fs)
      ensures (forall i :: !fault(i)) ==> ok
    {
      ok := Step();
      if !ok { return; }
      assert Same(fs0, fs, Pending);
      MovedThenPlaced(fs0, fs, timestamp);
      PlacedIsFine(fs0, Renamed(fs, Pending, Live(Main)), timestamp);
      Put(Renamed(fs, Pending, Live(Main)));
    }

    /** Opening the installed database to check it may leave sidecars beside it. */
    method Check(ghost fs0: Fs, timestamp: nat) returns (ok: bool)
      requires Good(fs0, timestamp) && InPlace(fs0, timestamp)
      modifies `fs, `trace, `steps
      ensures Good(fs0, timestamp) && InPlace(fs0, timestamp)
      ensures (forall i :: !fault(i)) ==> ok == valid(fs0[Pending])
    {
      ok := Step();
      if !ok { return; }
      if leavings.Some? {
        StillPlaced(fs0, fs, fs[Live(Wal) := leavings.value][Live(Shm) := leavings.value], timestamp);
        Put(fs[Live(Wal) := leavings.value][Live(Shm) := leavings.value]);
      }
      ok := valid(fs[Live(Main)]);
    }

    method RemoveSidecar(ghost fs0: Fs, timestamp: nat, sidecar: Suffix) returns (ok: bool)
      requires Good(fs0, timestamp) && InPlace(fs0, timestamp) && sidecar != Main
      modifies `fs, `trace, `steps
      ensures Good(fs0, timestamp) && InPlace(fs0, timestamp)
      ensures fs == if ok then old(fs) - {Live(sidecar)} else old(fs)
      ensures (forall i :: !fault(i)) ==> ok
    {
      StillPlaced(fs0, fs, fs, timestamp);
      StillPlaced(fs0, fs, fs - {Live(sidecar)}, timestamp);
      ok := RemoveIfExists(Live(sidecar));
    }

    method InstallPending(ghost fs0: Fs, timestamp: nat) returns (ok: bool, installed: bool)
      requires Good(fs0, timestamp) && Pending in fs0 && MovedAway(fs0, fs, timestamp, LiveSuffixes(fs0))
      modifies `fs, `trace, `steps
      ensures Good(fs0, timestamp) && if installed then InPlace(fs0, timestamp) else fs == old(fs)
      ensures ok ==> installed && Live(Wal) !in fs && Live(Shm) !in fs
      ensures (forall i :: !fault(i)) && valid(fs0[Pending]) ==> ok
    {
      installed := RenamePending(fs0, timestamp);
      if !installed { return false, false; }
      ok := Step();
      if !ok { return; }
      ok := Check(fs0, timestamp);
      if !ok { return; }
      ok := RemoveSidecar(fs0, timestamp, Wal);
      if !ok { return; }
      ok := RemoveSidecar(fs0, timestamp, Shm);
    }

    /** Every safety copy is made private before any is dropped. */
    method MakePrivate(groups: seq<nat>) returns (ok: bool)
      modifies `steps
      ensures (forall i :: !fault(i)) ==> ok
    {
      for i := 0 to |groups| {
        for j := 0 to |SUFFIXES| {
          if Safety(groups[i], SUFFIXES[j]) in fs {
            ok := Step();
            if !ok { return; }
          }
        }
      }
      ok := true;
    }

    method DropCopy(ghost fs0: Fs, timestamp: nat, t: nat, s: Suffix) returns (ok: bool)
      requires Good(fs0, timestamp) && Placed(fs0, fs, timestamp) && Expired(GroupsAfter(fs0, timestamp), t)
      modifies `fs, `trace, `steps
      ensures Good(fs0, timestamp) && Placed(fs0, fs, timestamp)
      ensures fs == if ok then old(fs) - {Safety(t, s)} else old(fs)
      ensures (forall i :: !fault(i)) ==> ok
    {
      StillSaved(fs0, fs, timestamp, t, s);
      PlacedIsFine(fs0, fs, timestamp);
      PlacedIsFine(fs0, fs - {Safety(t, s)}, timestamp);
      ok := RemoveIfExists(Safety(t, s));
    }

    method DropGroup(ghost fs0: Fs, timestamp: nat, t: nat) returns (ok: bool)
      requires Good(fs0, timestamp) && Placed(fs0, fs, timestamp) && Expired(GroupsAfter(fs0, timestamp), t)
      modifies `fs, `trace, `steps
      ensures Good(fs0, timestamp) && Placed(fs0, fs, timestamp) && OnlyCopiesDropped(old(fs), fs)
      ensures ok ==> forall s :: Safety(t, s) !in fs
      ensures (forall i :: !fault(i)) ==> ok
    {
      ok := DropCopy(fs0, timestamp, t, Main);
      if !ok { return; }
      ok := DropCopy(fs0, timestamp, t, Wal);
      if !ok { return; }
      ok := DropCopy(fs0, timestamp, t, Shm);
      forall s: Suffix ensures ok ==> Safety(t, s) !in fs {
        match s { case Main => case Wal => case Shm => }
      }
    }

    /** Keeps the newest groups of safety copies. */
    method RotatePreRestoreCopies(ghost fs0: Fs, timestamp: nat) returns (ok: bool)
      requires Good(fs0, timestamp) && InPlace(fs0, timestamp)
      modifies `fs, `trace, `steps
      ensures Good(fs0, timestamp) && Placed(fs0, fs, timestamp) && OnlyCopiesDropped(old(fs), fs)
      ensures ok ==> ExpiredGone(fs, GroupsAfter(fs0, timestamp))
      ensures (forall i :: !fault(i)) ==> ok
    {
      GroupsWhenPlaced(fs0, fs, timestamp);
      var order := SortedDescending(Groups(fs));
      ok := MakePrivate(order);
      if !ok { return; }
      for i := KEEP to if |order| < KEEP then KEEP else |order|
        invariant Good(fs0, timestamp) && Placed(fs0, fs, timestamp) && OnlyCopiesDropped(old(fs), fs)
        invariant forall j, s :: KEEP <= j < i && j < |order| ==> Safety(order[j], s) !in fs
      {
        CountNewer(order, i);
        ok := DropGroup(fs0, timestamp, order[i]);
        if !ok { return; }
      }
      TailIsExpired(order, fs, GroupsAfter(fs0, timestamp));
    }

    /** The installed candidate goes, with whatever stands beside it. */
    method RemoveInstalled(ghost fs0: Fs, timestamp: nat)
      requires NewerThanAll(fs0, timestamp) && Placed(fs0, fs, timestamp) && TraceOk(fs0, timestamp)
      modifies `fs, `trace
      ensures AllSaved(fs0, fs, timestamp) && Pending !in fs && (forall s :: Live(s) !in fs)
      ensures TraceOk(fs0, timestamp) && old(trace) < trace && !CandidateStored(fs0, trace[|old(trace)|])
    {
      for j := 0 to |SUFFIXES|
        invariant AllSaved(fs0, fs, timestamp) && Pending !in fs && TraceOk(fs0, timestamp)
        invariant forall s :: s in SUFFIXES[..j] ==> Live(s) !in fs
        invariant if j == 0 then fs == old(fs) && trace == old(trace)
                  else old(trace) < trace && !CandidateStored(fs0, trace[|old(trace)|])
      {
        if Live(SUFFIXES[j]) in fs { Put(fs - {Live(SUFFIXES[j])}); }
        SavedIsFine(fs0, fs, timestamp);
      }
      EverySuffix();
    }

    /** What was moved aside comes back, the last one first. */
    method MoveAllBack(ghost fs0: Fs, ghost target: Fs, timestamp: nat, moved: seq<Suffix>)
      requires NewerThanAll(fs0, timestamp) && Unique(moved) && TraceOk(fs0, timestamp)
      requires RolledBack(fs0, target, timestamp) && MovedAway(target, fs, timestamp, SetOf(moved))
      modifies `fs, `trace
      ensures fs == target && TraceOk(fs0, timestamp) && old(trace) <= trace
      ensures forall k :: |old(trace)| <= k < |trace| ==> Same(target, trace[k], Pending)
    {
      var i := |moved|;
      assert moved[..i] == moved;
      while i > 0
        invariant 0 <= i <= |moved| && TraceOk(fs0, timestamp) && old(trace) <= trace
        invariant MovedAway(target, fs, timestamp, SetOf(moved[..i]))
        invariant forall k :: |old(trace)| <= k < |trace| ==> Same(target, trace[k], Pending)
      {
        i := i - 1;
        assert moved[..i + 1] == moved[..i] + [moved[i]];
        if Safety(timestamp, moved[i]) in fs {
          SetOfSnoc(moved[..i], moved[i]);
          MoveBack(fs0, target, fs, timestamp, SetOf(moved[..i]), moved[i]);
          Put(Renamed(fs, Safety(timestamp, moved[i]), Live(moved[i])));
          assert Same(target, fs, Pending);
        }
      }
      NothingMovedIsSame(fs0, target, fs, timestamp);
    }

    /** Undoing does not fail: the candidate goes, and what was moved comes back. */
    method Rollback(ghost fs0: Fs, timestamp: nat, moved: seq<Suffix>, installed: bool)
      requires NewerThanAll(fs0, timestamp) && Pending in fs0 && Unique(moved)
      requires if installed then Placed(fs0, fs, timestamp) && SetOf(moved) == LiveSuffixes(fs0)
               else MovedAway(fs0, fs, timestamp, SetOf(moved))
      requires TraceOk(fs0, timestamp)
      modifies `fs, `trace
      ensures RolledBack(fs0, fs, timestamp) && TraceOk(fs0, timestamp)
      ensures !installed ==> fs == fs0
      ensures old(trace) <= trace
      ensures if installed then |trace| > |old(trace)| && !CandidateStored(fs0, trace[|old(trace)|])
              else forall i :: |old(trace)| <= i < |trace| ==> CandidateStored(fs0, trace[i])
    {
      ghost var target := fs0;
      if installed {
        RemoveInstalled(fs0, timestamp);
        target := Restorable(fs0, fs);
        VacatedIsMoved(fs0, fs, timestamp);
      }
      MoveAllBack(fs0, target, timestamp, moved);
    }

    /** applyPendingDatabaseRestore. */
    method ApplyPending(timestamp: nat) returns (r: Result)
      requires NewerThanAll(fs, timestamp)
      modifies this
      ensures r == NothingPending <==> Pending !in old(fs)
      ensures r == NothingPending ==> fs == old(fs)
      ensures r.Restored? ==> Installed(old(fs), fs, timestamp)
      ensures r.Restored? ==> r.saved == if LiveSuffixes(old(fs)) == {} then None else Some(timestamp)
      ensures r == Failed ==> RolledBack(old(fs), fs, timestamp)
      ensures TraceOk(old(fs), timestamp) && (r.Restored? ==> TraceForward(old(fs)))
      ensures Pending in old(fs) ==> ForwardKeepsCandidate(old(fs))
      ensures Pending in old(fs) && (forall i :: !fault(i)) ==> r.Restored? == valid(old(fs)[Pending])
    {
      ghost var fs0 := fs;
      trace, forward := [fs], 1;
      UntouchedIsFine(fs0, timestamp);
      if Pending !in fs { return NothingPending; }
      var ok := Step();
      if !ok || !valid(fs[Pending]) { return Failed; }
      r := Install(timestamp);
    }

    /** Notes the state in which the forward part of a run ends. */
    ghost method Mark(fs0: Fs, timestamp: nat, moved: set<Suffix>, installed: bool)
      requires Pending in fs0 && Good(fs0, timestamp)
      requires if installed then Placed(fs0, fs, timestamp) else MovedAway(fs0, fs, timestamp, moved)
      modifies `trace, `forward
      ensures trace == old(trace) + [fs] && forward == |trace|
      ensures Good(fs0, timestamp) && (Pending in fs <==> !installed)
    {
      if installed {
        PlacedIsFine(fs0, fs, timestamp);
      } else {
        MovedIsFine(fs0, fs, timestamp, moved);
        assert Same(fs0, fs, Pending);
      }
      trace := trace + [fs];
      forward := |trace|;
    }

    /** Rolls back from the state just marked. */
    method GiveUp(ghost fs0: Fs, timestamp: nat, moved: seq<Suffix>, installed: bool)
      requires Pending in fs0 && Good(fs0, timestamp) && Unique(moved)
      requires if installed then Placed(fs0, fs, timestamp) && SetOf(moved) == LiveSuffixes(fs0)
               else MovedAway(fs0, fs, timestamp, SetOf(moved))
      requires 0 < forward == |trace| && trace[forward - 1] == fs && (Pending in fs <==> !installed)
      modifies `fs, `trace
      ensures RolledBack(fs0, fs, timestamp) && TraceOk(fs0, timestamp) && ForwardKeepsCandidate(fs0)
    {
      Rollback(fs0, timestamp, moved, installed);
    }

    /** The part of the installation that rolls back. */
    method Install(timestamp: nat) returns (r: Result)
      requires Pending in fs && Good(fs, timestamp)
      modifies `fs, `trace, `steps, `forward
      ensures r != NothingPending
      ensures r.Restored? ==> Installed(old(fs), fs, timestamp)
      ensures r.Restored? ==> r.saved == if LiveSuffixes(old(fs)) == {} then None else Some(timestamp)
      ensures r == Failed ==> RolledBack(old(fs), fs, timestamp)
      ensures TraceOk(old(fs), timestamp) && (r.Restored? ==> TraceForward(old(fs)))
      ensures ForwardKeepsCandidate(old(fs))
      ensures (forall i :: !fault(i)) && valid(old(fs)[Pending]) ==> r.Restored?
    {
      ghost var fs0 := fs;
      var ok, moved := SaveLive(fs0, timestamp);
      var installed := false;
      if ok { ok, installed := InstallPending(fs0, timestamp); }
      if ok { ok := RotatePreRestoreCopies(fs0, timestamp); }
      Mark(fs0, timestamp, SetOf(moved), installed);
      if ok {
        PlacedIsInstalled(fs0, fs, timestamp);
        assert |moved| > 0 <==> SetOf(moved) != {} by { if |moved| > 0 { assert moved[0] in SetOf(moved); } }
        return Restored(if |moved| > 0 then Some(timestamp) else None);
      }
      GiveUp(fs0, timestamp, moved, installed);
      r := Failed;
    }
  }

  predicate Unique(moved: seq<Suffix>) {
    forall i, j :: 0 <= i < j < |moved| ==> moved[i] != moved[j]
  }

  lemma EverySuffix()
    ensures forall s: Suffix :: s in SUFFIXES[..|SUFFIXES|]
  {
    assert SUFFIXES[..|SUFFIXES|] == [Main, Wal, Shm];
    forall s: Suffix ensures s in [Main, Wal, Shm] {
      match s {
        case Main => assert [Main, Wal, Shm][0] == s;
        case Wal => assert [Main, Wal, Shm][1] == s;
        case Shm => assert [Main, Wal, Shm][2] == s;
      }
    }
  }

  lemma SafetyIsFresh(fs: Fs, timestamp: nat)
    requires NewerThanAll(fs, timestamp)
    ensures forall s :: Safety(timestamp, s) !in fs
  {
    assert timestamp !in Groups(fs);
  }

  lemma NothingMoved(fs0: Fs, timestamp: nat)
    requires NewerThanAll(fs0, timestamp)
    ensures MovedAway(fs0, fs0, timestamp, {})
  {
    SafetyIsFresh(fs0, timestamp);
  }

  lemma MovedIsFine(fs0: Fs, fs: Fs, timestamp: nat, moved: set<Suffix>)
    requires NewerThanAll(fs0, timestamp) && Pending in fs0
    requires MovedAway(fs0, fs, timestamp, moved)
    ensures AtEveryStep(fs0, fs, timestamp) && CandidateStored(fs0, fs)
  {
    SafetyIsFresh(fs0, timestamp);
    assert Same(fs0, fs, Pending);
    forall s | Live(s) in fs0
      ensures (Live(s) in fs && fs[Live(s)] == fs0[Live(s)]) ||
        (Safety(timestamp, s) in fs && fs[Safety(timestamp, s)] == fs0[Live(s)])
    {
      if s !in moved { assert Same(fs0, fs, Live(s)); } else { assert Safety(timestamp, s) in fs; }
    }
    forall n: Name | n.Safety? && (n in fs || n in fs0)
      ensures n.timestamp != timestamp ==> Same(fs0, fs, n)
      ensures n in fs ==> n.timestamp in GroupsAfter(fs0, timestamp)
      ensures n in fs0 ==> n in fs
    {
      if n.timestamp == timestamp {
        assert n.suffix in moved && n.suffix in LiveSuffixes(fs0);
      } else {
        assert Same(fs0, fs, n);
        assert n in fs0 && n.timestamp in Groups(fs0);
      }
    }
  }

  lemma MoveOne(fs0: Fs, fs: Fs, timestamp: nat, moved: set<Suffix>, s: Suffix)
    requires NewerThanAll(fs0, timestamp) && Pending in fs0
    requires MovedAway(fs0, fs, timestamp, moved) && s !in moved && Live(s) in fs
    ensures var fs' := Renamed(fs, Live(s), Safety(timestamp, s));
      && MovedAway(fs0, fs', timestamp, moved + {s})
      && AtEveryStep(fs0, fs', timestamp) && CandidateStored(fs0, fs')
  {
    var fs' := Renamed(fs, Live(s), Safety(timestamp, s));
    assert Same(fs0, fs, Live(s));
    var set' := moved + {s};
    forall n: Name
      ensures match n
              case Live(t) => if t in set' then n in fs0 && n !in fs' else Same(fs0, fs', n)
              case Safety(u, t) =>
                if u == timestamp then
                  (n in fs' <==> t in set') && (t in set' ==> Live(t) in fs0 && fs'[n] == fs0[Live(t)])
                else Same(fs0, fs', n)
              case Pending => Same(fs0, fs', n)
    {
      assert Same(fs, fs', n) || n in {Live(s), Safety(timestamp, s)};
    }
    MovedIsFine(fs0, fs', timestamp, set');
  }

  lemma UntouchedIsFine(fs0: Fs, timestamp: nat)
    requires NewerThanAll(fs0, timestamp)
    ensures AtEveryStep(fs0, fs0, timestamp)
  {
  }

  lemma SavedIsFine(fs0: Fs, fs: Fs, timestamp: nat)
    requires AllSaved(fs0, fs, timestamp)
    ensures NewerThanAll(fs0, timestamp) ==> AtEveryStep(fs0, fs, timestamp)
  {
    if NewerThanAll(fs0, timestamp) {
      SafetyIsFresh(fs0, timestamp);
      forall n: Name | n.Safety? && (n in fs || n in fs0)
        ensures n in fs && n.timestamp != timestamp ==> n in fs0 && fs[n] == fs0[n]
        ensures n in fs0 && n !in fs ==> Expired(GroupsAfter(fs0, timestamp), n.timestamp)
        ensures n in fs ==> n.timestamp in GroupsAfter(fs0, timestamp)
      {
        assert n == Safety(n.timestamp, n.suffix);
        if n.timestamp == timestamp {
          assert n in fs ==> n.suffix in LiveSuffixes(fs0);
        } else {
          assert n in fs ==> n in fs0 && n.timestamp in Groups(fs0);
        }
      }
    }
  }

  lemma PlacedIsFine(fs0: Fs, fs: Fs, timestamp: nat)
    requires Placed(fs0, fs, timestamp)
    ensures NewerThanAll(fs0, timestamp) ==> AtEveryStep(fs0, fs, timestamp) && CandidateStored(fs0, fs)
  {
    SavedIsFine(fs0, fs, timestamp);
  }

  lemma MovedThenPlaced(fs0: Fs, fs: Fs, timestamp: nat)
    requires Pending in fs0 && Pending in fs && MovedAway(fs0, fs, timestamp, LiveSuffixes(fs0))
    ensures Placed(fs0, Renamed(fs, Pending, Live(Main)), timestamp)
    ensures OlderCopiesKept(fs0, Renamed(fs, Pending, Live(Main)), timestamp)
  {
    var fs' := Renamed(fs, Pending, Live(Main));
    assert Same(fs0, fs, Pending);
    forall t, s
      ensures t != timestamp ==> Same(fs0, fs', Safety(t, s))
      ensures t == timestamp ==> (Safety(t, s) in fs' <==> Live(s) in fs0)
      ensures t == timestamp && Live(s) in fs0 ==> fs'[Safety(t, s)] == fs0[Live(s)]
    {
      assert Same(fs, fs', Safety(t, s));
      assert t != timestamp ==> Same(fs0, fs, Safety(t, s));
      assert s in LiveSuffixes(fs0) <==> Live(s) in fs0;
    }
  }

  /** What happens to the sidecars does not matter. */
  lemma StillPlaced(fs0: Fs, fs: Fs, fs': Fs, timestamp: nat)
    requires NewerThanAll(fs0, timestamp)
    requires Placed(fs0, fs, timestamp) && OlderCopiesKept(fs0, fs, timestamp)
    requires forall n :: n !in {Live(Wal), Live(Shm)} ==> Same(fs, fs', n)
    ensures Placed(fs0, fs', timestamp) && OlderCopiesKept(fs0, fs', timestamp)
    ensures AtEveryStep(fs0, fs', timestamp) && CandidateStored(fs0, fs')
  {
    assert Same(fs, fs', Pending) && Same(fs, fs', Live(Main));
    forall t, s ensures Same(fs, fs', Safety(t, s)) {}
    PlacedIsFine(fs0, fs', timestamp);
  }

  // ----- Rotation -----

  predicate Descending(order: seq<nat>) {
    forall i, j :: 0 <= i < j < |order| ==> order[i] > order[j]
  }

  method SortedDescending(groups: set<nat>) returns (order: seq<nat>)
    ensures Descending(order) && SetOf(order) == groups
  {
    order := [];
    var rest := groups;
    while rest != {}
      invariant Descending(order) && rest <= groups && SetOf(order) == groups - rest
      invariant Above(order, rest)
      decreases |rest|
    {
      MaxExists(rest);
      var t :| t in rest && IsMax(rest, t);
      TakeNext(order, rest, t);
      SetOfSnoc(order, t);
      order, rest := order + [t], rest - {t};
    }
  }

  predicate Above(order: seq<nat>, rest: set<nat>) {
    forall i, u :: 0 <= i < |order| && u in rest ==> order[i] > u
  }

  predicate IsMax(ts: set<nat>, t: nat) {
    forall u :: u in ts ==> u <= t
  }

  lemma TakeNext(order: seq<nat>, rest: set<nat>, t: nat)
    requires Descending(order) && Above(order, rest) && t in rest && IsMax(rest, t)
    ensures Descending(order + [t]) && Above(order + [t], rest - {t})
  {
  }

  lemma {:induction false} MaxExists(ts: set<nat>)
    requires ts != {}
    ensures exists t :: t in ts && IsMax(ts, t)
  {
    var t :| t in ts;
    if ts - {t} == {} {
      assert ts == {t};
    } else {
      MaxExists(ts - {t});
      var m :| m in ts - {t} && IsMax(ts - {t}, m);
      if m < t {
        assert forall u :: u in ts ==> u == t || u in ts - {t};
        assert IsMax(ts, t);
      } else {
        assert forall u :: u in ts ==> u == t || u in ts - {t};
        assert IsMax(ts, m);
      }
    }
  }

  /** Cutting the sorted list keeps just the groups that fewer than so many are newer than. */
  lemma CountNewer(order: seq<nat>, i: nat)
    requires Descending(order) && i < |order|
    ensures |Newer(SetOf(order), order[i])| == i
  {
    assert Newer(SetOf(order), order[i]) == SetOf(order[..i]) by {
      forall t ensures t in Newer(SetOf(order), order[i]) <==> t in order[..i] {
        if t in order[..i] {
          var j :| 0 <= j < i && order[j] == t;
        }
        if t in order && t > order[i] {
          var j :| 0 <= j < |order| && order[j] == t;
          assert order[..i][j] == t;
        }
      }
    }
    SizeOfDescending(order[..i]);
  }

  lemma {:induction false} SizeOfDescending(order: seq<nat>)
    requires Descending(order)
    ensures |SetOf(order)| == |order|
  {
    if order != [] {
      var n := |order| - 1;
      SizeOfDescending(order[..n]);
      assert order == order[..n] + [order[n]];
      SetOfSnoc(order[..n], order[n]);
      assert order[n] !in order[..n];
    }
  }

  lemma GroupsWhenPlaced(fs0: Fs, fs: Fs, timestamp: nat)
    requires NewerThanAll(fs0, timestamp)
    requires Placed(fs0, fs, timestamp) && OlderCopiesKept(fs0, fs, timestamp)
    ensures Groups(fs) == GroupsAfter(fs0, timestamp)
  {
    PlacedIsFine(fs0, fs, timestamp);
    forall t | t in GroupsAfter(fs0, timestamp) ensures t in Groups(fs) {
      if t == timestamp {
        SafetyIsFresh(fs0, timestamp);
        var s :| s in LiveSuffixes(fs0);
        assert Safety(timestamp, s) in fs;
      } else {
        var n :| n in fs0 && n.Safety? && n.timestamp == t;
        assert n == Safety(t, n.suffix) && Same(fs0, fs, n);
      }
    }
  }

  lemma NewestIsKept(fs0: Fs, timestamp: nat)
    requires NewerThanAll(fs0, timestamp)
    ensures !Expired(GroupsAfter(fs0, timestamp), timestamp)
  {
    assert Newer(GroupsAfter(fs0, timestamp), timestamp) == {};
  }

  lemma StillSaved(fs0: Fs, fs: Fs, timestamp: nat, t: nat, s: Suffix)
    requires NewerThanAll(fs0, timestamp)
    requires Placed(fs0, fs, timestamp) && Expired(GroupsAfter(fs0, timestamp), t)
    ensures Placed(fs0, fs - {Safety(t, s)}, timestamp)
  {
    NewestIsKept(fs0, timestamp);
    forall u, v | Safety(u, v) != Safety(t, s) ensures Same(fs, fs - {Safety(t, s)}, Safety(u, v)) {}
  }

  ghost predicate OnlyCopiesDropped(fs: Fs, fs': Fs) {
    (forall s :: Same(fs, fs', Live(s))) && (forall n :: n in fs' ==> n in fs)
  }

  ghost predicate ExpiredGone(fs: Fs, groups: set<nat>) {
    forall t, s :: Expired(groups, t) ==> Safety(t, s) !in fs
  }

  lemma TailIsExpired(order: seq<nat>, fs: Fs, groups: set<nat>)
    requires Descending(order) && SetOf(order) == groups
    requires forall j, s :: KEEP <= j < |order| ==> Safety(order[j], s) !in fs
    ensures ExpiredGone(fs, groups)
  {
    forall t, s | Expired(groups, t) ensures Safety(t, s) !in fs {
      assert t in order;
      var j :| 0 <= j < |order| && order[j] == t;
      CountNewer(order, j);
    }
  }

  lemma PlacedIsInstalled(fs0: Fs, fs: Fs, timestamp: nat)
    requires NewerThanAll(fs0, timestamp) && Placed(fs0, fs, timestamp)
    requires ExpiredGone(fs, GroupsAfter(fs0, timestamp)) && Live(Wal) !in fs && Live(Shm) !in fs
    ensures Installed(fs0, fs, timestamp)
  {
    EverySuffix();
    var saved := SavedCopies(fs0, timestamp);
    forall s ensures Same(saved, fs, Safety(timestamp, s)) {
      assert s in SUFFIXES[..|SUFFIXES|];
    }
    forall t, s | t != timestamp
      ensures if Expired(GroupsAfter(fs0, timestamp), t) then Safety(t, s) !in fs else Same(fs0, fs, Safety(t, s))
    {
      assert Same(fs0, fs, Safety(t, s)) || Expired(GroupsAfter(fs0, timestamp), t);
    }
  }

  // ----- Rollback -----

  /** What rolling back returns to once the candidate is gone. */
  function Restorable(fs0: Fs, fs: Fs): Fs {
    map n | n in fs0 && n != Pending && (n.Safety? ==> n in fs) :: fs0[n]
  }

  lemma VacatedIsMoved(fs0: Fs, fs: Fs, timestamp: nat)
    requires NewerThanAll(fs0, timestamp) && AllSaved(fs0, fs, timestamp)
    requires Pending !in fs && forall s :: Live(s) !in fs
    ensures MovedAway(Restorable(fs0, fs), fs, timestamp, LiveSuffixes(fs0))
    ensures RolledBack(fs0, Restorable(fs0, fs), timestamp)
  {
    SafetyIsFresh(fs0, timestamp);
    var target := Restorable(fs0, fs);
    forall t, s | t != timestamp
      ensures Same(target, fs, Safety(t, s))
      ensures Same(fs0, target, Safety(t, s)) || (Safety(t, s) !in target && Expired(GroupsAfter(fs0, timestamp), t))
    {
      assert Same(fs0, fs, Safety(t, s)) || (Safety(t, s) !in fs && Expired(GroupsAfter(fs0, timestamp), t));
    }
  }

  lemma MovedBackIsFine(fs0: Fs, target: Fs, fs: Fs, timestamp: nat, moved: set<Suffix>)
    requires NewerThanAll(fs0, timestamp) && RolledBack(fs0, target, timestamp)
    requires MovedAway(target, fs, timestamp, moved)
    ensures AtEveryStep(fs0, fs, timestamp)
  {
    SafetyIsFresh(fs0, timestamp);
    forall s | Live(s) in fs0
      ensures (Live(s) in fs && fs[Live(s)] == fs0[Live(s)]) ||
        (Safety(timestamp, s) in fs && fs[Safety(timestamp, s)] == fs0[Live(s)])
    {
      assert Same(fs0, target, Live(s));
      if s !in moved { assert Same(target, fs, Live(s)); } else { assert Safety(timestamp, s) in fs; }
    }
    forall n: Name | n.Safety? && (n in fs || n in fs0)
      ensures n in fs && n.timestamp != timestamp ==> n in fs0 && fs[n] == fs0[n]
      ensures n in fs0 && n !in fs ==> Expired(GroupsAfter(fs0, timestamp), n.timestamp)
      ensures n in fs ==> n.timestamp in GroupsAfter(fs0, timestamp)
    {
      if n.timestamp == timestamp {
        if n in fs {
          assert n.suffix in moved && Live(n.suffix) in target;
          assert Same(fs0, target, Live(n.suffix)) && n.suffix in LiveSuffixes(fs0);
        }
      } else {
        assert Same(target, fs, n);
        assert Same(fs0, target, n) || (n !in target && Expired(GroupsAfter(fs0, timestamp), n.timestamp));
        assert n in fs ==> n.timestamp in Groups(fs0);
      }
    }
  }

  lemma MoveBack(fs0: Fs, target: Fs, fs: Fs, timestamp: nat, moved: set<Suffix>, s: Suffix)
    requires NewerThanAll(fs0, timestamp) && RolledBack(fs0, target, timestamp)
    requires s !in moved && MovedAway(target, fs, timestamp, moved + {s}) && Safety(timestamp, s) in fs
    ensures MovedAway(target, Renamed(fs, Safety(timestamp, s), Live(s)), timestamp, moved)
    ensures AtEveryStep(fs0, Renamed(fs, Safety(timestamp, s), Live(s)), timestamp)
  {
    var fs' := Renamed(fs, Safety(timestamp, s), Live(s));
    assert Live(s) in target && fs[Safety(timestamp, s)] == target[Live(s)];
    forall n: Name
      ensures match n
              case Live(t) => if t in moved then n in target && n !in fs' else Same(target, fs', n)
              case Safety(u, t) =>
                if u == timestamp then
                  (n in fs' <==> t in moved) && (t in moved ==> Live(t) in target && fs'[n] == target[Live(t)])
                else Same(target, fs', n)
              case Pending => Same(target, fs', n)
    {
      assert Same(fs, fs', n) || n in {Live(s), Safety(timestamp, s)};
    }
    MovedBackIsFine(fs0, target, fs', timestamp, moved);
  }

  lemma NothingMovedIsSame(fs0: Fs, target: Fs, fs: Fs, timestamp: nat)
    requires NewerThanAll(fs0, timestamp) && RolledBack(fs0, target, timestamp)
    requires MovedAway(target, fs, timestamp, {})
    ensures fs == target
  {
    SafetyIsFresh(fs0, timestamp);
    forall n ensures Same(target, fs, n) {
      if n.Safety? && n.timestamp == timestamp {
        assert Same(fs0, target, n) || n !in target;
      }
    }
    assert forall n :: n in fs <==> n in target by {
      forall n ensures n in fs <==> n in target { assert Same(target, fs, n); }
    }
    assert forall n :: n in fs ==> fs[n] == target[n] by {
      forall n | n in fs ensures fs[n] == target[n] { assert Same(target, fs, n); }
    }
  }

  // ----- After a crash -----

  /** Run again after a crash at any step of a first run: whatever the second run does without
      faults of its own, every file that was live before the first is still on disk, and when the
      crash came before any rolling back the candidate ends up live. */
  lemma RerunAfterCrash(fs0: Fs, crashed: Fs, fs: Fs, first: nat, second: nat)
    requires NewerThanAll(fs0, first) && NewerThanAll(crashed, second) && first < second
    requires AtEveryStep(fs0, crashed, first)
    requires if Pending in crashed then Installed(crashed, fs, second) else fs == crashed
    ensures CandidateStored(fs0, crashed) ==> Live(Main) in fs && fs[Live(Main)] == fs0[Pending]
    ensures forall s :: Live(s) in fs0 ==>
      || (Live(s) in fs && fs[Live(s)] == fs0[Live(s)])
      || (exists t :: t in {first, second} && Safety(t, s) in fs && fs[Safety(t, s)] == fs0[Live(s)])
  {
    if Pending in crashed {
      FirstGroupSurvives(fs0, crashed, first, second);
      forall s | Live(s) in fs0
        ensures exists t :: t in {first, second} && Safety(t, s) in fs && fs[Safety(t, s)] == fs0[Live(s)]
      {
        if Safety(first, s) in crashed && crashed[Safety(first, s)] == fs0[Live(s)] {
          assert Same(crashed, fs, Safety(first, s));
        } else {
          EverySuffix();
          var saved := SavedCopies(crashed, second);
          assert s in SUFFIXES[..|SUFFIXES|];
          assert Safety(second, s) in saved && Same(saved, fs, Safety(second, s));
        }
      }
    }
  }

  lemma FirstGroupSurvives(fs0: Fs, crashed: Fs, first: nat, second: nat)
    requires NewerThanAll(fs0, first) && first < second && AtEveryStep(fs0, crashed, first)
    ensures !Expired(GroupsAfter(crashed, second), first)
  {
    var newer := Newer(GroupsAfter(crashed, second), first);
    assert newer <= {second} by {
      forall t | t in newer ensures t == second {
        assert t in GroupsAfter(fs0, first) || t == second;
      }
    }
    if second in newer { assert newer == {second}; } else { assert newer == {}; }
  }
}
