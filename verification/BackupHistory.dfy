/** Whole histories of a version store: backup runs, promotions and removals, each
    possibly cut short by a crash. Every version kept still reads as what was backed up. */
module BackupHistory {
  import opened Wrappers
  import opened SnapshotStore
  import opened BackupRun
  import opened Deltaify

  /** What each backed-up version was when it was moved aside. */
  type History = map<(Time, Path), Bytes>

  datatype Event =
    | Backup(T: Time, changed: set<Path>, synced: Store, rebased: Store, threshold: int)
    | Promotion(t: Time, p: Path, content: Bytes)
    | Removal(t: Time)

  /** `st'` is any state the event can leave behind: its end, or a crash on the way.
      A backup must have reached the end of its rebase and must have been covered. */
  ghost predicate Happens(rd: Rdiff, e: Event, st: Store, st': Store)
    requires Valid(st)
  {
    match e
    case Backup(T, changed, synced, rebased, threshold) =>
      && RsyncRan(st, synced, T) && Covered(st, synced, T, changed)
      && Rebased(synced, rebased, changed, T)
      && (st' == rebased || Converting(rebased, st', T) || Published(rd, rebased, st', T, threshold))
    case Promotion(t, p, content) =>
      Read(rd, st, t, p) == Content(content) && Promoting(st, st', t, p, content)
    case Removal(t) =>
      Unreferenced(st, t) && Removing(st, st', t)
  }

  /** The contents that rsync moved into snapshot `T`, as they were before the run. */
  function MovedAside(T: Time, synced: Store, st: Store): History {
    if T in synced.snapshots then
      map p | p in synced.snapshots[T].full && p in st.current :: (T, p) := st.current[p]
    else map[]
  }

  function Recorded(e: Event, st: Store, hist: History): History {
    match e
    case Backup(T, _, synced, _, _) => hist + MovedAside(T, synced, st)
    case Promotion(_, _, _) => hist
    case Removal(t) => map k | k in hist && k.0 != t :: hist[k]
  }

  ghost predicate Faithful(rd: Rdiff, st: Store, hist: History) {
    && Valid(st)
    && forall k :: k in hist ==> Read(rd, st, k.0, k.1) == Content(hist[k])
  }

  /** A version on record before the run, or made by it, at the end of the rebase. */
  lemma RebasedVersion(rd: Rdiff, T: Time, changed: set<Path>, st: Store, synced: Store, rebased: Store,
                       t: Time, p: Path)
    requires Valid(st) && Valid(rebased) && RsyncRan(st, synced, T)
    requires Covered(st, synced, T, changed) && Rebased(synced, rebased, changed, T)
    ensures rebased.snapshots.Keys == st.snapshots.Keys + {T}
    ensures t in st.snapshots && Read(rd, st, t, p).Content? ==> Read(rd, rebased, t, p) == Read(rd, st, t, p)
    ensures p in synced.snapshots[T].full ==> Read(rd, rebased, T, p) == LiveReading(st, p)
  {
    RebasedLookup(synced, rebased, changed, T, T, p);
    if t in st.snapshots {
      CoveredKeepsReading(rd, st, synced, rebased, T, changed, t, p);
    }
  }

  /** The new snapshot's own files read as the contents before the run, and old versions as before. */
  lemma BackupIsFaithful(rd: Rdiff, T: Time, changed: set<Path>, st: Store, synced: Store, rebased: Store,
                         st': Store, hist: History, threshold: int)
    requires rd.Sound() && Faithful(rd, st, hist)
    requires RsyncRan(st, synced, T) && Covered(st, synced, T, changed) && Rebased(synced, rebased, changed, T)
    requires st' == rebased || Converting(rebased, st', T) || Published(rd, rebased, st', T, threshold)
    ensures Faithful(rd, st', hist + MovedAside(T, synced, st))
  {
    RunStaysValid(st, synced, rebased, T, changed);
    if st' != rebased {
      DeltaifyKeepsAll(rd, rebased, st', T, threshold);
    }
    assert Valid(st') && Unchanged(rd, rebased, st');
    forall k | k in hist + MovedAside(T, synced, st)
      ensures Read(rd, st', k.0, k.1) == Content((hist + MovedAside(T, synced, st))[k])
    {
      VersionIsFaithful(rd, T, changed, st, synced, rebased, st', hist, k.0, k.1);
    }
  }

  lemma VersionIsFaithful(rd: Rdiff, T: Time, changed: set<Path>, st: Store, synced: Store, rebased: Store,
                          st': Store, hist: History, t: Time, p: Path)
    requires Faithful(rd, st, hist)
    requires RsyncRan(st, synced, T) && Covered(st, synced, T, changed) && Rebased(synced, rebased, changed, T)
    requires Valid(rebased) && Valid(st') && Unchanged(rd, rebased, st')
    requires (t, p) in hist + MovedAside(T, synced, st)
    ensures Read(rd, st', t, p) == Content((hist + MovedAside(T, synced, st))[(t, p)])
  {
    RebasedVersion(rd, T, changed, st, synced, rebased, t, p);
    assert t in rebased.snapshots ==> Read(rd, st', t, p) == Read(rd, rebased, t, p);
    if (t, p) in MovedAside(T, synced, st) {
      assert MovedAside(T, synced, st)[(t, p)] == st.current[p] && t == T;
    } else {
      assert Read(rd, st, t, p) == Content(hist[(t, p)]);
    }
  }

  lemma EventIsFaithful(rd: Rdiff, e: Event, st: Store, st': Store, hist: History)
    requires rd.Sound() && Faithful(rd, st, hist) && Happens(rd, e, st, st')
    ensures Faithful(rd, st', Recorded(e, st, hist))
  {
    match e
    case Backup(T, changed, synced, rebased, threshold) =>
      BackupIsFaithful(rd, T, changed, st, synced, rebased, st', hist, threshold);
    case Promotion(t, p, content) =>
      PromotionKeepsAll(rd, st, st', t, p, content);
      forall k | k in hist ensures Read(rd, st', k.0, k.1) == Content(hist[k]) {
        assert k.0 in st.snapshots;
      }
    case Removal(t) =>
      RemovalKeepsOthers(rd, st, st', t);
  }

  /** `states[i+1]` is a state event `i` can leave behind, and `kept[i+1]` what is on record then. */
  ghost predicate IsRun(rd: Rdiff, events: seq<Event>, states: seq<Store>, kept: seq<History>) {
    && |states| == |kept| == |events| + 1
    && forall i {:trigger events[i]} :: 0 <= i < |events| ==>
         && Valid(states[i])
         && Happens(rd, events[i], states[i], states[i + 1])
         && kept[i + 1] == Recorded(events[i], states[i], kept[i])
  }

  /** Over any history whose runs are covered, whatever crashes happen, every version on
      record reads back to exactly the bytes that were backed up. */
  lemma {:induction false} HistoryIsFaithful(rd: Rdiff, events: seq<Event>, states: seq<Store>, kept: seq<History>,
                                             n: nat)
    requires rd.Sound() && IsRun(rd, events, states, kept) && n <= |events|
    requires Faithful(rd, states[0], kept[0])
    ensures Faithful(rd, states[n], kept[n])
  {
    if n > 0 {
      HistoryIsFaithful(rd, events, states, kept, n - 1);
      assert Happens(rd, events[n - 1], states[n - 1], states[n]);
      EventIsFaithful(rd, events[n - 1], states[n - 1], states[n], kept[n - 1]);
    }
  }

  // ----- Where coverage is lost -----

  /** After a complete run the deltas still based on the live tree are the new snapshot's own
      and, left behind, exactly the earlier ones the rebase did not reach. The next run is covered
      exactly when it leaves the paths of those alone, records its other changes, and moves what it
      records of the new snapshot's own. */
  lemma LeftBehind(rd: Rdiff, st: Store, st1: Store, st2: Store, st3: Store, T: Time, changed: set<Path>,
                   threshold: int,
                   st4: Store, T': Time, changed': set<Path>)
    requires Valid(st) && RsyncRan(st, st1, T) && Rebased(st1, st2, changed, T)
    requires Published(rd, st2, st3, T, threshold) && RsyncRan(st3, st4, T')
    ensures forall t, p :: t in st.snapshots ==>
      (LiveBased(st3, t, p) <==> LiveBased(st, t, p) && !Retargeted(st1, T, changed, t, p))
    ensures Covered(st3, st4, T', changed') <==>
      && (forall t, p :: t in st.snapshots && LiveBased(st3, t, p) ==> CurrentOf(st4, p) == CurrentOf(st3, p))
      && (forall p :: LiveBased(st3, T, p) ==>
            && (CurrentOf(st4, p) != CurrentOf(st3, p) ==> p in changed')
            && (p in changed' && p in st3.current ==> Moved(st4, T', p)))
  {
    PublishedLookups(rd, st, st1, st2, st3, T, changed, threshold);
    OnlyNewestRetargeted(rd, st2, st3, T, threshold, st4, T', changed');
    forall t, p | t in st3.snapshots
      ensures CoveredAt(st3, st4, T', changed', t, p) <==>
        && (CurrentOf(st4, p) != CurrentOf(st3, p) ==> p in changed' && t == T)
        && (p in changed' && t == T && p in st3.current ==> Moved(st4, T', p))
    {
      assert Retargeted(st4, T', changed', t, p) <==> p in changed' && t == T;
    }
  }

  lemma PublishedLookups(rd: Rdiff, st: Store, st1: Store, st2: Store, st3: Store, T: Time, changed: set<Path>,
                         threshold: int)
    requires Valid(st) && RsyncRan(st, st1, T) && Rebased(st1, st2, changed, T) && Published(rd, st2, st3, T, threshold)
    ensures st3.snapshots.Keys == st.snapshots.Keys + {T}
    ensures forall t, p :: t in st.snapshots ==>
      (LiveBased(st3, t, p) <==> LiveBased(st, t, p) && !Retargeted(st1, T, changed, t, p))
  {
    forall t, p | t in st.snapshots
      ensures LiveBased(st3, t, p) <==> LiveBased(st, t, p) && !Retargeted(st1, T, changed, t, p)
    {
      RebasedLookup(st1, st2, changed, T, t, p);
      assert Lookup(st1, t, p) == Lookup(st, t, p);
      assert Lookup(st3, t, p) == Lookup(st2, t, p);
    }
    RebasedLookup(st1, st2, changed, T, T, "");
  }

  lemma OnlyNewestRetargeted(rd: Rdiff, st2: Store, st3: Store, T: Time, threshold: int,
                             st4: Store, T': Time, changed': set<Path>)
    requires Published(rd, st2, st3, T, threshold) && RsyncRan(st3, st4, T')
    requires forall t :: t in st3.snapshots ==> t <= T
    ensures forall t, p :: Retargeted(st4, T', changed', t, p) <==> p in changed' && t == T
  {
    assert IsNewestManifested(st4, T', T);
    assert forall t :: IsNewestManifested(st4, T', t) ==> t == T;
  }

  /** A run that moved nothing publishes no manifest. It leaves the same deltas behind, and the
      snapshot where the rebase stops stays where it was for the next run too. */
  lemma LeftBehindUnpublished(st: Store, st1: Store, st2: Store, T: Time, changed: set<Path>,
                              st4: Store, T': Time, changed': set<Path>)
    requires Valid(st) && RsyncRan(st, st1, T) && st1.snapshots[T].full == map[] && Rebased(st1, st2, changed, T)
    requires RsyncRan(st2, st4, T')
    ensures forall t, p :: t in st.snapshots ==>
      (LiveBased(st2, t, p) <==> LiveBased(st, t, p) && !Retargeted(st1, T, changed, t, p))
    ensures Covered(st2, st4, T', changed') <==>
      forall t, p :: t in st.snapshots && LiveBased(st2, t, p) ==>
        && (CurrentOf(st4, p) != CurrentOf(st2, p) ==> Retargeted(st1, T, changed', t, p))
        && (Retargeted(st1, T, changed', t, p) && p in st2.current ==> Moved(st4, T', p))
  {
    forall t, p | t in st.snapshots
      ensures LiveBased(st2, t, p) <==> LiveBased(st, t, p) && !Retargeted(st1, T, changed, t, p)
    {
      RebasedLookup(st1, st2, changed, T, t, p);
      assert Lookup(st1, t, p) == Lookup(st, t, p);
    }
    RebasedLookup(st1, st2, changed, T, T, "");
    assert st2.snapshots.Keys == st.snapshots.Keys + {T};
    NewestStaysPut(st1, st2, T, changed, st4, T');
    assert forall t, p :: Retargeted(st4, T', changed', t, p) <==> Retargeted(st1, T, changed', t, p);
    assert forall p :: !LiveBased(st2, T, p);
  }

  lemma SameManifested(st1: Store, st2: Store, changed: set<Path>, T: Time, t: Time)
    requires Rebased(st1, st2, changed, T)
    ensures Manifested(st2, t) <==> Manifested(st1, t)
  {
    if n :| IsNewestManifested(st1, T, n) {
      assert st2 == RebaseAt(st1, n, changed, T);
    }
  }

  predicate Manifested(st: Store, t: Time) {
    t in st.snapshots && st.snapshots[t].manifest.Some?
  }

  lemma NewestOfManifested(st: Store, T: Time, t: Time)
    requires !Manifested(st, T)
    ensures IsNewestManifested(st, T, t) <==> Manifested(st, t) && forall u: Time :: Manifested(st, u) ==> u <= t
  {
    assert forall u: Time :: u in st.snapshots && u != T && st.snapshots[u].manifest.Some? <==> Manifested(st, u);
  }

  lemma NewestStaysPut(st1: Store, st2: Store, T: Time, changed: set<Path>, st4: Store, T': Time)
    requires Rebased(st1, st2, changed, T) && RsyncRan(st2, st4, T')
    requires T in st1.snapshots && st1.snapshots[T].manifest.None?
    ensures forall t :: IsNewestManifested(st4, T', t) <==> IsNewestManifested(st1, T, t)
  {
    forall t ensures Manifested(st4, t) <==> Manifested(st1, t) {
      SameManifested(st1, st2, changed, T, t);
    }
    assert !Manifested(st4, T') && !Manifested(st4, T) && !Manifested(st1, T) && !Manifested(st1, T');
    forall t ensures IsNewestManifested(st4, T', t) <==> IsNewestManifested(st1, T, t) {
      NewestOfManifested(st4, T', t);
      NewestOfManifested(st1, T, t);
    }
  }

  /** rsync's deletions are not among the paths handed to the rebase, so deleting a file
      always breaks the versions of it that are still based on the live tree. */
  lemma DeletionBreaks(rd: Rdiff, st: Store, st1: Store, st2: Store, T: Time, changed: set<Path>, t: Time, p: Path)
    requires Valid(st) && Valid(st2) && RsyncRan(st, st1, T) && Rebased(st1, st2, changed, T)
    requires t in st.snapshots && LiveBased(st, t, p) && p in st.current
    requires p !in st1.current && p !in changed
    ensures Read(rd, st, t, p).Content? && Read(rd, st2, t, p) == Broken(CurrentMissing)
  {
    RebasedLookup(st1, st2, changed, T, t, p);
    assert Lookup(st1, t, p) == Lookup(st, t, p);
  }

  // ----- Three runs that lose a version -----

  // The store before the first of three runs, and after the rsync and at the end of each. The first
  // run changes `a` from `file` to one byte, the second changes only `b`, the third `a` again.

  function BeforeFirst(a: Path, b: Path, file: Bytes): Store {
    Store(map[a := file, b := [5]], map[])
  }

  function FirstSynced(a: Path, b: Path, file: Bytes): Store {
    Store(map[a := [1], b := [5]], map[1 := Snapshot(None, map[a := file], map[])])
  }

  function FirstDone(a: Path, b: Path, file: Bytes): Store {
    Store(map[a := [1], b := [5]], map[1 := Converted(a, file)])
  }

  function SecondSynced(a: Path, b: Path, file: Bytes): Store {
    Store(map[a := [1], b := [6]], map[1 := Converted(a, file), 2 := Snapshot(None, map[b := [5]], map[])])
  }

  function SecondDone(a: Path, b: Path, file: Bytes): Store {
    Store(map[a := [1], b := [6]], map[1 := Converted(a, file), 2 := KeptFull(b)])
  }

  function ThirdSynced(a: Path, b: Path, file: Bytes): Store {
    Store(map[a := [2], b := [6]],
          map[1 := Converted(a, file), 2 := KeptFull(b), 3 := Snapshot(None, map[a := [1]], map[])])
  }

  /** A snapshot whose one file became a delta of one byte onto the live content. */
  function Converted(p: Path, file: Bytes): Snapshot {
    Snapshot(Some(map[p := Delta(|file|, 1, Current)]), map[], map[p := [7]])
  }

  /** A snapshot whose one small file stayed a full copy. */
  function KeptFull(p: Path): Snapshot {
    Snapshot(Some(map[p := Full(1)]), map[p := [5]], map[])
  }

  lemma NothingToRebase(st: Store, T: Time, n: Time, changed: set<Path>)
    requires IsNewestManifested(st, T, n)
    requires forall p :: p in changed ==> p !in st.snapshots[n].manifest.value
    ensures Rebased(st, st, changed, T)
  {
    assert RebaseManifest(st.snapshots[n].manifest.value, changed, T) == st.snapshots[n].manifest.value;
    assert RebaseAt(st, n, changed, T) == st;
    assert forall m :: IsNewestManifested(st, T, m) ==> m == n;
  }

  lemma FirstRun(a: Path, b: Path, file: Bytes)
    requires a != b && |file| >= 10
    ensures RsyncRan(BeforeFirst(a, b, file), FirstSynced(a, b, file), 1)
    ensures Rebased(FirstSynced(a, b, file), FirstSynced(a, b, file), {a}, 1)
    ensures Published(Adversary([7], [1], file), FirstSynced(a, b, file), FirstDone(a, b, file), 1, 90)
  {
    var rd, st, st' := Adversary([7], [1], file), FirstSynced(a, b, file), FirstDone(a, b, file);
    assert st' == st.(snapshots := st.snapshots[1 := st'.snapshots[1]]);
    assert Saves(90, |file|, 1);
    assert Settled(rd, st, file, st'.snapshots[1], a, 90);
  }

  lemma SecondRun(a: Path, b: Path, file: Bytes)
    requires a != b
    ensures RsyncRan(FirstDone(a, b, file), SecondSynced(a, b, file), 2)
    ensures Rebased(SecondSynced(a, b, file), SecondSynced(a, b, file), {b}, 2)
    ensures Published(Adversary([7], [1], file), SecondSynced(a, b, file), SecondDone(a, b, file), 2, 90)
  {
    NothingToRebase(SecondSynced(a, b, file), 2, 1, {b});
    var st, st' := SecondSynced(a, b, file), SecondDone(a, b, file);
    assert st' == st.(snapshots := st.snapshots[2 := st'.snapshots[2]]);
    assert Settled(Adversary([7], [1], file), st, [5], st'.snapshots[2], b, 90);
  }

  lemma ThirdRun(a: Path, b: Path, file: Bytes)
    requires a != b
    ensures RsyncRan(SecondDone(a, b, file), ThirdSynced(a, b, file), 3)
    ensures Rebased(ThirdSynced(a, b, file), ThirdSynced(a, b, file), {a}, 3)
  {
    NothingToRebase(ThirdSynced(a, b, file), 3, 2, {a});
  }

  /** What the first version of `a` reads as over a live copy. */
  lemma FirstVersionReads(rd: Rdiff, st: Store, a: Path, file: Bytes)
    requires 1 in st.snapshots && st.snapshots[1] == Converted(a, file) && a in st.current
    requires forall t, p :: Lookup(st, t, p).Step? ==> Lookup(st, t, p).base == Current
    ensures Valid(st) && Read(rd, st, 1, a) == Content(rd.patch(st.current[a], [7]))
  {
    assert Lookup(st, 1, a) == Step([7], Current);
  }

  lemma AdversaryRestores(file: Bytes)
    requires |file| >= 10
    ensures var rd := Adversary([7], [1], file);
      && rd.Sound() && Saves(90, |file|, |rd.delta(rd.signature([1]), file)|)
      && rd.patch([1], [7]) == file && rd.patch([2], [7]) != file
  {
    var rd := Adversary([7], [1], file);
    assert rd.patch([1], rd.delta(rd.signature([1]), file)) == file;
    var live, made: Bytes := [2], [1];
    assert live[0] != made[0];
  }

  lemma FirstVersionIsLost(a: Path, b: Path, file: Bytes)
    requires a != b && |file| >= 10
    ensures var rd, st, st' := Adversary([7], [1], file), FirstDone(a, b, file), ThirdSynced(a, b, file);
      && Valid(st) && Read(rd, st, 1, a) == Content(file)
      && Valid(st') && Read(rd, st', 1, a) != Content(file)
  {
    var rd := Adversary([7], [1], file);
    AdversaryRestores(file);
    FirstVersionReads(rd, FirstDone(a, b, file), a, file);
    FirstVersionReads(rd, ThirdSynced(a, b, file), a, file);
  }

  /** Three ordinary runs are enough to lose the version of `a` that the first one made: the second
      changes only `b`, the third changes `a` again. rsync records all of them faithfully, every
      delta saves at least nine tenths, and the version no longer reads as what was backed up. */
  lemma ThreeRunsLoseAVersion(a: Path, b: Path, file: Bytes)
    requires a != b && |file| >= 10
    ensures var rd := Adversary([7], [1], file);
      && rd.Sound() && Saves(90, |file|, |rd.delta(rd.signature([1]), file)|)
      && RsyncRan(BeforeFirst(a, b, file), FirstSynced(a, b, file), 1)
      && Rebased(FirstSynced(a, b, file), FirstSynced(a, b, file), {a}, 1)
      && Published(rd, FirstSynced(a, b, file), FirstDone(a, b, file), 1, 90)
      && RsyncRan(FirstDone(a, b, file), SecondSynced(a, b, file), 2)
      && Rebased(SecondSynced(a, b, file), SecondSynced(a, b, file), {b}, 2)
      && Published(rd, SecondSynced(a, b, file), SecondDone(a, b, file), 2, 90)
      && RsyncRan(SecondDone(a, b, file), ThirdSynced(a, b, file), 3)
      && Rebased(ThirdSynced(a, b, file), ThirdSynced(a, b, file), {a}, 3)
      && Valid(FirstDone(a, b, file)) && Read(rd, FirstDone(a, b, file), 1, a) == Content(file)
      && Valid(ThirdSynced(a, b, file)) && Read(rd, ThirdSynced(a, b, file), 1, a) != Content(file)
  {
    FirstRun(a, b, file);
    SecondRun(a, b, file);
    ThirdRun(a, b, file);
    AdversaryRestores(file);
    FirstVersionIsLost(a, b, file);
  }
}
