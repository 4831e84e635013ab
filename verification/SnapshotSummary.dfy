/** The size accounting of one snapshot: a walk over its directory tree with an explicit
    stack, and what its totals mean when a manifest says which files are duplicates. */
module SnapshotSummary {
  import opened Wrappers
  import opened SnapshotStore
  import opened Deltaify

  /** What readdir lists, entry by entry; `Special` is neither a file nor a directory. */
  datatype Listing =
    | End
    | File(name: string, size: nat, rest: Listing)
    | Dir(name: string, entries: Listing, rest: Listing)
    | Special(name: string, rest: Listing)

  datatype Totals = Totals(fileCount: int, diskSize: int, originalSize: int)

  const SUFFIX := ".rdelta"

  predicate Excluded(name: string) {
    name == "_manifest.json" || name == "_summary.json"
  }

  predicate IsDeltaName(path: string) {
    |path| >= |SUFFIX| && path[|path| - |SUFFIX|..] == SUFFIX
  }

  function ManifestPath(path: string): string {
    if IsDeltaName(path) then path[..|path| - |SUFFIX|] else path
  }

  function Join(directory: string, name: string): string {
    if directory == "" then name else directory + "/" + name
  }

  /** Whether a file is one of the two copies of a converted or promoted file that must not
      be counted again. `present` are the paths that exist in the snapshot. */
  predicate Duplicate(m: Manifest, present: set<string>, path: string) {
    var key := ManifestPath(path);
    key in m && if IsDeltaName(path) then m[key].Full? && key in present
                else m[key].Delta? && path + SUFFIX in present
  }

  function OriginalSize(m: Manifest, path: string, size: nat): nat {
    var key := ManifestPath(path);
    if key in m && m[key].originalSize != 0 then m[key].originalSize else size
  }

  // ----- The walk -----

  /** What a file adds to one of the totals. */
  type Measure = (string, nat) -> int

  function CountOf(m: Manifest, present: set<string>): Measure {
    (path, size) => if Duplicate(m, present, path) then 0 else 1
  }

  function DiskSizeOf(m: Manifest, present: set<string>): Measure {
    (path, size) => if Duplicate(m, present, path) then 0 else size
  }

  function OriginalSizeOf(m: Manifest, present: set<string>): Measure {
    (path: string, size: nat) => if Duplicate(m, present, path) then 0 else OriginalSize(m, path, size)
  }

  function Nothing(path: string, size: nat): int { 0 }

  /** A total over everything below a directory, by recursion on the tree. Each entry adds
      `each`, and each file not excluded by its name adds its measure. */
  function Tally(each: nat, f: Measure, directory: string, entries: Listing): int
    decreases entries
  {
    match entries
    case End => 0
    case Special(_, rest) => each + Tally(each, f, directory, rest)
    case File(name, size, rest) =>
      each + (if Excluded(name) then 0 else f(Join(directory, name), size)) + Tally(each, f, directory, rest)
    case Dir(name, inner, rest) =>
      var inside := if Excluded(name) then 0 else Tally(each, f, Join(directory, name), inner);
      each + inside + Tally(each, f, directory, rest)
  }

  /** The number of entries the walk looks at. */
  function Scanned(directory: string, entries: Listing): int {
    Tally(1, Nothing, directory, entries)
  }

  datatype Frame = Frame(directory: string, entries: Listing)

  ghost function Owed(each: nat, f: Measure, stack: seq<Frame>): int {
    if stack == [] then 0
    else Owed(each, f, stack[..|stack| - 1]) + Tally(each, f, stack[|stack| - 1].directory, stack[|stack| - 1].entries)
  }

  lemma {:induction false} OwedAppend(each: nat, f: Measure, a: seq<Frame>, b: seq<Frame>)
    ensures Owed(each, f, a + b) == Owed(each, f, a) + Owed(each, f, b)
  {
    if b == [] {
      assert a + b == a;
    } else {
      OwedAppend(each, f, a, b[..|b| - 1]);
      assert (a + b)[..|a + b| - 1] == a + b[..|b| - 1];
    }
  }

  lemma ScannedIsNatural(directory: string, entries: Listing)
    ensures Scanned(directory, entries) >= 0
    decreases entries
  {
    match entries
    case End =>
    case Special(_, rest) => ScannedIsNatural(directory, rest);
    case File(_, _, rest) => ScannedIsNatural(directory, rest);
    case Dir(name, inner, rest) =>
      ScannedIsNatural(Join(directory, name), inner);
      ScannedIsNatural(directory, rest);
  }

  lemma OwedIsNatural(stack: seq<Frame>)
    ensures Owed(1, Nothing, stack) >= 0
  {
    if stack != [] {
      OwedIsNatural(stack[..|stack| - 1]);
      ScannedIsNatural(stack[|stack| - 1].directory, stack[|stack| - 1].entries);
    }
  }

  /** The walk with its explicit stack finds exactly the recursive totals of any three measures,
      or gives up because there are more entries than the budget allows: the scan limit, or what
      can be scanned in time. */
  method Walk(f: Measure, g: Measure, h: Measure, root: Listing, budget: nat) returns (r: Option<Totals>)
    ensures r == if Scanned("", root) > budget then None
                 else Some(Totals(Tally(0, f, "", root), Tally(0, g, "", root), Tally(0, h, "", root)))
  {
    var stack := [Frame("", root)];
    var scanned, a, b, c := 0, 0, 0, 0;
    while stack != []
      invariant scanned + Owed(1, Nothing, stack) == Scanned("", root)
      invariant a + Owed(0, f, stack) == Tally(0, f, "", root)
      invariant b + Owed(0, g, stack) == Tally(0, g, "", root)
      invariant c + Owed(0, h, stack) == Tally(0, h, "", root)
      invariant 0 <= scanned <= budget
      decreases Scanned("", root) - scanned, |stack|
    {
      OwedIsNatural(stack);
      var top := stack[|stack| - 1];
      stack := stack[..|stack| - 1];
      var pushed, n, a', b', c' := ScanDirectory(f, g, h, top, budget - scanned);
      scanned := scanned + n;
      if scanned > budget {
        OwedIsNatural(stack);
        return None;
      }
      OwedAppend(1, Nothing, stack, pushed);
      OwedAppend(0, f, stack, pushed);
      OwedAppend(0, g, stack, pushed);
      OwedAppend(0, h, stack, pushed);
      stack, a, b, c := stack + pushed, a + a', b + b', c + c';
      OwedIsNatural(stack);
    }
    r := Some(Totals(a, b, c));
  }

  /** One popped directory: count its files, collect its subdirectories, stop over budget. */
  method ScanDirectory(f: Measure, g: Measure, h: Measure, top: Frame, budget: nat)
    returns (pushed: seq<Frame>, scanned: nat, a: int, b: int, c: int)
    ensures scanned <= budget ==>
      && scanned + Owed(1, Nothing, pushed) == Scanned(top.directory, top.entries)
      && a + Owed(0, f, pushed) == Tally(0, f, top.directory, top.entries)
      && b + Owed(0, g, pushed) == Tally(0, g, top.directory, top.entries)
      && c + Owed(0, h, pushed) == Tally(0, h, top.directory, top.entries)
      && (scanned == 0 ==> pushed == [])
    ensures scanned <= Scanned(top.directory, top.entries)
  {
    pushed, scanned, a, b, c := [], 0, 0, 0, 0;
    var rest := top.entries;
    while rest != End
      invariant scanned + Owed(1, Nothing, pushed) + Scanned(top.directory, rest) == Scanned(top.directory, top.entries)
      invariant a + Owed(0, f, pushed) + Tally(0, f, top.directory, rest) == Tally(0, f, top.directory, top.entries)
      invariant b + Owed(0, g, pushed) + Tally(0, g, top.directory, rest) == Tally(0, g, top.directory, top.entries)
      invariant c + Owed(0, h, pushed) + Tally(0, h, top.directory, rest) == Tally(0, h, top.directory, top.entries)
      invariant scanned <= budget && (scanned == 0 ==> pushed == [])
      decreases rest
    {
      scanned := scanned + 1;
      OwedIsNatural(pushed);
      ScannedIsNatural(top.directory, rest.rest);
      if rest.Dir? { ScannedIsNatural(Join(top.directory, rest.name), rest.entries); }
      if scanned > budget { return; }
      if !Excluded(rest.name) {
        match rest {
          case Dir(name, inner, _) =>
            var frame := Frame(Join(top.directory, name), inner);
            OwedPush(1, Nothing, pushed, frame);
            OwedPush(0, f, pushed, frame);
            OwedPush(0, g, pushed, frame);
            OwedPush(0, h, pushed, frame);
            pushed := pushed + [frame];
          case File(name, size, _) =>
            var path := Join(top.directory, name);
            a, b, c := a + f(path, size), b + g(path, size), c + h(path, size);
          case Special(_, _) =>
        }
      }
      rest := rest.rest;
    }
    OwedIsNatural(pushed);
  }

  lemma OwedPush(each: nat, f: Measure, stack: seq<Frame>, top: Frame)
    ensures Owed(each, f, stack + [top]) == Owed(each, f, stack) + Tally(each, f, top.directory, top.entries)
  {
    assert (stack + [top])[..|stack|] == stack;
  }

  // ----- What the totals mean -----

  /** The files below a directory that the walk does not ignore. */
  function Files(directory: string, entries: Listing): seq<(string, nat)>
    decreases entries
  {
    match entries
    case End => []
    case Special(_, rest) => Files(directory, rest)
    case File(name, size, rest) =>
      (if Excluded(name) then [] else [(Join(directory, name), size)]) + Files(directory, rest)
    case Dir(name, inner, rest) =>
      (if Excluded(name) then [] else Files(Join(directory, name), inner)) + Files(directory, rest)
  }

  function SumOf(f: Measure, files: seq<(string, nat)>): int {
    if files == [] then 0 else f(files[0].0, files[0].1) + SumOf(f, files[1..])
  }

  lemma {:induction false} SumOfAppend(f: Measure, a: seq<(string, nat)>, b: seq<(string, nat)>)
    ensures SumOf(f, a + b) == SumOf(f, a) + SumOf(f, b)
  {
    if a == [] {
      assert a + b == b;
    } else {
      assert (a + b)[1..] == a[1..] + b;
      SumOfAppend(f, a[1..], b);
    }
  }

  lemma {:induction false} TallyIsSum(f: Measure, directory: string, entries: Listing)
    ensures Tally(0, f, directory, entries) == SumOf(f, Files(directory, entries))
    decreases entries
  {
    match entries
    case End =>
    case Special(_, rest) => TallyIsSum(f, directory, rest);
    case File(name, size, rest) =>
      TallyIsSum(f, directory, rest);
      SumOfAppend(f, if Excluded(name) then [] else [(Join(directory, name), size)], Files(directory, rest));
    case Dir(name, inner, rest) =>
      TallyIsSum(f, directory, rest);
      TallyIsSum(f, Join(directory, name), inner);
      SumOfAppend(f, if Excluded(name) then [] else Files(Join(directory, name), inner), Files(directory, rest));
  }

  /** The sum of `w` over a set of paths. */
  ghost function Total(w: string -> int, keys: set<string>): int {
    if keys == {} then 0 else var k :| k in keys; w(k) + Total(w, keys - {k})
  }

  lemma {:induction false} TotalSplit(w: string -> int, keys: set<string>, k: string)
    requires k in keys
    ensures Total(w, keys) == w(k) + Total(w, keys - {k})
  {
    var j :| j in keys && Total(w, keys) == w(j) + Total(w, keys - {j});
    if j != k {
      TotalSplit(w, keys - {j}, k);
      TotalSplit(w, keys - {k}, j);
      assert keys - {j} - {k} == keys - {k} - {j};
    }
  }

  lemma {:induction false} TotalAgrees(w: string -> int, w': string -> int, keys: set<string>)
    requires forall k :: k in keys ==> w(k) <= w'(k)
    ensures Total(w, keys) <= Total(w', keys)
    ensures (forall k :: k in keys ==> w(k) == w'(k)) ==> Total(w, keys) == Total(w', keys)
  {
    if keys != {} {
      var k :| k in keys;
      TotalSplit(w, keys, k);
      TotalSplit(w', keys, k);
      TotalAgrees(w, w', keys - {k});
    }
  }

  lemma {:induction false} TotalOfOnes(keys: set<string>)
    ensures Total(k => 1, keys) == |keys|
  {
    if keys != {} {
      var k :| k in keys;
      TotalSplit(k => 1, keys, k);
      TotalOfOnes(keys - {k});
    }
  }

  /** What the files that stand for manifest path `p` add. */
  function ShareOf(f: Measure, files: seq<(string, nat)>, p: string): int {
    if files == [] then 0
    else (if ManifestPath(files[0].0) == p then f(files[0].0, files[0].1) else 0) + ShareOf(f, files[1..], p)
  }

  lemma {:induction false} SumByPath(f: Measure, files: seq<(string, nat)>, keys: set<string>)
    requires forall x :: x in files ==> ManifestPath(x.0) in keys
    ensures SumOf(f, files) == Total(p => ShareOf(f, files, p), keys)
  {
    var share := p => ShareOf(f, files, p);
    if files == [] {
      TotalAgrees(share, p => 0, keys);
      TotalOfZeros(keys);
    } else {
      SumByPath(f, files[1..], keys);
      var tail := p => ShareOf(f, files[1..], p);
      var k := ManifestPath(files[0].0);
      assert files[0] in files;
      TotalSplit(share, keys, k);
      TotalSplit(tail, keys, k);
      TotalAgrees(share, tail, keys - {k});
    }
  }

  lemma {:induction false} TotalOfZeros(keys: set<string>)
    ensures Total(k => 0, keys) == 0
  {
    if keys != {} {
      var k :| k in keys;
      TotalSplit(k => 0, keys, k);
      TotalOfZeros(keys - {k});
    }
  }

  ghost predicate Distinct(files: seq<(string, nat)>) {
    forall i, j :: 0 <= i < j < |files| ==> files[i].0 != files[j].0
  }

  function Added(f: Measure, files: seq<(string, nat)>, path: string): int {
    if files == [] then 0 else if files[0].0 == path then f(files[0].0, files[0].1) else Added(f, files[1..], path)
  }

  lemma StandsFor(path: string, p: string)
    requires !IsDeltaName(p)
    ensures ManifestPath(path) == p <==> path == p || path == p + SUFFIX
    ensures p != p + SUFFIX && IsDeltaName(p + SUFFIX)
  {
    assert (p + SUFFIX)[..|p|] == p && (p + SUFFIX)[|p|..] == SUFFIX;
    if IsDeltaName(path) { assert path == path[..|path| - |SUFFIX|] + path[|path| - |SUFFIX|..]; }
  }

  lemma {:induction false} ShareIsTwoFiles(f: Measure, files: seq<(string, nat)>, p: string)
    requires Distinct(files) && !IsDeltaName(p)
    ensures ShareOf(f, files, p) == Added(f, files, p) + Added(f, files, p + SUFFIX)
  {
    if files != [] {
      StandsFor(files[0].0, p);
      ShareIsTwoFiles(f, files[1..], p);
      if files[0].0 == p || files[0].0 == p + SUFFIX { NotAdded(f, files[1..], files[0].0); }
    }
  }

  lemma {:induction false} NotAdded(f: Measure, files: seq<(string, nat)>, path: string)
    requires forall i :: 0 <= i < |files| ==> files[i].0 != path
    ensures Added(f, files, path) == 0
  {
    if files != [] { NotAdded(f, files[1..], path); }
  }

  lemma {:induction false} AddedOnce(f: Measure, files: seq<(string, nat)>, path: string, size: nat)
    requires Distinct(files) && (path, size) in files
    ensures Added(f, files, path) == f(path, size)
  {
    if files[0] != (path, size) {
      var i :| 0 <= i < |files| && files[i] == (path, size);
      assert files[1..][i - 1] == (path, size);
      AddedOnce(f, files[1..], path, size);
    }
  }

  /** The snapshot directory holds the files of `s`, and what exists there is what `s` says. */
  ghost predicate Holds(root: Listing, present: set<string>, s: Snapshot) {
    var files := Files("", root);
    && Distinct(files)
    && (forall p :: p in s.full || p in s.deltas ==> !IsDeltaName(p))
    && (forall path, size :: (path, size) in files ==>
          || (path in s.full && size == |s.full[path]|)
          || (IsDeltaName(path) && ManifestPath(path) in s.deltas && size == |s.deltas[ManifestPath(path)]|))
    && (forall p :: p in s.full ==> (p, |s.full[p]|) in files)
    && (forall p :: p in s.deltas ==> (p + SUFFIX, |s.deltas[p]|) in files)
    && (forall p :: !IsDeltaName(p) ==> (p in present <==> p in s.full) && (p + SUFFIX in present <==> p in s.deltas))
  }

  /** The manifest is backed by what is on disk, whatever duplicates are still there too. */
  ghost predicate Accounted(s: Snapshot, threshold: int) {
    && s.manifest.Some? && threshold > 0
    && s.full.Keys <= s.manifest.value.Keys && s.deltas.Keys <= s.manifest.value.Keys
    && forall p :: p in s.manifest.value ==>
         match s.manifest.value[p]
         case Full(size) => p in s.full && size == |s.full[p]|
         case Delta(size, deltaSize, _) =>
           p in s.deltas && deltaSize == |s.deltas[p]| && Saves(threshold, size, deltaSize)
  }

  function StoredSize(e: Entry): nat {
    match e
    case Full(size) => size
    case Delta(_, deltaSize, _) => deltaSize
  }

  lemma FullCopyAdds(f: Measure, root: Listing, present: set<string>, s: Snapshot, p: string)
    requires Holds(root, present, s) && !IsDeltaName(p)
    ensures Added(f, Files("", root), p) == if p in s.full then f(p, |s.full[p]|) else 0
  {
    var files := Files("", root);
    if p in s.full {
      AddedOnce(f, files, p, |s.full[p]|);
    } else {
      forall i | 0 <= i < |files| ensures files[i].0 != p {
        assert (files[i].0, files[i].1) in files;
      }
      NotAdded(f, files, p);
    }
  }

  lemma DeltaAdds(f: Measure, root: Listing, present: set<string>, s: Snapshot, p: string)
    requires Holds(root, present, s) && !IsDeltaName(p)
    ensures Added(f, Files("", root), p + SUFFIX) == if p in s.deltas then f(p + SUFFIX, |s.deltas[p]|) else 0
  {
    var files := Files("", root);
    StandsFor(p + SUFFIX, p);
    if p in s.deltas {
      AddedOnce(f, files, p + SUFFIX, |s.deltas[p]|);
    } else {
      forall i | 0 <= i < |files| ensures files[i].0 != p + SUFFIX {
        assert (files[i].0, files[i].1) in files;
      }
      NotAdded(f, files, p + SUFFIX);
    }
  }

  lemma ManifestPathIsPlain(root: Listing, present: set<string>, s: Snapshot, threshold: int, p: string)
    requires Accounted(s, threshold) && Holds(root, present, s) && p in s.manifest.value
    ensures !IsDeltaName(p) && ManifestPath(p) == p == ManifestPath(p + SUFFIX)
    ensures p in s.full && s.manifest.value[p].Delta? ==> Duplicate(s.manifest.value, present, p)
    ensures p in s.deltas && s.manifest.value[p].Full? ==> Duplicate(s.manifest.value, present, p + SUFFIX)
    ensures !Duplicate(s.manifest.value, present, if s.manifest.value[p].Full? then p else p + SUFFIX)
  {
    assert p in s.full || p in s.deltas;
    StandsFor(p, p);
    StandsFor(p + SUFFIX, p);
  }

  /** What the two possible files of one manifest path add, for a measure that ignores duplicates. */
  lemma PathShare(f: Measure, root: Listing, present: set<string>, s: Snapshot, threshold: int, p: string)
    requires Accounted(s, threshold) && Holds(root, present, s) && p in s.manifest.value
    requires forall path, size :: Duplicate(s.manifest.value, present, path) ==> f(path, size) == 0
    ensures ShareOf(f, Files("", root), p) ==
      match s.manifest.value[p]
      case Full(_) => f(p, |s.full[p]|)
      case Delta(_, _, _) => f(p + SUFFIX, |s.deltas[p]|)
  {
    ManifestPathIsPlain(root, present, s, threshold, p);
    ShareIsTwoFiles(f, Files("", root), p);
    FullCopyAdds(f, root, present, s, p);
    DeltaAdds(f, root, present, s, p);
  }

  lemma TotalOverManifest(f: Measure, root: Listing, present: set<string>, s: Snapshot, threshold: int,
                          w: string -> int)
    requires Accounted(s, threshold) && Holds(root, present, s)
    requires forall path, size :: Duplicate(s.manifest.value, present, path) ==> f(path, size) == 0
    requires forall p :: p in s.manifest.value ==>
      w(p) == match s.manifest.value[p]
              case Full(_) => f(p, |s.full[p]|)
              case Delta(_, _, _) => f(p + SUFFIX, |s.deltas[p]|)
    ensures Tally(0, f, "", root) == Total(w, s.manifest.value.Keys)
  {
    var files, keys := Files("", root), s.manifest.value.Keys;
    TallyIsSum(f, "", root);
    forall x | x in files ensures ManifestPath(x.0) in keys {
      assert (x.0, x.1) in files;
    }
    SumByPath(f, files, keys);
    forall p | p in keys ensures ShareOf(f, files, p) == w(p) {
      PathShare(f, root, present, s, threshold, p);
    }
    TotalAgrees(p => ShareOf(f, files, p), w, keys);
  }

  function Originals(m: Manifest): string -> int {
    p => if p in m then m[p].originalSize else 0
  }

  function Stored(m: Manifest): string -> int {
    p => if p in m then StoredSize(m[p]) else 0
  }

  lemma CountMeaning(root: Listing, present: set<string>, s: Snapshot, threshold: int)
    requires Accounted(s, threshold) && Holds(root, present, s)
    ensures Tally(0, CountOf(s.manifest.value, present), "", root) == |s.manifest.value|
  {
    forall p | p in s.manifest.value
      ensures !Duplicate(s.manifest.value, present, if s.manifest.value[p].Full? then p else p + SUFFIX)
    {
      ManifestPathIsPlain(root, present, s, threshold, p);
    }
    TotalOverManifest(CountOf(s.manifest.value, present), root, present, s, threshold, p => 1);
    TotalOfOnes(s.manifest.value.Keys);
  }

  lemma OriginalMeaning(root: Listing, present: set<string>, s: Snapshot, threshold: int)
    requires Accounted(s, threshold) && Holds(root, present, s)
    ensures Tally(0, OriginalSizeOf(s.manifest.value, present), "", root)
         == Total(Originals(s.manifest.value), s.manifest.value.Keys)
  {
    var m := s.manifest.value;
    var f := OriginalSizeOf(m, present);
    forall p | p in m
      ensures m[p].originalSize == match m[p]
        case Full(_) => f(p, |s.full[p]|)
        case Delta(_, _, _) => f(p + SUFFIX, |s.deltas[p]|)
    {
      ManifestPathIsPlain(root, present, s, threshold, p);
    }
    TotalOverManifest(f, root, present, s, threshold, Originals(m));
  }

  lemma StoredMeaning(root: Listing, present: set<string>, s: Snapshot, threshold: int)
    requires Accounted(s, threshold) && Holds(root, present, s)
    ensures Tally(0, DiskSizeOf(s.manifest.value, present), "", root)
         == Total(Stored(s.manifest.value), s.manifest.value.Keys)
  {
    var m := s.manifest.value;
    var f := DiskSizeOf(m, present);
    forall p | p in m
      ensures StoredSize(m[p]) == match m[p]
        case Full(_) => f(p, |s.full[p]|)
        case Delta(_, _, _) => f(p + SUFFIX, |s.deltas[p]|)
    {
      ManifestPathIsPlain(root, present, s, threshold, p);
    }
    TotalOverManifest(f, root, present, s, threshold, Stored(m));
  }

  lemma SavingIsSmaller(threshold: int, size: nat, deltaSize: nat)
    requires threshold > 0 && Saves(threshold, size, deltaSize)
    ensures deltaSize < size
  {
    assert threshold * size > 0;
  }

  lemma StoredIsNoMore(s: Snapshot, threshold: int)
    requires Accounted(s, threshold)
    ensures Total(Stored(s.manifest.value), s.manifest.value.Keys)
         <= Total(Originals(s.manifest.value), s.manifest.value.Keys)
  {
    var m := s.manifest.value;
    forall p | p in m ensures StoredSize(m[p]) <= m[p].originalSize {
      if m[p].Delta? { SavingIsSmaller(threshold, m[p].originalSize, m[p].deltaSize); }
    }
    TotalAgrees(Stored(m), Originals(m), m.Keys);
  }

  /** With the manifest published, and whichever converted full copies are still there, the
      summary counts every manifest path once, adds the recorded original sizes and what is
      stored for each, and never reports more stored than was backed up. */
  lemma SummaryMeaning(root: Listing, present: set<string>, s: Snapshot, threshold: int)
    requires Accounted(s, threshold) && Holds(root, present, s)
    ensures Tally(0, CountOf(s.manifest.value, present), "", root) == |s.manifest.value|
    ensures Tally(0, OriginalSizeOf(s.manifest.value, present), "", root)
         == Total(Originals(s.manifest.value), s.manifest.value.Keys)
    ensures Tally(0, DiskSizeOf(s.manifest.value, present), "", root)
         == Total(Stored(s.manifest.value), s.manifest.value.Keys)
    ensures Total(Stored(s.manifest.value), s.manifest.value.Keys)
         <= Total(Originals(s.manifest.value), s.manifest.value.Keys)
  {
    CountMeaning(root, present, s, threshold);
    OriginalMeaning(root, present, s, threshold);
    StoredMeaning(root, present, s, threshold);
    StoredIsNoMore(s, threshold);
  }

  /** Every state deltaifying leaves once the manifest is out is accounted for. */
  lemma PublishedIsAccounted(rd: Rdiff, st: Store, st': Store, T: Time, threshold: int)
    requires Published(rd, st, st', T, threshold) && threshold > 0
    ensures Accounted(st'.snapshots[T], threshold)
  {
    var s, s' := st.snapshots[T], st'.snapshots[T];
    forall p | p in s'.manifest.value
      ensures match s'.manifest.value[p]
              case Full(size) => p in s'.full && size == |s'.full[p]|
              case Delta(size, deltaSize, _) =>
                p in s'.deltas && deltaSize == |s'.deltas[p]| && Saves(threshold, size, deltaSize)
    {
      assert p in s.full && Settled(rd, st, s.full[p], s', p, threshold);
    }
  }

  /** refreshSnapshotSummary on a snapshot that deltaifying left, at any point once its manifest is
      out: the numbers written are those of the manifest, or the budget is exceeded. */
  method RefreshSnapshotSummary(ghost rd: Rdiff, ghost st: Store, ghost st': Store, ghost T: Time, ghost threshold: int,
                                manifest: Manifest, root: Listing, present: set<string>, budget: nat)
    returns (summary: Option<Totals>)
    requires Published(rd, st, st', T, threshold) && threshold > 0
    requires st'.snapshots[T].manifest == Some(manifest) && Holds(root, present, st'.snapshots[T])
    ensures summary.None? <==> Scanned("", root) > budget
    ensures summary.Some? ==>
      && summary.value.fileCount == |manifest|
      && summary.value.originalSize == Total(Originals(manifest), manifest.Keys)
      && summary.value.diskSize == Total(Stored(manifest), manifest.Keys)
      && summary.value.diskSize <= summary.value.originalSize
  {
    PublishedIsAccounted(rd, st, st', T, threshold);
    SummaryMeaning(root, present, st'.snapshots[T], threshold);
    summary := Walk(CountOf(manifest, present), DiskSizeOf(manifest, present), OriginalSizeOf(manifest, present),
      root, budget);
  }
}
