/** Path-prefix reasoning behind the backup jobs that delete: normal forms, containment, and why
    no two jobs ever own the same path. */
module PathPolicy {
  import opened Wrappers
  import opened Text

  // ----- Normal forms -----

  const UNSAFE := {'$', '`', '"', '\\', '|', ';', '&', '(', ')', '{', '}', '\n', '\r', '\0'}

  predicate Safe(p: string) {
    forall i :: 0 <= i < |p| ==> p[i] !in UNSAFE
  }

  /** Where the segments of an absolute path lead: "." stays, ".." goes up and stops at the root. */
  function Resolve(parts: seq<string>): (segments: seq<string>)
    ensures |segments| <= |parts|
  {
    if parts == [] then []
    else
      var before, last := Resolve(parts[..|parts| - 1]), parts[|parts| - 1];
      if last == "" || last == "." then before
      else if last == ".." then (if before == [] then [] else before[..|before| - 1])
      else before + [last]
  }

  function Rooted(segments: seq<string>): string {
    "/" + Join(segments, '/')
  }

  function NormalizePath(p: string): Option<string> {
    if p == "" || !Safe(p) || p[0] != '/' then None else Some(Rooted(Resolve(Split(p, '/'))))
  }

  predicate Plain(segment: string) {
    segment != "" && segment != "." && segment != ".." && '/' !in segment
  }

  predicate AllPlain(segments: seq<string>) {
    forall i :: 0 <= i < |segments| ==> Plain(segments[i])
  }

  /** The segments of a path, once it is normalised. */
  function Segments(p: string): seq<string> {
    Resolve(Split(p, '/'))
  }

  lemma {:induction false} SplitParts(s: string, c: char)
    ensures forall i :: 0 <= i < |Split(s, c)| ==> c !in Split(s, c)[i]
  {
    if s != [] {
      SplitParts(s[1..], c);
      var rest := Split(s[1..], c);
      assert forall i :: 0 <= i < |rest| ==> c !in rest[i];
    }
  }

  lemma {:induction false} ResolveIsPlain(parts: seq<string>)
    requires forall i :: 0 <= i < |parts| ==> '/' !in parts[i]
    ensures AllPlain(Resolve(parts))
  {
    if parts != [] {
      ResolveIsPlain(parts[..|parts| - 1]);
    }
  }

  lemma {:induction false} ResolvePlain(segments: seq<string>)
    requires AllPlain(segments)
    ensures Resolve([""] + segments) == segments
  {
    if segments == [] {
      assert Resolve([]) == [] && [""][..0] == [];
    } else {
      var n := |segments| - 1;
      ResolvePlain(segments[..n]);
      assert ([""] + segments)[..n + 1] == [""] + segments[..n];
      assert segments == segments[..n] + [segments[n]];
    }
  }

  /** A rooted list of plain segments splits back into them. */
  lemma RootedSplits(segments: seq<string>)
    requires AllPlain(segments)
    ensures Segments(Rooted(segments)) == segments
    ensures segments != [] ==> Split(Rooted(segments), '/') == [""] + segments
  {
    SplitHead("", '/', Join(segments, '/'));
    assert Rooted(segments) == "" + ['/'] + Join(segments, '/');
    if segments == [] {
      assert Split(Rooted([]), '/') == ["", ""];
      assert ["", ""][..1] == [""] && [""][..0] == [];
    } else {
      var n := |segments| - 1;
      SplitJoin(segments[..n], segments[n], '/');
      SplitWithout(segments[n], '/');
      assert segments[..n] + [segments[n]] == segments;
      ResolvePlain(segments);
    }
  }

  lemma SegmentsArePlain(p: string)
    ensures AllPlain(Segments(p))
  {
    SplitParts(p, '/');
    ResolveIsPlain(Split(p, '/'));
  }

  lemma {:induction false} JoinIsSafe(parts: seq<string>)
    requires forall i :: 0 <= i < |parts| ==> Safe(parts[i])
    ensures Safe(Join(parts, '/'))
  {
    if |parts| > 1 {
      JoinIsSafe(parts[1..]);
    }
  }

  lemma {:induction false} SplitIsSafe(s: string)
    requires Safe(s)
    ensures forall i :: 0 <= i < |Split(s, '/')| ==> Safe(Split(s, '/')[i])
  {
    if s != [] {
      SplitIsSafe(s[1..]);
      var rest := Split(s[1..], '/');
      assert Safe(rest[0]) && Safe([s[0]] + rest[0]);
    }
  }

  lemma {:induction false} ResolveIsSafe(parts: seq<string>)
    requires forall i :: 0 <= i < |parts| ==> Safe(parts[i])
    ensures forall i :: 0 <= i < |Resolve(parts)| ==> Safe(Resolve(parts)[i])
  {
    if parts != [] {
      ResolveIsSafe(parts[..|parts| - 1]);
    }
  }

  /** Normalising twice changes nothing, and keeps what the path means. */
  lemma NormalizeIsIdempotent(p: string)
    requires NormalizePath(p).Some?
    ensures NormalizePath(NormalizePath(p).value) == NormalizePath(p)
    ensures Segments(NormalizePath(p).value) == Segments(p)
  {
    SegmentsArePlain(p);
    RootedSplits(Segments(p));
    SplitIsSafe(p);
    ResolveIsSafe(Split(p, '/'));
    JoinIsSafe(Segments(p));
  }

  // ----- Containment -----

  predicate StartsWith(s: string, prefix: string) {
    |prefix| <= |s| && s[..|prefix|] == prefix
  }

  predicate IsWithinPrefix(path: string, prefix: string) {
    var p, q := NormalizePath(path), NormalizePath(prefix);
    p.Some? && q.Some? && (q.value == "/" || p.value == q.value || StartsWith(p.value, q.value + "/"))
  }

  predicate PathsOverlap(a: string, b: string) {
    var na, nb := NormalizePath(a), NormalizePath(b);
    na.Some? && nb.Some? && (na == nb || IsWithinPrefix(na.value, nb.value) || IsWithinPrefix(nb.value, na.value))
  }

  lemma {:induction false} JoinSnoc(heads: seq<string>, last: string)
    requires heads != []
    ensures Join(heads + [last], '/') == Join(heads, '/') + "/" + last
  {
    var all := heads + [last];
    assert all[1..] == heads[1..] + [last];
    if |heads| == 1 {
      assert all[1..] == [last];
    } else {
      JoinSnoc(heads[1..], last);
    }
  }

  lemma {:induction false} JoinParts(a: seq<string>, b: seq<string>)
    requires a != [] && b != []
    ensures Join(a + b, '/') == Join(a, '/') + "/" + Join(b, '/')
  {
    if |a| == 1 {
      assert (a + b)[1..] == b;
    } else {
      assert (a + b)[1..] == a[1..] + b;
      JoinParts(a[1..], b);
    }
  }

  /** Joined segments that begin with other joined segments and a slash begin with those segments. */
  lemma JoinedPrefix(p: seq<string>, q: seq<string>, rest: string)
    requires AllPlain(p) && AllPlain(q) && Join(p, '/') == Join(q + [rest], '/') && p != []
    ensures q <= p
  {
    SplitJoin(q, rest, '/');
    var n := |p| - 1;
    SplitJoin(p[..n], p[n], '/');
    SplitWithout(p[n], '/');
    assert p[..n] + [p[n]] == p;
    assert p == q + Split(rest, '/');
  }

  lemma StartsMeansPrefix(p: seq<string>, q: seq<string>)
    requires AllPlain(p) && AllPlain(q) && q != [] && StartsWith(Rooted(p), Rooted(q) + "/")
    ensures q <= p
  {
    var joined, long := Join(p, '/'), Join(q, '/') + "/";
    var rest := joined[|long|..];
    assert Rooted(p)[..|long| + 1] == Rooted(q) + "/" == "/" + long;
    assert joined == Rooted(p)[1..];
    assert joined[..|long|] == Rooted(p)[1..|long| + 1] == Rooted(p)[..|long| + 1][1..] == ("/" + long)[1..] == long;
    JoinSnoc(q, rest);
    assert joined == long + rest;
    JoinedPrefix(p, q, rest);
  }

  lemma PrefixMeansStarts(p: seq<string>, q: seq<string>)
    requires q != [] && q < p
    ensures StartsWith(Rooted(p), Rooted(q) + "/")
  {
    JoinParts(q, p[|q|..]);
    assert q + p[|q|..] == p;
    assert Rooted(p) == Rooted(q) + "/" + Join(p[|q|..], '/');
  }

  /** The string test is the segment test: `q` is a prefix of `p` as lists of segments. */
  lemma RootedPrefix(p: seq<string>, q: seq<string>)
    requires AllPlain(p) && AllPlain(q) && q != []
    ensures Rooted(p) == Rooted(q) || StartsWith(Rooted(p), Rooted(q) + "/") <==> q <= p
  {
    RootedSplits(p);
    RootedSplits(q);
    if StartsWith(Rooted(p), Rooted(q) + "/") {
      StartsMeansPrefix(p, q);
    } else if q <= p && q != p {
      PrefixMeansStarts(p, q);
    }
  }

  /** isWithinPrefix means containment: the prefix's segments begin the path's. */
  lemma WithinMeansPrefix(path: string, prefix: string)
    ensures IsWithinPrefix(path, prefix) <==>
              NormalizePath(path).Some? && NormalizePath(prefix).Some? && Segments(prefix) <= Segments(path)
  {
    if NormalizePath(path).Some? && NormalizePath(prefix).Some? {
      SegmentsArePlain(path);
      SegmentsArePlain(prefix);
      if Segments(prefix) == [] {
        assert NormalizePath(prefix).value == "/";
      } else {
        RootedPrefix(Segments(path), Segments(prefix));
        RootedSplits(Segments(prefix));
        RootedSplits([]);
      }
    }
  }

  predicate Comparable(a: seq<string>, b: seq<string>) {
    a <= b || b <= a
  }

  lemma OverlapMeansComparable(a: string, b: string)
    ensures PathsOverlap(a, b) <==>
              NormalizePath(a).Some? && NormalizePath(b).Some? && Comparable(Segments(a), Segments(b))
  {
    if NormalizePath(a).Some? && NormalizePath(b).Some? {
      var na, nb := NormalizePath(a).value, NormalizePath(b).value;
      NormalizeIsIdempotent(a);
      NormalizeIsIdempotent(b);
      WithinMeansPrefix(na, nb);
      WithinMeansPrefix(nb, na);
    }
  }

  // ----- Resolving against the file system -----

  /** The file system as the checks see it; `realpath` is None where resolving fails. */
  datatype Disk = Disk(present: string -> bool, realpath: string -> Option<string>)

  /** posix.dirname and posix.basename of a normalised path. */
  function Dirname(p: string): string {
    var segments := Segments(p);
    if segments == [] then "/" else Rooted(segments[..|segments| - 1])
  }

  function Basename(p: string): string {
    var segments := Segments(p);
    if segments == [] then "" else segments[|segments| - 1]
  }

  function Appended(p: string, missing: seq<string>): string {
    Join([p] + missing, '/')
  }

  /** The longest prefix of the path that exists, resolved, with the missing rest put back. */
  function Resolved(disk: Disk, segments: seq<string>, missing: seq<string>): Option<string> {
    var p := Rooted(segments);
    if disk.present(p) then
      var target := disk.realpath(p);
      if target.None? then None else NormalizePath(Appended(target.value, missing))
    else if segments == [] then None
    else Resolved(disk, segments[..|segments| - 1], [segments[|segments| - 1]] + missing)
  }

  function Canonical(disk: Disk, path: string): Option<string> {
    var p := NormalizePath(path);
    if p.None? then None else Resolved(disk, Segments(path), [])
  }

  method CanonicalizeLocalPath(disk: Disk, path: string) returns (r: Option<string>)
    ensures r == Canonical(disk, path)
  {
    var normalized := NormalizePath(path);
    if normalized.None? { return None; }
    SegmentsArePlain(path);
    RootedSplits(Segments(path));
    var existing, missing := normalized.value, [];
    while !disk.present(existing)
      invariant AllPlain(Segments(existing)) && existing == Rooted(Segments(existing))
      invariant Canonical(disk, path) == Resolved(disk, Segments(existing), missing)
      decreases |Segments(existing)|
    {
      var parent := Dirname(existing);
      if parent == existing {
        if Segments(existing) != [] {
          RootedSplits(Segments(existing)[..|Segments(existing)| - 1]);
        }
        return None;
      }
      RootedSplits([]);
      RootedSplits(Segments(existing)[..|Segments(existing)| - 1]);
      missing := [Basename(existing)] + missing;
      existing := parent;
    }
    var target := disk.realpath(existing);
    if target.None? { return None; }
    return NormalizePath(Appended(target.value, missing));
  }

  /** A canonical path is in normal form. */
  lemma {:induction false} ResolvedIsNormal(disk: Disk, segments: seq<string>, missing: seq<string>)
    requires Resolved(disk, segments, missing).Some?
    ensures NormalizePath(Resolved(disk, segments, missing).value) == Resolved(disk, segments, missing)
  {
    var p := Rooted(segments);
    if disk.present(p) {
      NormalizeIsIdempotent(Appended(disk.realpath(p).value, missing));
    } else {
      ResolvedIsNormal(disk, segments[..|segments| - 1], [segments[|segments| - 1]] + missing);
    }
  }

  predicate LocalPathsOverlap(disk: Disk, a: string, b: string) {
    var ca, cb := Canonical(disk, a), Canonical(disk, b);
    ca.Some? && cb.Some? && PathsOverlap(ca.value, cb.value)
  }

  /** The canonical segments of a destination: everything below them is what its job may delete. */
  function Territory(disk: Disk, dest: string): Option<seq<string>> {
    var c := Canonical(disk, dest);
    if c.None? then None else Some(Segments(c.value))
  }

  predicate Reaches(disk: Disk, dest: string, x: seq<string>) {
    Territory(disk, dest).Some? && Territory(disk, dest).value <= x
  }

  /** Two destinations overlap just when some path belongs to both. */
  lemma OverlapMeansShared(disk: Disk, a: string, b: string)
    ensures LocalPathsOverlap(disk, a, b) <==> exists x :: Reaches(disk, a, x) && Reaches(disk, b, x)
  {
    if Canonical(disk, a).Some? && Canonical(disk, b).Some? {
      var ta, tb := Territory(disk, a).value, Territory(disk, b).value;
      ResolvedIsNormal(disk, Segments(a), []);
      ResolvedIsNormal(disk, Segments(b), []);
      OverlapMeansComparable(Canonical(disk, a).value, Canonical(disk, b).value);
      if Comparable(ta, tb) {
        var x := if ta <= tb then tb else ta;
        assert Reaches(disk, a, x) && Reaches(disk, b, x);
      }
      forall x | Reaches(disk, a, x) && Reaches(disk, b, x) ensures Comparable(ta, tb) {
        PrefixesCompare(ta, tb, x);
      }
    }
  }

  lemma PrefixesCompare(a: seq<string>, b: seq<string>, x: seq<string>)
    requires a <= x && b <= x
    ensures Comparable(a, b)
  {
    if |a| <= |b| {
      assert b[..|a|] == x[..|a|];
    } else {
      assert a[..|b|] == x[..|b|];
    }
  }

  // ----- Validating one job -----

  datatype Verdict = Ok | BadSource | BadDestination | Unresolvable | SamePath | ProtectedRoot
                   | DestinationInside | SourceInside
                   | OverlapsAnother(id: nat)

  const DANGEROUS := {
    "/", "/mnt", "/mnt/user", "/mnt/user0", "/mnt/cache", "/mnt/disks",
    "/boot", "/etc", "/root", "/var", "/usr", "/bin", "/lib", "/sys", "/proc", "/dev"}

  /** The forms of the configured roots that a destination may not have. */
  function RootForms(disk: Disk, roots: seq<string>): set<Option<string>> {
    (set i | 0 <= i < |roots| :: NormalizePath(roots[i])) + (set i | 0 <= i < |roots| :: Canonical(disk, roots[i]))
  }

  predicate IsProtected(disk: Disk, roots: seq<string>, dest: string) {
    dest in DANGEROUS || Some(dest) in RootForms(disk, roots)
  }

  function ValidateSsdBackupPaths(disk: Disk, roots: seq<string>, sourcePath: string, destPath: string): Verdict {
    var s, d := NormalizePath(sourcePath), NormalizePath(destPath);
    if s.None? then BadSource
    else if d.None? then BadDestination
    else
      var cs, cd := Canonical(disk, s.value), Canonical(disk, d.value);
      if cs.None? || cd.None? then Unresolvable
      else if s == d || cs == cd then SamePath
      else if IsProtected(disk, roots, d.value) || IsProtected(disk, roots, cd.value) then ProtectedRoot
      else if IsWithinPrefix(d.value, s.value) || IsWithinPrefix(cd.value, cs.value) then DestinationInside
      else if IsWithinPrefix(s.value, d.value) || IsWithinPrefix(cs.value, cd.value) then SourceInside
      else Ok
  }

  /** Resolving a path sees only its segments. */
  lemma CanonicalOfNormalized(disk: Disk, path: string)
    requires NormalizePath(path).Some?
    ensures Canonical(disk, NormalizePath(path).value) == Canonical(disk, path)
  {
    NormalizeIsIdempotent(path);
  }

  /** A job that passes deletes in no protected root, and nothing it deletes is in its source:
      no path lies under both, neither as written nor as resolved. */
  lemma ValidatedPathsAreApart(disk: Disk, roots: seq<string>, source: string, dest: string)
    ensures ValidateSsdBackupPaths(disk, roots, source, dest) == Ok <==>
              && Territory(disk, source).Some? && Territory(disk, dest).Some?
              && !IsProtected(disk, roots, NormalizePath(dest).value)
              && !IsProtected(disk, roots, Canonical(disk, dest).value)
              && !Comparable(Segments(source), Segments(dest))
              && (forall x :: !(Reaches(disk, source, x) && Reaches(disk, dest, x)))
  {
    if NormalizePath(source).Some? { CanonicalOfNormalized(disk, source); }
    if NormalizePath(dest).Some? { CanonicalOfNormalized(disk, dest); }
    if Territory(disk, source).Some? && Territory(disk, dest).Some? {
      var s, d := NormalizePath(source).value, NormalizePath(dest).value;
      NormalizeIsIdempotent(source);
      NormalizeIsIdempotent(dest);
      var cs, cd := Canonical(disk, source).value, Canonical(disk, dest).value;
      ResolvedIsNormal(disk, Segments(source), []);
      ResolvedIsNormal(disk, Segments(dest), []);
      OverlapMeansComparable(s, d);
      OverlapMeansComparable(cs, cd);
      OverlapMeansShared(disk, source, dest);
      assert PathsOverlap(s, d) <==> Comparable(Segments(source), Segments(dest));
      assert LocalPathsOverlap(disk, source, dest) <==> PathsOverlap(cs, cd);
      assert PathsOverlap(s, d) <==> s == d || IsWithinPrefix(s, d) || IsWithinPrefix(d, s);
      assert PathsOverlap(cs, cd) <==> cs == cd || IsWithinPrefix(cs, cd) || IsWithinPrefix(cd, cs);
    }
  }

  // ----- Pairing access -----

  const MAX_SAFE_INTEGER := 9007199254740991

  /** validatePairingAccess: a directory below the root and a finite positive limit. */
  function ValidatePairingAccess(prefix: string, limit: int): Option<(string, int)> {
    var p := NormalizePath(prefix);
    if p.None? || p.value == "/" || !(0 < limit <= MAX_SAFE_INTEGER) then None else Some((p.value, limit))
  }

  /** What it returns it accepts again, unchanged. */
  lemma AccessIsStable(prefix: string, limit: int)
    requires ValidatePairingAccess(prefix, limit).Some?
    ensures var access := ValidatePairingAccess(prefix, limit);
      ValidatePairingAccess(access.value.0, access.value.1) == access && StartsWith(access.value.0, "/")
  {
    NormalizeIsIdempotent(prefix);
  }

  // ----- The stored jobs -----

  datatype Config = Config(source: string, dest: string)

  /** No two jobs' destinations overlap. */
  ghost predicate Apart(disk: Disk, configs: map<nat, Config>) {
    forall a, b :: a in configs && b in configs && a != b ==> !LocalPathsOverlap(disk, configs[a].dest, configs[b].dest)
  }

  /** The paths are valid and the destination overlaps that of no job but `exclude`. */
  ghost predicate Admissible(disk: Disk, roots: seq<string>, configs: map<nat, Config>, config: Config,
                             exclude: Option<nat>) {
    && ValidateSsdBackupPaths(disk, roots, config.source, config.dest) == Ok
    && forall id :: id in configs && exclude != Some(id) ==> !LocalPathsOverlap(disk, config.dest, configs[id].dest)
  }

  // ----- Everything that changes the stored jobs -----

  datatype Edit = Created(id: nat, config: Config) | Updated(id: nat, config: Config) | Deleted(id: nat)

  ghost predicate Allowed(disk: Disk, roots: seq<string>, configs: map<nat, Config>, e: Edit) {
    match e
    case Created(id, config) => id !in configs && Admissible(disk, roots, configs, config, None)
    case Updated(id, config) => id in configs && Admissible(disk, roots, configs, config, Some(id))
    case Deleted(id) => id in configs
  }

  function Apply(configs: map<nat, Config>, e: Edit): map<nat, Config> {
    match e
    case Created(id, config) => configs[id := config]
    case Updated(id, config) => configs[id := config]
    case Deleted(id) => configs - {id}
  }

  ghost predicate IsHistory(disk: Disk, roots: seq<string>, stores: seq<map<nat, Config>>, edits: seq<Edit>) {
    && |stores| == |edits| + 1 && stores[0] == map[]
    && forall k {:trigger edits[k]} :: 0 <= k < |edits| ==>
         Allowed(disk, roots, stores[k], edits[k]) && stores[k + 1] == Apply(stores[k], edits[k])
  }

  ghost predicate AllValid(disk: Disk, roots: seq<string>, configs: map<nat, Config>) {
    forall id :: id in configs ==> ValidateSsdBackupPaths(disk, roots, configs[id].source, configs[id].dest) == Ok
  }

  lemma EditKeepsApart(disk: Disk, roots: seq<string>, configs: map<nat, Config>, e: Edit)
    requires Apart(disk, configs) && AllValid(disk, roots, configs) && Allowed(disk, roots, configs, e)
    ensures Apart(disk, Apply(configs, e)) && AllValid(disk, roots, Apply(configs, e))
  {
    if !e.Deleted? {
      AddingKeepsApart(disk, configs, e.id, e.config);
    }
  }

  lemma {:induction false} HistoryKeepsApart(
      disk: Disk, roots: seq<string>, stores: seq<map<nat, Config>>, edits: seq<Edit>, k: nat)
    requires IsHistory(disk, roots, stores, edits) && k <= |edits|
    ensures Apart(disk, stores[k]) && AllValid(disk, roots, stores[k])
  {
    if k > 0 {
      HistoryKeepsApart(disk, roots, stores, edits, k - 1);
      assert stores[k - 1 + 1] == Apply(stores[k - 1], edits[k - 1]);
      EditKeepsApart(disk, roots, stores[k - 1], edits[k - 1]);
    }
  }

  class ConfigStore {
    const disk: Disk
    const roots: seq<string>
    var configs: map<nat, Config>
    var nextId: nat

    constructor (disk: Disk, roots: seq<string>)
      ensures this.disk == disk && this.roots == roots && configs == map[] && Apart(disk, configs)
    {
      this.disk, this.roots, configs, nextId := disk, roots, map[], 0;
    }

    /** The destinations of the other jobs are tried one by one. */
    method ValidateConfigPaths(source: string, dest: string, exclude: Option<nat>) returns (v: Verdict)
      ensures v == Ok <==> Admissible(disk, roots, configs, Config(source, dest), exclude)
      ensures v.OverlapsAnother? ==>
        v.id in configs && exclude != Some(v.id) && LocalPathsOverlap(disk, dest, configs[v.id].dest)
      ensures v != Ok && !v.OverlapsAnother? ==> v == ValidateSsdBackupPaths(disk, roots, source, dest)
    {
      v := ValidateSsdBackupPaths(disk, roots, source, dest);
      if v != Ok { return; }
      var others := configs.Keys;
      while others != {}
        invariant others <= configs.Keys
        invariant forall id :: id in configs && id !in others ==>
          exclude == Some(id) || !LocalPathsOverlap(disk, dest, configs[id].dest)
        decreases |others|
      {
        var id :| id in others;
        others := others - {id};
        if exclude != Some(id) {
          var a := CanonicalizeLocalPath(disk, dest);
          var b := CanonicalizeLocalPath(disk, configs[id].dest);
          if a.Some? && b.Some? && PathsOverlap(a.value, b.value) { return OverlapsAnother(id); }
        }
      }
    }

    method Create(source: string, dest: string) returns (v: Verdict, id: nat)
      requires Apart(disk, configs) && forall i :: i in configs ==> i < nextId
      modifies this
      ensures Apart(disk, configs) && forall i :: i in configs ==> i < nextId
      ensures v == Ok <==> Admissible(disk, roots, old(configs), Config(source, dest), None)
      ensures v == Ok ==>
        && Allowed(disk, roots, old(configs), Created(id, Config(source, dest)))
        && configs == Apply(old(configs), Created(id, Config(source, dest)))
      ensures v != Ok ==> configs == old(configs)
    {
      id := nextId;
      v := ValidateConfigPaths(source, dest, None);
      if v == Ok {
        AddingKeepsApart(disk, configs, id, Config(source, dest));
        configs, nextId := configs[id := Config(source, dest)], nextId + 1;
      }
    }

    /** The job as an update would leave it: what is not given stays as it was. */
    function Revised(id: nat, source: Option<string>, dest: Option<string>): Config
      requires id in configs
      reads this
    {
      Config(if source.Some? then source.value else configs[id].source,
             if dest.Some? then dest.value else configs[id].dest)
    }

    /** `found` is false where there is no such job. */
    method Update(id: nat, source: Option<string>, dest: Option<string>) returns (found: bool, v: Verdict)
      requires Apart(disk, configs)
      modifies this`configs
      ensures Apart(disk, configs) && found == (id in old(configs))
      ensures found ==> (v == Ok <==> Admissible(disk, roots, old(configs), old(Revised(id, source, dest)), Some(id)))
      ensures found && v == Ok ==>
        && Allowed(disk, roots, old(configs), Updated(id, old(Revised(id, source, dest))))
        && configs == Apply(old(configs), Updated(id, old(Revised(id, source, dest))))
      ensures !(found && v == Ok) ==> configs == old(configs)
    {
      if id !in configs { return false, BadSource; }
      found := true;
      var revised := Revised(id, source, dest);
      v := ValidateConfigPaths(revised.source, revised.dest, Some(id));
      if v == Ok {
        AddingKeepsApart(disk, configs, id, revised);
        configs := configs[id := revised];
      }
    }

    method Delete(id: nat) returns (found: bool)
      requires Apart(disk, configs)
      modifies this`configs
      ensures Apart(disk, configs) && found == (id in old(configs)) && configs == Apply(old(configs), Deleted(id))
    {
      found := id in configs;
      configs := configs - {id};
    }

    /** The checks before a run: for stored jobs they only repeat the check of the job itself. */
    method MayRun(id: nat) returns (ok: bool)
      requires id in configs
      ensures ok ==> ValidateSsdBackupPaths(disk, roots, configs[id].source, configs[id].dest) == Ok
      ensures ok ==> forall other, x :: other in configs && other != id && Reaches(disk, configs[id].dest, x)
                                        ==> !Reaches(disk, configs[other].dest, x)
      ensures Apart(disk, configs) ==>
        ok == (ValidateSsdBackupPaths(disk, roots, configs[id].source, configs[id].dest) == Ok)
    {
      var v := ValidateConfigPaths(configs[id].source, configs[id].dest, Some(id));
      ok := v == Ok;
      forall other, x | ok && other in configs && other != id && Reaches(disk, configs[id].dest, x)
        ensures !Reaches(disk, configs[other].dest, x)
      {
        OverlapMeansShared(disk, configs[id].dest, configs[other].dest);
      }
    }
  }

  lemma OverlapIsSymmetric(disk: Disk, a: string, b: string)
    ensures LocalPathsOverlap(disk, a, b) <==> LocalPathsOverlap(disk, b, a)
  {
  }

  lemma AddingKeepsApart(disk: Disk, configs: map<nat, Config>, id: nat, config: Config)
    requires Apart(disk, configs)
    requires forall other :: other in configs && other != id ==>
      !LocalPathsOverlap(disk, config.dest, configs[other].dest)
    ensures Apart(disk, configs[id := config])
  {
    forall other | other in configs && other != id ensures !LocalPathsOverlap(disk, configs[other].dest, config.dest) {
      OverlapIsSymmetric(disk, configs[other].dest, config.dest);
    }
  }

  /** In every store that any sequence of edits leads to, each path belongs to at most one
      destination and to none whose job reads it: a run that deletes touches nothing of another
      job's and nothing of its own source. */
  lemma EachPathHasOneOwner(disk: Disk, roots: seq<string>, stores: seq<map<nat, Config>>, edits: seq<Edit>,
                            k: nat, a: nat, b: nat, x: seq<string>)
    requires IsHistory(disk, roots, stores, edits) && k <= |edits|
    requires a in stores[k] && b in stores[k] && Reaches(disk, stores[k][a].dest, x)
    ensures Reaches(disk, stores[k][b].dest, x) ==> a == b
    ensures !Reaches(disk, stores[k][a].source, x)
  {
    HistoryKeepsApart(disk, roots, stores, edits, k);
    OverlapMeansShared(disk, stores[k][a].dest, stores[k][b].dest);
    ValidatedPathsAreApart(disk, roots, stores[k][a].source, stores[k][a].dest);
  }
}
