/** Grouping the failures of a run by cause, and telling whether a run failed as the last one did. */
module RcloneDiagnostics {
  import opened Wrappers
  import opened Text
  import Handshake

  // ----- Causes -----

  /** The causes in the order they are tried, with what gives each away, in lower case. */
  const CLASSES: seq<(string, seq<string>)> := [
    ("name-too-long", ["file name too long", "enametoolong"]),
    ("locked-or-missing-item", ["invalidresourceid", "objecthandle is invalid", "itemnotfound"]),
    ("permission-denied", ["permission denied", "eacces", "access is denied"]),
    ("no-space", ["no space left", "enospc", "quota exceeded"]),
    ("transfer-too-slow", ["chunks may be taking too long", "deadline exceeded", "context deadline"]),
    ("blocked-by-earlier-errors",
      ["not deleting files as there were io errors", "not deleting directories as there were io errors"])]

  const UNRECOGNISED := "unrecognised"

  predicate Matches(patterns: seq<string>, error: string) {
    exists i :: 0 <= i < |patterns| && Contains(error, patterns[i])
  }

  function FirstMatch(classes: seq<(string, seq<string>)>, error: string): string {
    if classes == [] then UNRECOGNISED
    else if Matches(classes[0].1, error) then classes[0].0
    else FirstMatch(classes[1..], error)
  }

  function Classify(error: Option<string>): string {
    if error.None? || Trim(error.value) == "" then UNRECOGNISED else FirstMatch(CLASSES, Lower(error.value))
  }

  /** A code can stand in a fingerprint without being mistaken for anything else. */
  predicate PlainCode(code: string) { ':' !in code && '|' !in code }

  lemma {:induction false} FirstMatchIsPlain(classes: seq<(string, seq<string>)>, error: string)
    requires forall i :: 0 <= i < |classes| ==> PlainCode(classes[i].0)
    ensures PlainCode(FirstMatch(classes, error))
  {
    if classes != [] {
      FirstMatchIsPlain(classes[1..], error);
    }
  }

  lemma ClassesArePlain()
    ensures forall i :: 0 <= i < |CLASSES| ==> PlainCode(CLASSES[i].0)
  {
  }

  lemma CodesArePlain(error: Option<string>)
    ensures PlainCode(Classify(error))
  {
    if error.Some? {
      var classes := CLASSES;
      ClassesArePlain();
      FirstMatchIsPlain(classes, Lower(error.value));
    }
  }

  // ----- Counting -----

  /** A row's count as it arrives: not there or not a number, null, or a number. */
  datatype Count = Missing | Null | Given(n: int)

  datatype Failure = Failure(path: Option<string>, error: Option<string>, count: Count)

  /** Number(null) is 0, and what is not a finite number counts once. */
  function Weight(f: Failure): int {
    match f.count
    case Missing => 1
    case Null => 0
    case Given(n) => n
  }

  /** A failure with its cause found and its weight read. */
  datatype Item = Item(code: string, weight: int, path: Option<string>)

  function ItemOf(f: Failure): Item { Item(Classify(f.error), Weight(f), f.path) }

  function Items(failures: seq<Failure>): (items: seq<Item>)
    ensures |items| == |failures| && forall i :: 0 <= i < |failures| ==> items[i] == ItemOf(failures[i])
  {
    seq(|failures|, i requires 0 <= i < |failures| => ItemOf(failures[i]))
  }

  function Total(fs: seq<Item>): int {
    if fs == [] then 0 else Total(fs[..|fs| - 1]) + fs[|fs| - 1].weight
  }

  function CountOf(fs: seq<Item>, code: string): int {
    if fs == [] then 0
    else CountOf(fs[..|fs| - 1], code) + if fs[|fs| - 1].code == code then fs[|fs| - 1].weight else 0
  }

  predicate Occurs(fs: seq<Item>, code: string) {
    exists i :: 0 <= i < |fs| && fs[i].code == code
  }

  function HasPath(f: Item): bool { f.path.Some? && f.path.value != "" }

  /** The first three paths that failed with a code. */
  function Examples(fs: seq<Item>, code: string): (paths: seq<string>)
    ensures |paths| <= 3
  {
    if fs == [] then []
    else
      var before, f := Examples(fs[..|fs| - 1], code), fs[|fs| - 1];
      if f.code == code && |before| < 3 && HasPath(f) then before + [f.path.value] else before
  }

  datatype Group = Group(code: string, count: int, examples: seq<string>)
  datatype Summary = Summary(total: int, groups: seq<Group>)

  predicate DistinctCodes(groups: seq<Group>) {
    forall i, j :: 0 <= i < j < |groups| ==> groups[i].code != groups[j].code
  }

  predicate HasGroup(groups: seq<Group>, code: string) {
    exists i :: 0 <= i < |groups| && groups[i].code == code
  }

  /** One group for each code that occurs, with what the failures of that code add up to. */
  ghost predicate Groups(groups: seq<Group>, fs: seq<Item>) {
    && DistinctCodes(groups)
    && (forall g :: g in groups ==> Occurs(fs, g.code) && g == Group(g.code, CountOf(fs, g.code), Examples(fs, g.code)))
    && (forall i :: 0 <= i < |fs| ==> HasGroup(groups, fs[i].code))
  }

  ghost predicate IsSummary(s: Summary, fs: seq<Item>) {
    s.total == Total(fs) && Groups(s.groups, fs)
  }

  predicate LargestFirst(groups: seq<Group>) {
    forall i, j :: 0 <= i < j < |groups| ==> groups[i].count >= groups[j].count
  }

  lemma CodeThatNeverOccurs(fs: seq<Item>, code: string)
    requires !Occurs(fs, code)
    ensures CountOf(fs, code) == 0 && Examples(fs, code) == []
    decreases |fs|
  {
    if fs != [] {
      assert fs[|fs| - 1].code != code;
      assert forall i :: 0 <= i < |fs| - 1 ==> fs[..|fs| - 1][i] == fs[i];
      CodeThatNeverOccurs(fs[..|fs| - 1], code);
    }
  }

  lemma OneMore(fs: seq<Item>, f: Item, code: string)
    ensures CountOf(fs + [f], code) == CountOf(fs, code) + if f.code == code then f.weight else 0
    ensures Examples(fs + [f], code) ==
              if f.code == code && |Examples(fs, code)| < 3 && HasPath(f) then Examples(fs, code) + [f.path.value]
              else Examples(fs, code)
    ensures Occurs(fs + [f], code) <==> Occurs(fs, code) || f.code == code
  {
    assert (fs + [f])[..|fs|] == fs;
    if Occurs(fs, code) {
      var i :| 0 <= i < |fs| && fs[i].code == code;
      assert (fs + [f])[i].code == code;
    }
    if f.code == code {
      assert (fs + [f])[|fs|].code == code;
    }
  }

  /** The group of a code with one more failure. */
  function Grown(g: Group, f: Item): Group {
    Group(g.code, g.count + f.weight,
          if |g.examples| < 3 && HasPath(f) then g.examples + [f.path.value] else g.examples)
  }

  lemma GrowingKeepsGroups(groups: seq<Group>, fs: seq<Item>, f: Item, k: nat)
    requires Groups(groups, fs) && k < |groups| && groups[k].code == f.code
    ensures Groups(groups[k := Grown(groups[k], f)], fs + [f])
  {
    var grown := groups[k := Grown(groups[k], f)];
    forall i | 0 <= i < |grown|
      ensures Occurs(fs + [f], grown[i].code)
      ensures grown[i] == Group(grown[i].code, CountOf(fs + [f], grown[i].code), Examples(fs + [f], grown[i].code))
    {
      assert groups[i] in groups;
      OneMore(fs, f, groups[i].code);
    }
    forall i | 0 <= i < |fs + [f]| ensures HasGroup(grown, (fs + [f])[i].code) {
      if i < |fs| {
        var j :| 0 <= j < |groups| && groups[j].code == fs[i].code;
        assert grown[j].code == fs[i].code;
      } else {
        assert grown[k].code == f.code;
      }
    }
  }

  lemma GroupsCoverCodes(groups: seq<Group>, fs: seq<Item>, code: string)
    requires Groups(groups, fs)
    ensures Occurs(fs, code) <==> HasGroup(groups, code)
  {
    if i :| 0 <= i < |groups| && groups[i].code == code {
      assert groups[i] in groups;
    }
  }

  lemma AddingKeepsGroups(groups: seq<Group>, fs: seq<Item>, f: Item)
    requires Groups(groups, fs) && !HasGroup(groups, f.code)
    ensures Groups(groups + [Grown(Group(f.code, 0, []), f)], fs + [f])
  {
    GroupsCoverCodes(groups, fs, f.code);
    CodeThatNeverOccurs(fs, f.code);
    var all := groups + [Grown(Group(f.code, 0, []), f)];
    OneMore(fs, f, f.code);
    forall i | 0 <= i < |all|
      ensures Occurs(fs + [f], all[i].code)
      ensures all[i] == Group(all[i].code, CountOf(fs + [f], all[i].code), Examples(fs + [f], all[i].code))
    {
      if i < |groups| {
        assert groups[i] in groups && groups[i].code != f.code;
        OneMore(fs, f, groups[i].code);
      }
    }
    forall i | 0 <= i < |fs + [f]| ensures HasGroup(all, (fs + [f])[i].code) {
      if i < |fs| {
        var j :| 0 <= j < |groups| && groups[j].code == fs[i].code;
        assert all[j].code == fs[i].code;
      } else {
        assert all[|groups|].code == f.code;
      }
    }
  }

  method AddFailure(groups: seq<Group>, ghost fs: seq<Item>, f: Item) returns (grown: seq<Group>)
    requires Groups(groups, fs)
    ensures Groups(grown, fs + [f])
  {
    for k := 0 to |groups|
      invariant forall j :: 0 <= j < k ==> groups[j].code != f.code
    {
      if groups[k].code == f.code {
        GrowingKeepsGroups(groups, fs, f, k);
        return groups[k := Grown(groups[k], f)];
      }
    }
    AddingKeepsGroups(groups, fs, f);
    return groups + [Grown(Group(f.code, 0, []), f)];
  }

  // ----- Largest first -----

  /** Equal counts keep their order. */
  function InsertByCount(sorted: seq<Group>, g: Group): seq<Group> {
    if sorted == [] || sorted[|sorted| - 1].count >= g.count then sorted + [g]
    else InsertByCount(sorted[..|sorted| - 1], g) + [sorted[|sorted| - 1]]
  }

  function SortByCount(groups: seq<Group>): seq<Group> {
    if groups == [] then [] else InsertByCount(SortByCount(groups[..|groups| - 1]), groups[|groups| - 1])
  }

  ghost predicate SameMembers(a: seq<Group>, b: seq<Group>) { forall g :: g in a <==> g in b }

  lemma AppendingSorts(all: seq<Group>, last: Group)
    requires LargestFirst(all) && DistinctCodes(all)
    requires forall g :: g in all ==> g.code != last.code && g.count >= last.count
    ensures LargestFirst(all + [last]) && DistinctCodes(all + [last])
  {
    forall i | 0 <= i < |all| ensures all[i].code != last.code && all[i].count >= last.count {
      assert all[i] in all;
    }
  }

  lemma {:induction false} InsertingSorts(sorted: seq<Group>, g: Group)
    requires LargestFirst(sorted) && DistinctCodes(sorted) && !HasGroup(sorted, g.code)
    ensures var all := InsertByCount(sorted, g);
      LargestFirst(all) && DistinctCodes(all) && SameMembers(all, sorted + [g])
  {
    if sorted == [] || sorted[|sorted| - 1].count >= g.count {
      forall h | h in sorted ensures h.code != g.code && h.count >= g.count {
        var j :| 0 <= j < |sorted| && sorted[j] == h;
      }
      AppendingSorts(sorted, g);
    } else {
      var n := |sorted| - 1;
      var all, last := InsertByCount(sorted[..n], g), sorted[n];
      assert sorted == sorted[..n] + [last] && forall i :: 0 <= i < n ==> sorted[..n][i] == sorted[i];
      InsertingSorts(sorted[..n], g);
      forall h | h in all ensures h.code != last.code && h.count >= last.count {
        assert h in sorted[..n] + [g];
        if h != g {
          var j :| 0 <= j < n && sorted[..n][j] == h;
          assert sorted[j] == h;
        }
      }
      AppendingSorts(all, last);
    }
  }

  lemma SameMembersSameCodes(a: seq<Group>, b: seq<Group>, code: string)
    requires SameMembers(a, b)
    ensures HasGroup(a, code) ==> HasGroup(b, code)
  {
    if i :| 0 <= i < |a| && a[i].code == code {
      assert a[i] in b;
      var j :| 0 <= j < |b| && b[j] == a[i];
      assert b[j].code == code;
    }
  }

  lemma {:induction false} SortingSorts(groups: seq<Group>)
    requires DistinctCodes(groups)
    ensures LargestFirst(SortByCount(groups)) && DistinctCodes(SortByCount(groups))
    ensures SameMembers(SortByCount(groups), groups)
  {
    if groups != [] {
      var n := |groups| - 1;
      var before := SortByCount(groups[..n]);
      SortingSorts(groups[..n]);
      assert groups == groups[..n] + [groups[n]];
      SameMembersSameCodes(before, groups[..n], groups[n].code);
      InsertingSorts(before, groups[n]);
    }
  }

  lemma SortingKeepsGroups(groups: seq<Group>, fs: seq<Item>)
    requires Groups(groups, fs)
    ensures Groups(SortByCount(groups), fs) && LargestFirst(SortByCount(groups))
  {
    SortingSorts(groups);
    forall i | 0 <= i < |fs| ensures HasGroup(SortByCount(groups), fs[i].code) {
      var j :| 0 <= j < |groups| && groups[j].code == fs[i].code;
      assert groups[j] in groups && groups[j] in SortByCount(groups);
    }
  }

  method SummariseRcloneFailures(failures: seq<Failure>) returns (s: Summary)
    ensures IsSummary(s, Items(failures)) && LargestFirst(s.groups)
  {
    ghost var items := Items(failures);
    var groups, total := [], 0;
    for i := 0 to |failures|
      invariant total == Total(items[..i]) && Groups(groups, items[..i])
    {
      assert items[..i + 1] == items[..i] + [items[i]] && items[..i + 1][..i] == items[..i];
      var item := ItemOf(failures[i]);
      total := total + item.weight;
      groups := AddFailure(groups, items[..i], item);
    }
    assert items[..|failures|] == items;
    SortingKeepsGroups(groups, items);
    s := Summary(total, SortByCount(groups));
  }

  // ----- Fingerprints -----

  function Show(n: int): string { if n < 0 then "-" + Handshake.Decimal(-n) else Handshake.Decimal(n) }

  function Label(g: Group): string { g.code + ":" + Show(g.count) }

  /** The default order of strings. */
  predicate Below(a: string, b: string) {
    a == "" || (b != "" && (a[0] < b[0] || (a[0] == b[0] && Below(a[1..], b[1..]))))
  }

  function Insert(sorted: seq<string>, s: string): seq<string> {
    if sorted == [] || Below(s, sorted[0]) then [s] + sorted else [sorted[0]] + Insert(sorted[1..], s)
  }

  function Sort(labels: seq<string>): seq<string> {
    if labels == [] then [] else Insert(Sort(labels[1..]), labels[0])
  }

  function Labels(groups: seq<Group>): (labels: seq<string>)
    ensures |labels| == |groups| && forall i :: 0 <= i < |groups| ==> labels[i] == Label(groups[i])
  {
    seq(|groups|, i requires 0 <= i < |groups| => Label(groups[i]))
  }

  function Fingerprint(s: Summary): string {
    if s.groups == [] then "clean" else Join(Sort(Labels(s.groups)), '|')
  }

  // ----- Comparing -----

  function Counts(groups: seq<Group>): map<string, int> {
    if groups == [] then map[]
    else Counts(groups[..|groups| - 1])[groups[|groups| - 1].code := groups[|groups| - 1].count]
  }

  /** `same` is the source's `unchanged`; a changed code comes with its counts before and now. */
  datatype Comparison = Comparison(
    firstSeen: bool, same: bool, newCodes: set<string>, resolvedCodes: set<string>,
    changedCodes: map<string, (int, int)>)

  function Compare(current: Summary, previous: Option<Summary>): Comparison {
    if previous.None? then Comparison(true, false, {}, {}, map[])
    else
      var now, was := Counts(current.groups), Counts(previous.value.groups);
      var newCodes, resolvedCodes := now.Keys - was.Keys, was.Keys - now.Keys;
      var changedCodes := map code | code in now && code in was && was[code] != now[code] :: (was[code], now[code]);
      Comparison(false, newCodes == {} && resolvedCodes == {} && changedCodes == map[],
                 newCodes, resolvedCodes, changedCodes)
  }

  lemma {:induction false} CountsOfGroups(groups: seq<Group>, code: string)
    requires DistinctCodes(groups)
    ensures code in Counts(groups) <==> HasGroup(groups, code)
    ensures forall i :: 0 <= i < |groups| ==>
      groups[i].code in Counts(groups) && Counts(groups)[groups[i].code] == groups[i].count
  {
    if groups != [] {
      var n := |groups| - 1;
      CountsOfGroups(groups[..n], code);
      if HasGroup(groups, code) {
        var i :| 0 <= i < |groups| && groups[i].code == code;
        assert i < n ==> groups[..n][i].code == code;
      }
      forall i | 0 <= i < n
        ensures groups[i].code in Counts(groups) && Counts(groups)[groups[i].code] == groups[i].count
      {
        assert groups[..n][i] == groups[i];
      }
      if i :| 0 <= i < n && groups[..n][i].code == code {
        assert groups[i].code == code;
      }
    }
  }

  lemma ComparesCounts(current: Summary, previous: Summary)
    ensures Compare(current, Some(previous)).same <==> Counts(current.groups) == Counts(previous.groups)
  {
    var now, was := Counts(current.groups), Counts(previous.groups);
    var c := Compare(current, Some(previous));
    if c.same {
      forall code ensures code in now <==> code in was {
        assert code !in c.newCodes && code !in c.resolvedCodes;
      }
      forall code | code in now ensures now[code] == was[code] {
        assert code !in c.changedCodes;
      }
    }
  }

  // ----- Sorting gives one form -----

  lemma {:induction false} BelowIsTotal(a: string, b: string)
    ensures Below(a, b) || Below(b, a)
    ensures Below(a, b) && Below(b, a) ==> a == b
  {
    if a != "" && b != "" && a[0] == b[0] {
      BelowIsTotal(a[1..], b[1..]);
      assert a == [a[0]] + a[1..] && b == [b[0]] + b[1..];
    }
  }

  lemma {:induction false} BelowIsTransitive(a: string, b: string, c: string)
    requires Below(a, b) && Below(b, c)
    ensures Below(a, c)
  {
    if a != "" && a[0] == b[0] && b[0] == c[0] {
      BelowIsTransitive(a[1..], b[1..], c[1..]);
    }
  }

  predicate Ordered(labels: seq<string>) {
    forall i, j :: 0 <= i < j < |labels| ==> Below(labels[i], labels[j])
  }

  lemma {:induction false} InsertOrders(sorted: seq<string>, s: string)
    requires Ordered(sorted)
    ensures Ordered(Insert(sorted, s)) && multiset(Insert(sorted, s)) == multiset(sorted) + multiset{s}
  {
    if sorted == [] {
    } else if Below(s, sorted[0]) {
      forall j | 0 <= j < |sorted| ensures Below(s, sorted[j]) {
        if j > 0 { BelowIsTransitive(s, sorted[0], sorted[j]); }
      }
    } else {
      var rest := Insert(sorted[1..], s);
      assert sorted == [sorted[0]] + sorted[1..];
      InsertOrders(sorted[1..], s);
      BelowIsTotal(s, sorted[0]);
      forall j | 0 <= j < |rest| ensures Below(sorted[0], rest[j]) {
        assert rest[j] in multiset(rest);
        assert rest[j] in multiset(sorted[1..]) + multiset{s};
        if rest[j] != s {
          assert rest[j] in sorted[1..];
          var k :| 0 <= k < |sorted[1..]| && sorted[1..][k] == rest[j];
          assert sorted[k + 1] == rest[j];
        }
      }
    }
  }

  lemma {:induction false} SortOrders(labels: seq<string>)
    ensures Ordered(Sort(labels)) && multiset(Sort(labels)) == multiset(labels)
  {
    if labels != [] {
      SortOrders(labels[1..]);
      InsertOrders(Sort(labels[1..]), labels[0]);
      assert labels == [labels[0]] + labels[1..];
    }
  }

  lemma HeadIsLeast(a: seq<string>, s: string)
    requires Ordered(a) && s in multiset(a)
    ensures a != [] && Below(a[0], s)
  {
    var i :| 0 <= i < |a| && a[i] == s;
    if i == 0 { BelowIsTotal(s, s); }
  }

  lemma HeadsAgree(a: seq<string>, b: seq<string>)
    requires Ordered(a) && Ordered(b) && multiset(a) == multiset(b) && a != []
    ensures b != [] && a[0] == b[0]
  {
    assert a[0] in multiset(b);
    HeadIsLeast(b, a[0]);
    assert b[0] in multiset(a);
    HeadIsLeast(a, b[0]);
    BelowIsTotal(a[0], b[0]);
  }

  lemma TailOfMultiset(a: seq<string>)
    requires a != []
    ensures multiset(a[1..]) == multiset(a) - multiset{a[0]}
  {
    assert a == [a[0]] + a[1..];
  }

  lemma {:induction false} OrderedIsUnique(a: seq<string>, b: seq<string>)
    requires Ordered(a) && Ordered(b) && multiset(a) == multiset(b)
    ensures a == b
    decreases |a|
  {
    if a != [] {
      HeadsAgree(a, b);
      TailOfMultiset(a);
      TailOfMultiset(b);
      OrderedIsUnique(a[1..], b[1..]);
      assert a == [a[0]] + a[1..] && b == [b[0]] + b[1..];
    } else {
      assert |multiset(b)| == 0;
    }
  }

  // ----- Labels say everything -----

  lemma {:induction false} DecimalIsDigits(n: nat)
    ensures forall i :: 0 <= i < |Handshake.Decimal(n)| ==> '0' <= Handshake.Decimal(n)[i] <= '9'
  {
    if n >= 10 { DecimalIsDigits(n / 10); }
  }

  lemma DecimalIsInjective(m: nat, n: nat)
    requires Handshake.Decimal(m) == Handshake.Decimal(n)
    ensures m == n
  {
    Handshake.DecimalReads(m, "");
    Handshake.DecimalReads(n, "");
  }

  lemma ShowIsInjective(m: int, n: int)
    ensures Show(m) == Show(n) ==> m == n
    ensures ':' !in Show(n) && '|' !in Show(n)
  {
    DecimalIsDigits(if m < 0 then -m else m);
    DecimalIsDigits(if n < 0 then -n else n);
    Handshake.DecimalReads(if m < 0 then -m else m, "");
    Handshake.DecimalReads(if n < 0 then -n else n, "");
    if Show(m) == Show(n) {
      if m < 0 {
        assert Show(m)[1..] == Handshake.Decimal(-m) && Show(n)[1..] == Handshake.Decimal(-n);
        DecimalIsInjective(-m, -n);
      } else {
        DecimalIsInjective(m, n);
      }
    }
  }

  lemma LabelIsInjective(g: Group, h: Group)
    requires PlainCode(g.code) && PlainCode(h.code)
    ensures Label(g) == Label(h) <==> g.code == h.code && g.count == h.count
    ensures '|' !in Label(g) && ':' in Label(g)
  {
    ShowIsInjective(g.count, h.count);
    ShowIsInjective(h.count, g.count);
    SplitHead(g.code, ':', Show(g.count));
    SplitHead(h.code, ':', Show(h.count));
    SplitWithout(Show(g.count), ':');
    SplitWithout(Show(h.count), ':');
    assert Label(g) == g.code + [':'] + Show(g.count) && Label(h) == h.code + [':'] + Show(h.count);
    assert Label(g)[|g.code|] == ':';
    if Label(g) == Label(h) {
      assert [g.code] + [Show(g.count)] == [h.code] + [Show(h.count)];
      assert ([g.code] + [Show(g.count)])[0] == g.code && ([g.code] + [Show(g.count)])[1] == Show(g.count);
      assert ([h.code] + [Show(h.count)])[0] == h.code && ([h.code] + [Show(h.count)])[1] == Show(h.count);
    }
  }

  lemma JoinIsInjective(a: seq<string>, b: seq<string>, c: char)
    requires a != [] && b != [] && Join(a, c) == Join(b, c)
    requires (forall i :: 0 <= i < |a| ==> c !in a[i]) && (forall i :: 0 <= i < |b| ==> c !in b[i])
    ensures a == b
  {
    JoinedSplits(a, c);
    JoinedSplits(b, c);
  }

  lemma {:induction false} JoinedSplits(a: seq<string>, c: char)
    requires a != [] && forall i :: 0 <= i < |a| ==> c !in a[i]
    ensures Split(Join(a, c), c) == a
  {
    if |a| == 1 {
      SplitWithout(a[0], c);
    } else {
      JoinedSplits(a[1..], c);
      SplitHead(a[0], c, Join(a[1..], c));
      assert a == [a[0]] + a[1..];
    }
  }

  predicate AllPlain(groups: seq<Group>) { forall i :: 0 <= i < |groups| ==> PlainCode(groups[i].code) }

  predicate NoRepeats(labels: seq<string>) { forall i, j :: 0 <= i < j < |labels| ==> labels[i] != labels[j] }

  lemma {:induction false} NoRepeatsOnce(labels: seq<string>, l: string)
    requires NoRepeats(labels)
    ensures multiset(labels)[l] == if l in labels then 1 else 0
  {
    if labels != [] {
      NoRepeatsOnce(labels[1..], l);
      assert labels == [labels[0]] + labels[1..];
    }
  }

  lemma LabelsDoNotRepeat(groups: seq<Group>)
    requires DistinctCodes(groups) && AllPlain(groups)
    ensures NoRepeats(Labels(groups))
  {
    forall i, j | 0 <= i < j < |groups| ensures Labels(groups)[i] != Labels(groups)[j] {
      LabelIsInjective(groups[i], groups[j]);
    }
  }

  /** A label is there just when its group's code has its count. */
  lemma LabelMeansCount(groups: seq<Group>, g: Group)
    requires DistinctCodes(groups) && AllPlain(groups) && PlainCode(g.code)
    ensures Label(g) in Labels(groups) <==> g.code in Counts(groups) && Counts(groups)[g.code] == g.count
  {
    CountsOfGroups(groups, g.code);
    if i :| 0 <= i < |groups| && Labels(groups)[i] == Label(g) {
      LabelIsInjective(groups[i], g);
    }
    if g.code in Counts(groups) && Counts(groups)[g.code] == g.count {
      var i :| 0 <= i < |groups| && groups[i].code == g.code;
      LabelIsInjective(groups[i], g);
      assert Labels(groups)[i] == Label(g);
    }
  }

  lemma SameCountsSameLabels(a: seq<Group>, b: seq<Group>)
    requires DistinctCodes(a) && AllPlain(a) && DistinctCodes(b) && AllPlain(b)
    ensures Counts(a) == Counts(b) <==> multiset(Labels(a)) == multiset(Labels(b))
  {
    LabelsDoNotRepeat(a);
    LabelsDoNotRepeat(b);
    if Counts(a) == Counts(b) {
      forall l ensures multiset(Labels(a))[l] == multiset(Labels(b))[l] {
        NoRepeatsOnce(Labels(a), l);
        NoRepeatsOnce(Labels(b), l);
        SameCountsIncludes(a, b, l);
        SameCountsIncludes(b, a, l);
      }
    }
    if multiset(Labels(a)) == multiset(Labels(b)) {
      forall code
        ensures code in Counts(a) <==> code in Counts(b)
        ensures code in Counts(a) ==> Counts(a)[code] == Counts(b)[code]
      {
        SameLabelsInclude(a, b, code);
        SameLabelsInclude(b, a, code);
      }
    }
  }

  lemma SameCountsIncludes(a: seq<Group>, b: seq<Group>, l: string)
    requires DistinctCodes(a) && AllPlain(a) && DistinctCodes(b) && AllPlain(b) && Counts(a) == Counts(b)
    ensures l in Labels(a) ==> l in Labels(b)
  {
    if i :| 0 <= i < |a| && Labels(a)[i] == l {
      LabelMeansCount(a, a[i]);
      LabelMeansCount(b, a[i]);
    }
  }

  lemma SameLabelsInclude(a: seq<Group>, b: seq<Group>, code: string)
    requires DistinctCodes(a) && AllPlain(a) && DistinctCodes(b) && AllPlain(b)
    requires multiset(Labels(a)) == multiset(Labels(b))
    ensures code in Counts(a) ==> code in Counts(b) && Counts(b)[code] == Counts(a)[code]
  {
    if code in Counts(a) {
      CountsOfGroups(a, code);
      var i :| 0 <= i < |a| && a[i].code == code;
      LabelMeansCount(a, a[i]);
      LabelMeansCount(b, a[i]);
      assert Label(a[i]) in multiset(Labels(b));
    }
  }

  lemma SortedLabels(groups: seq<Group>)
    requires AllPlain(groups)
    ensures var sorted := Sort(Labels(groups));
      |sorted| == |groups| && (forall i :: 0 <= i < |sorted| ==> '|' !in sorted[i])
      && (groups != [] ==> ':' in Join(sorted, '|'))
  {
    var sorted := Sort(Labels(groups));
    SortOrders(Labels(groups));
    assert |multiset(sorted)| == |sorted| && |multiset(Labels(groups))| == |groups|;
    forall i | 0 <= i < |sorted| ensures '|' !in sorted[i] && ':' in sorted[i] {
      assert sorted[i] in multiset(Labels(groups));
      var j :| 0 <= j < |groups| && Labels(groups)[j] == sorted[i];
      LabelIsInjective(groups[j], groups[j]);
    }
  }

  lemma SortsAgree(a: seq<string>, b: seq<string>)
    ensures Sort(a) == Sort(b) <==> multiset(a) == multiset(b)
  {
    SortOrders(a);
    SortOrders(b);
    if multiset(a) == multiset(b) {
      OrderedIsUnique(Sort(a), Sort(b));
    }
  }

  lemma FingerprintsSort(s: Summary, t: Summary)
    requires AllPlain(s.groups) && AllPlain(t.groups)
    ensures Fingerprint(s) == Fingerprint(t) <==> Sort(Labels(s.groups)) == Sort(Labels(t.groups))
  {
    var a, b := Sort(Labels(s.groups)), Sort(Labels(t.groups));
    SortedLabels(s.groups);
    SortedLabels(t.groups);
    assert ':' !in "clean";
    if s.groups != [] && t.groups != [] {
      if Join(a, '|') == Join(b, '|') { JoinIsInjective(a, b, '|'); }
    } else {
      assert a == b <==> |a| == |b| by { if |a| == |b| { assert a == [] && b == []; } }
    }
  }

  /** Two fingerprints are the same just when the two runs failed in the same ways in the same
      amounts, and so just when the comparison reports no change. */
  lemma FingerprintsCompare(current: Summary, previous: Summary)
    requires DistinctCodes(current.groups) && AllPlain(current.groups)
    requires DistinctCodes(previous.groups) && AllPlain(previous.groups)
    ensures Fingerprint(current) == Fingerprint(previous) <==> Counts(current.groups) == Counts(previous.groups)
    ensures Compare(current, Some(previous)).same <==> Fingerprint(current) == Fingerprint(previous)
  {
    ComparesCounts(current, previous);
    SameCountsSameLabels(current.groups, previous.groups);
    FingerprintsSort(current, previous);
    SortsAgree(Labels(current.groups), Labels(previous.groups));
  }

  // ----- Pre-aggregated rows -----

  function Copies(f: Item, n: nat): seq<Item> {
    if n == 0 then [] else Copies(f, n - 1) + [Item(f.code, 1, f.path)]
  }

  /** One entry for each file that the rows stand for. */
  function Expanded(rows: seq<Item>): seq<Item>
    requires forall i :: 0 <= i < |rows| ==> rows[i].weight >= 0
  {
    if rows == [] then [] else Expanded(rows[..|rows| - 1]) + Copies(rows[|rows| - 1], rows[|rows| - 1].weight)
  }

  lemma {:induction false} CountsOfSum(a: seq<Item>, b: seq<Item>, code: string)
    ensures Total(a + b) == Total(a) + Total(b) && CountOf(a + b, code) == CountOf(a, code) + CountOf(b, code)
    decreases |b|
  {
    if b == [] {
      assert a + b == a;
    } else {
      assert (a + b)[..|a + b| - 1] == a + b[..|b| - 1];
      CountsOfSum(a, b[..|b| - 1], code);
    }
  }

  lemma {:induction false} CopiesCount(f: Item, n: nat, code: string)
    ensures Total(Copies(f, n)) == n && CountOf(Copies(f, n), code) == if f.code == code then n else 0
  {
    if n > 0 {
      CopiesCount(f, n - 1, code);
      assert Copies(f, n)[..|Copies(f, n)| - 1] == Copies(f, n - 1);
    }
  }

  lemma {:induction false} ExpandedCounts(rows: seq<Item>, code: string)
    requires forall i :: 0 <= i < |rows| ==> rows[i].weight >= 0
    ensures Total(Expanded(rows)) == Total(rows) && CountOf(Expanded(rows), code) == CountOf(rows, code)
    ensures forall i :: 0 <= i < |Expanded(rows)| ==> Expanded(rows)[i].weight == 1
  {
    if rows != [] {
      var n := |rows| - 1;
      ExpandedCounts(rows[..n], code);
      CopiesCount(rows[n], rows[n].weight, code);
      CopiesWeighOne(rows[n], rows[n].weight);
      CountsOfSum(Expanded(rows[..n]), Copies(rows[n], rows[n].weight), code);
    }
  }

  lemma {:induction false} CopiesWeighOne(f: Item, n: nat)
    ensures forall i :: 0 <= i < |Copies(f, n)| ==> Copies(f, n)[i].weight == 1
  {
    if n > 0 { CopiesWeighOne(f, n - 1); }
  }

  lemma {:induction false} UnitCountsOccur(fs: seq<Item>, code: string)
    requires forall i :: 0 <= i < |fs| ==> fs[i].weight == 1
    ensures CountOf(fs, code) >= 0 && (Occurs(fs, code) <==> CountOf(fs, code) > 0)
  {
    if fs != [] {
      var n := |fs| - 1;
      UnitCountsOccur(fs[..n], code);
      assert fs == fs[..n] + [fs[n]];
      OneMore(fs[..n], fs[n], code);
    }
  }

  lemma OneItem(f: Item, code: string)
    ensures Total([f]) == f.weight && CountOf([f], code) == if f.code == code then f.weight else 0
  {
    assert [f][..0] == [];
  }

  function Without(fs: seq<Item>, k: nat): seq<Item>
    requires k < |fs|
  {
    fs[..k] + fs[k + 1..]
  }

  lemma WithoutMultiset(fs: seq<Item>, k: nat)
    requires k < |fs|
    ensures multiset(Without(fs, k)) == multiset(fs) - multiset{fs[k]}
  {
    assert fs == fs[..k] + ([fs[k]] + fs[k + 1..]);
  }

  /** What taking one entry out, wherever it stands, takes from the sums. */
  lemma WithoutCounts(fs: seq<Item>, k: nat, code: string)
    requires k < |fs|
    ensures Total(fs) == Total(Without(fs, k)) + fs[k].weight
    ensures CountOf(fs, code) == CountOf(Without(fs, k), code) + if fs[k].code == code then fs[k].weight else 0
  {
    assert fs == fs[..k] + ([fs[k]] + fs[k + 1..]);
    CountsOfSum(fs[..k], [fs[k]] + fs[k + 1..], code);
    CountsOfSum([fs[k]], fs[k + 1..], code);
    CountsOfSum(fs[..k], fs[k + 1..], code);
    OneItem(fs[k], code);
  }

  /** The order of the entries does not matter. */
  lemma {:induction false} OrderDoesNotMatter(a: seq<Item>, b: seq<Item>, code: string)
    requires multiset(a) == multiset(b)
    ensures Total(a) == Total(b) && CountOf(a, code) == CountOf(b, code)
    decreases |a|
  {
    if a == [] {
      assert |multiset(b)| == 0;
    } else {
      assert a[0] in multiset(b);
      var k :| 0 <= k < |b| && b[k] == a[0];
      WithoutMultiset(a, 0);
      WithoutMultiset(b, k);
      WithoutCounts(a, 0, code);
      WithoutCounts(b, k, code);
      OrderDoesNotMatter(Without(a, 0), Without(b, k), code);
    }
  }

  predicate PlainItems(fs: seq<Item>) { forall i :: 0 <= i < |fs| ==> PlainCode(fs[i].code) }

  lemma ItemsArePlain(failures: seq<Failure>)
    ensures PlainItems(Items(failures))
  {
    forall i | 0 <= i < |failures| ensures PlainCode(Items(failures)[i].code) {
      CodesArePlain(failures[i].error);
    }
  }

  lemma CountsOfSummary(s: Summary, fs: seq<Item>, code: string)
    requires IsSummary(s, fs) && PlainItems(fs)
    ensures code in Counts(s.groups) <==> Occurs(fs, code)
    ensures Occurs(fs, code) ==> Counts(s.groups)[code] == CountOf(fs, code)
    ensures AllPlain(s.groups)
  {
    CountsOfGroups(s.groups, code);
    GroupsCoverCodes(s.groups, fs, code);
    if Occurs(fs, code) {
      var i :| 0 <= i < |s.groups| && s.groups[i].code == code;
      assert s.groups[i] in s.groups;
    }
    forall i | 0 <= i < |s.groups| ensures PlainCode(s.groups[i].code) {
      assert s.groups[i] in s.groups;
      var j :| 0 <= j < |fs| && fs[j].code == s.groups[i].code;
    }
  }

  lemma AggregatedItems(s: Summary, rows: seq<Item>, t: Summary, files: seq<Item>)
    requires forall i :: 0 <= i < |rows| ==> rows[i].weight >= 0
    requires IsSummary(s, rows) && IsSummary(t, files) && PlainItems(rows) && PlainItems(files)
    requires multiset(files) == multiset(Expanded(rows))
    ensures s.total == t.total && forall code :: CountOf(rows, code) == CountOf(files, code)
    ensures Fingerprint(s) == Fingerprint(t) <==> forall i :: 0 <= i < |rows| ==> CountOf(rows, rows[i].code) > 0
  {
    forall code
      ensures s.total == t.total && CountOf(rows, code) == CountOf(files, code)
      ensures code in Counts(t.groups) <==> CountOf(rows, code) > 0
      ensures code in Counts(t.groups) ==> Counts(t.groups)[code] == CountOf(rows, code)
    {
      ExpandedCounts(rows, code);
      OrderDoesNotMatter(files, Expanded(rows), code);
      SameWeights(files, Expanded(rows));
      UnitCountsOccur(files, code);
      CountsOfSummary(t, files, code);
    }
    forall code
      ensures code in Counts(s.groups) <==> Occurs(rows, code)
      ensures code in Counts(s.groups) ==> Counts(s.groups)[code] == CountOf(rows, code)
    {
      CountsOfSummary(s, rows, code);
    }
    CountsOfSummary(s, rows, "");
    CountsOfSummary(t, files, "");
    FingerprintsCompare(s, t);
    PositiveMeansSame(Counts(s.groups), Counts(t.groups), rows);
  }

  /** Summarising rows that SQL has counted and summarising every file they stand for, in any
      order, give the same total and the same counts; and the same fingerprint just when no code
      occurs only with counts of zero. */
  lemma AggregatedIsExpanded(s: Summary, rows: seq<Failure>, t: Summary, files: seq<Failure>)
    requires forall i :: 0 <= i < |rows| ==> Items(rows)[i].weight >= 0
    requires IsSummary(s, Items(rows)) && IsSummary(t, Items(files))
    requires multiset(Items(files)) == multiset(Expanded(Items(rows)))
    ensures s.total == t.total && forall code :: CountOf(Items(rows), code) == CountOf(Items(files), code)
    ensures Fingerprint(s) == Fingerprint(t) <==>
      forall i :: 0 <= i < |rows| ==> CountOf(Items(rows), Items(rows)[i].code) > 0
  {
    ItemsArePlain(rows);
    ItemsArePlain(files);
    AggregatedItems(s, Items(rows), t, Items(files));
  }

  /** For the summaries of any two runs, an unchanged comparison is an equal fingerprint. */
  lemma SameWhenFingerprintsAre(current: Summary, now: seq<Failure>, previous: Summary, was: seq<Failure>)
    requires IsSummary(current, Items(now)) && IsSummary(previous, Items(was))
    ensures Compare(current, Some(previous)).same <==> Fingerprint(current) == Fingerprint(previous)
  {
    ItemsArePlain(now);
    ItemsArePlain(was);
    CountsOfSummary(current, Items(now), "");
    CountsOfSummary(previous, Items(was), "");
    FingerprintsCompare(current, previous);
  }

  lemma SameWeights(files: seq<Item>, units: seq<Item>)
    requires multiset(files) == multiset(units) && forall i :: 0 <= i < |units| ==> units[i].weight == 1
    ensures forall i :: 0 <= i < |files| ==> files[i].weight == 1
  {
    forall i | 0 <= i < |files| ensures files[i].weight == 1 {
      assert files[i] in multiset(units);
    }
  }

  lemma PositiveMeansSame(a: map<string, int>, b: map<string, int>, rows: seq<Item>)
    requires forall code :: code in a <==> Occurs(rows, code)
    requires forall code :: code in b <==> CountOf(rows, code) > 0
    requires forall code :: code in a ==> a[code] == CountOf(rows, code)
    requires forall code :: code in b ==> b[code] == CountOf(rows, code)
    ensures a == b <==> forall i :: 0 <= i < |rows| ==> CountOf(rows, rows[i].code) > 0
  {
    if a == b {
      forall i | 0 <= i < |rows| ensures CountOf(rows, rows[i].code) > 0 {
        assert Occurs(rows, rows[i].code);
        assert rows[i].code in b;
      }
    }
    if forall i :: 0 <= i < |rows| ==> CountOf(rows, rows[i].code) > 0 {
      forall code ensures (code in a <==> code in b) && (code in a ==> a[code] == b[code]) {
        CountedOccurs(rows, code);
      }
    }
  }

  lemma CountedOccurs(rows: seq<Item>, code: string)
    requires forall i :: 0 <= i < |rows| ==> CountOf(rows, rows[i].code) > 0
    ensures Occurs(rows, code) <==> CountOf(rows, code) > 0
  {
    if i :| 0 <= i < |rows| && rows[i].code == code {
    } else {
      CodeThatNeverOccurs(rows, code);
    }
  }
}
