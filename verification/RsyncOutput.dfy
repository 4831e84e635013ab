/** Reading rsync's output as it streams in, and why it comes to the same as reading it whole. */
module RsyncOutput {
  import opened Wrappers
  import opened Text

  const MAX_CAPTURED := 64 * 1024

  /** appendOutputTail('', s): the end of the text, up to the cap. */
  function Tail(s: string): string {
    if |s| <= MAX_CAPTURED then s else s[|s| - MAX_CAPTURED..]
  }

  // ----- One line -----

  predicate IsControl(c: char) {
    c as int <= 8 || c as int == 11 || c as int == 12 || 14 <= c as int <= 31
  }

  predicate IsParameter(c: char) { '0' <= c <= '9' || c == ';' }

  predicate IsLetter(c: char) { 'a' <= c <= 'z' || 'A' <= c <= 'Z' }

  function SkipParameters(s: string): (r: string)
    ensures |r| <= |s|
  {
    if s != "" && IsParameter(s[0]) then SkipParameters(s[1..]) else s
  }

  /** Without the terminal's colour and cursor sequences. */
  function StripEscapes(s: string): string
    decreases |s|
  {
    if s == "" then ""
    else if s[0] as int == 27 && |s| > 1 && s[1] == '[' then
      var rest := SkipParameters(s[2..]);
      if rest != "" && IsLetter(rest[0]) then StripEscapes(rest[1..]) else [s[0]] + StripEscapes(s[1..])
    else [s[0]] + StripEscapes(s[1..])
  }

  function StripControls(s: string): string {
    if s == "" then "" else (if IsControl(s[0]) then "" else [s[0]]) + StripControls(s[1..])
  }

  function CleanLine(line: string): string { Trim(StripControls(StripEscapes(line))) }

  datatype Entry = Entry(path: string, action: string, size: nat)

  /** How many files are done: rsync counts those left either as checked or as still to check. */
  datatype Checked = Checked(toCheck: bool, count: int, total: int)

  /** What the patterns find in a cleaned line, in the order they are tried. */
  datatype Parsed =
    | Itemized(flags: string, path: string, size: nat)
    | Deletion(path: string, size: nat)
    | Overall(bytes: Option<int>, percent: int, speed: string, eta: string, counts: Option<(int, int, int)>)
    | PerFile(speed: string, checked: Option<Checked>)
    | TotalSize(total: int)
    | Other

  datatype Progress = Progress(
    filesTotal: int, filesCopied: int, filesFailed: int, bytesTransferred: int, currentFile: Option<string>,
    speed: Option<string>, percent: Option<int>, filesRemaining: Option<int>, eta: Option<string>)

  const START := Progress(0, 0, 0, 0, None, None, None, None, None)

  function ItemizeAction(flags: string): string {
    if |flags| < 2 then "unknown"
    else if flags[0] == '>' || flags[0] == '<' then (if Contains(flags, "+++++++") then "created" else "transferred")
    else if flags[0] == 'c' && flags[1] == 'd' then "directory"
    else if flags[0] == '.' then "unchanged"
    else "updated"
  }

  /** Math.round of a share of a total, in percent. */
  function RoundedPercent(part: int, total: int): int
    requires total > 0
  {
    (200 * part + total) / (2 * total)
  }

  function Raised(percent: Option<int>, next: int): Option<int> {
    if percent.None? || next > percent.value then Some(next) else percent
  }

  function AtLeast(current: int, next: int): int { if next > current then next else current }

  /** What one parsed line does to the progress. */
  function Advance(p: Progress, line: Parsed): Progress {
    match line
    case Itemized(flags, path, size) =>
      var copied := ItemizeAction(flags) in {"transferred", "created"};
      p.(filesTotal := p.filesTotal + 1, currentFile := Some(path),
         filesCopied := if copied then p.filesCopied + 1 else p.filesCopied,
         bytesTransferred := if copied then p.bytesTransferred + size else p.bytesTransferred)
    case Deletion(_, _) => p.(filesTotal := p.filesTotal + 1)
    case Overall(bytes, percent, speed, eta, counts) =>
      if bytes.None? || percent < 0 || percent > 100 then p
      else
        var q := p.(bytesTransferred := AtLeast(p.bytesTransferred, bytes.value), speed := Some(speed),
                    eta := if eta == "0:00:00" then None else Some(eta), percent := Raised(p.percent, percent));
        if counts.None? then q
        else q.(filesCopied := counts.value.0, filesRemaining := Some(counts.value.1), filesTotal := counts.value.2)
    case PerFile(speed, checked) =>
      var q := p.(speed := Some(speed));
      if checked.None? || checked.value.total <= 0 then q
      else
        var share := if checked.value.toCheck then checked.value.count else checked.value.total - checked.value.count;
        q.(percent := Raised(p.percent, RoundedPercent(share, checked.value.total)))
    case TotalSize(total) => p.(bytesTransferred := AtLeast(p.bytesTransferred, total))
    case Other => p
  }

  function EntriesOf(line: Parsed): seq<Entry> {
    match line
    case Itemized(flags, path, size) => [Entry(path, ItemizeAction(flags), size)]
    case Deletion(path, size) => [Entry(path, "deleted", size)]
    case _ => []
  }

  /** The patterns themselves, applied to a cleaned line that is not empty. */
  type Patterns = string -> Parsed

  function Parse(patterns: Patterns, line: string): Parsed {
    var clean := CleanLine(line);
    if clean == "" then Other else patterns(clean)
  }

  predicate IsFailure(line: string) {
    var clean := CleanLine(line);
    "rsync:" <= clean && !("rsync error:" <= clean)
  }

  /** Reading one raw line: what it does to the progress, which files it names, and on the error
      stream whether it reports a failure. */
  datatype Reader = Reader(step: (Progress, string) -> Progress, entries: string -> seq<Entry>, fails: string -> bool) {
    predicate LeavesFailures(p: Progress, line: string, failed: int) {
      step(p.(filesFailed := failed), line) == step(p, line).(filesFailed := failed)
    }

    predicate SkipsEmpty(p: Progress) { step(p, "") == p && entries("") == [] && !fails("") }

    /** Neither the percentage nor the bytes transferred go back. */
    predicate NeverFallsBack(p: Progress, line: string) { NotBehind(p, step(p, line)) }

    ghost predicate Lawful() {
      && (forall p, line, failed :: LeavesFailures(p, line, failed))
      && (forall p :: SkipsEmpty(p)) && (forall p, line :: NeverFallsBack(p, line))
    }
  }

  predicate NotBehind(p: Progress, q: Progress) {
    && p.bytesTransferred <= q.bytesTransferred
    && (p.percent.Some? ==> q.percent.Some? && p.percent.value <= q.percent.value)
  }

  function ReaderOf(parse: string -> Parsed, fails: string -> bool): Reader {
    Reader((p, line) => Advance(p, parse(line)), line => EntriesOf(parse(line)), fails)
  }

  function LineReader(patterns: Patterns): Reader {
    ReaderOf(line => Parse(patterns, line), line => IsFailure(line))
  }

  lemma ReaderIsLawful(parse: string -> Parsed, fails: string -> bool)
    requires parse("") == Other && !fails("")
    ensures ReaderOf(parse, fails).Lawful()
  {
    var r := ReaderOf(parse, fails);
    forall p, line, failed ensures r.LeavesFailures(p, line, failed) {
      AdvanceLeavesFailures(p, parse(line), failed);
    }
    forall p, line ensures r.NeverFallsBack(p, line) {
      AdvanceNeverFallsBack(p, parse(line));
    }
  }

  /** Whatever the patterns find, reading lines is lawful. */
  lemma LineReaderIsLawful(patterns: Patterns)
    ensures LineReader(patterns).Lawful()
  {
    assert CleanLine("") == "";
    ReaderIsLawful(line => Parse(patterns, line), line => IsFailure(line));
  }

  lemma AdvanceLeavesFailures(p: Progress, line: Parsed, failed: int)
    ensures Advance(p.(filesFailed := failed), line) == Advance(p, line).(filesFailed := failed)
  {
  }

  lemma AdvanceNeverFallsBack(p: Progress, line: Parsed)
    ensures NotBehind(p, Advance(p, line))
  {
  }

  // ----- The whole text -----

  predicate IsBreak(c: char) { c == '\r' || c == '\n' }

  /** The finished lines so far, and the line being read. */
  datatype Scan = Scan(lines: seq<string>, rest: string)

  const NOTHING := Scan([], "")

  function Step(s: Scan, c: char): Scan {
    if !IsBreak(c) then s.(rest := s.rest + [c])
    else if s.rest == "" then s
    else Scan(s.lines + [s.rest], "")
  }

  function ScanFrom(s: Scan, text: string): Scan
    decreases |text|
  {
    if text == "" then s else ScanFrom(Step(s, text[0]), text[1..])
  }

  /** The lines of a text that are not empty. */
  function Lines(text: string): seq<string> {
    var s := ScanFrom(NOTHING, text);
    if s.rest == "" then s.lines else s.lines + [s.rest]
  }

  function FinalProgress(reader: Reader, lines: seq<string>): Progress {
    if lines == [] then START else reader.step(FinalProgress(reader, lines[..|lines| - 1]), lines[|lines| - 1])
  }

  function AllEntries(reader: Reader, lines: seq<string>): seq<Entry> {
    if lines == [] then [] else AllEntries(reader, lines[..|lines| - 1]) + reader.entries(lines[|lines| - 1])
  }

  function Failures(reader: Reader, lines: seq<string>): int {
    if lines == [] then 0
    else Failures(reader, lines[..|lines| - 1]) + if reader.fails(lines[|lines| - 1]) then 1 else 0
  }

  // ----- Chunks -----

  function FirstBreak(s: string): (i: nat)
    ensures i <= |s| && (i < |s| ==> IsBreak(s[i])) && forall j :: 0 <= j < i ==> !IsBreak(s[j])
  {
    if s == "" || IsBreak(s[0]) then 0 else 1 + FirstBreak(s[1..])
  }

  function SkipBreaks(s: string): (r: string)
    ensures |r| <= |s|
  {
    if s != "" && IsBreak(s[0]) then SkipBreaks(s[1..]) else s
  }

  /** Splitting at runs of line breaks. */
  function Pieces(s: string): (parts: seq<string>)
    ensures |parts| >= 1
    decreases |s|
  {
    var i := FirstBreak(s);
    if i == |s| then [s] else [s[..i]] + Pieces(SkipBreaks(s[i + 1..]))
  }

  /** One chunk: the finished pieces are handed on, the last is kept, up to the cap. */
  function WriteChunk(s: Scan, text: string): Scan {
    var parts := Pieces(s.rest + text);
    Scan(s.lines + parts[..|parts| - 1], Tail(parts[|parts| - 1]))
  }

  /** What has been handed on and what is kept after some chunks. */
  function Streamed(chunks: seq<string>): Scan {
    if chunks == [] then NOTHING else WriteChunk(Streamed(chunks[..|chunks| - 1]), chunks[|chunks| - 1])
  }

  /** With the last line, as flush hands it on. */
  function Flushed(s: Scan): seq<string> {
    if s.rest == "" then s.lines else s.lines + [s.rest]
  }

  function Concat(chunks: seq<string>): string {
    if chunks == [] then "" else Concat(chunks[..|chunks| - 1]) + chunks[|chunks| - 1]
  }

  function NonEmpty(lines: seq<string>): seq<string> {
    if lines == [] then []
    else NonEmpty(lines[..|lines| - 1]) + if lines[|lines| - 1] == "" then [] else [lines[|lines| - 1]]
  }

  predicate Fits(text: string) {
    forall i :: 0 <= i < |Lines(text)| ==> |Lines(text)[i]| <= MAX_CAPTURED
  }

  // ----- Scanning -----

  predicate NoBreaks(s: string) { forall i :: 0 <= i < |s| ==> !IsBreak(s[i]) }

  lemma {:induction false} ScanAppend(s: Scan, a: string, b: string)
    ensures ScanFrom(s, a + b) == ScanFrom(ScanFrom(s, a), b)
    decreases |a|
  {
    if a == "" {
      assert a + b == b;
    } else {
      assert (a + b)[1..] == a[1..] + b;
      ScanAppend(Step(s, a[0]), a[1..], b);
    }
  }

  lemma {:induction false} ScanPlain(s: Scan, text: string)
    requires NoBreaks(text)
    ensures ScanFrom(s, text) == s.(rest := s.rest + text)
    decreases |text|
  {
    if text == "" {
      assert s.rest + text == s.rest;
    } else {
      ScanPlain(Step(s, text[0]), text[1..]);
      assert s.rest + [text[0]] + text[1..] == s.rest + text;
    }
  }

  lemma {:induction false} ScanSkips(lines: seq<string>, text: string)
    ensures ScanFrom(Scan(lines, ""), text) == ScanFrom(Scan(lines, ""), SkipBreaks(text))
  {
    if text != "" && IsBreak(text[0]) {
      ScanSkips(lines, text[1..]);
    }
  }

  /** Lines already found stay in front. */
  lemma {:induction false} ScanKeepsLines(before: seq<string>, rest: string, text: string)
    ensures ScanFrom(Scan(before, rest), text) ==
      Scan(before + ScanFrom(Scan([], rest), text).lines, ScanFrom(Scan([], rest), text).rest)
    decreases |text|
  {
    if text != "" {
      var one := Step(Scan([], rest), text[0]);
      ScanKeepsLines(one.lines, one.rest, text[1..]);
      ScanKeepsLines(before + one.lines, one.rest, text[1..]);
      assert Step(Scan(before, rest), text[0]) == Scan(before + one.lines, one.rest);
      assert before + (one.lines + ScanFrom(Scan([], one.rest), text[1..]).lines) ==
        before + one.lines + ScanFrom(Scan([], one.rest), text[1..]).lines;
    } else {
      assert before + [] == before;
    }
  }

  lemma {:induction false} RestHasNoBreaks(s: Scan, text: string)
    requires NoBreaks(s.rest)
    ensures NoBreaks(ScanFrom(s, text).rest)
    decreases |text|
  {
    if text != "" {
      RestHasNoBreaks(Step(s, text[0]), text[1..]);
    }
  }

  lemma NonEmptyOfSum(a: seq<string>, b: seq<string>)
    ensures NonEmpty(a + b) == NonEmpty(a) + NonEmpty(b)
    decreases |b|
  {
    if b == [] {
      assert a + b == a;
    } else {
      assert (a + b)[..|a + b| - 1] == a + b[..|b| - 1];
      NonEmptyOfSum(a, b[..|b| - 1]);
    }
  }

  function OneLine(s: string): seq<string> { if s == "" then [] else [s] }

  lemma LineScans(line: string, c: char, after: string)
    requires NoBreaks(line) && IsBreak(c)
    ensures ScanFrom(NOTHING, line + [c] + after) == ScanFrom(Scan(OneLine(line), ""), after)
  {
    ScanAppend(NOTHING, line, [c] + after);
    ScanPlain(NOTHING, line);
    assert "" + line == line && line + [c] + after == line + ([c] + after) && ([c] + after)[1..] == after;
    assert Step(Scan([], line), c) == Scan(OneLine(line), "");
  }

  /** Every piece but the last is a line or empty, and the last is the line being read. */
  ghost predicate AreScan(parts: seq<string>, s: string) {
    parts != [] && ScanFrom(NOTHING, s) == Scan(NonEmpty(parts[..|parts| - 1]), parts[|parts| - 1])
  }

  lemma PiecesPrepend(first: string, c: char, after: string, more: seq<string>)
    requires NoBreaks(first) && IsBreak(c) && AreScan(more, SkipBreaks(after))
    ensures AreScan([first] + more, first + [c] + after)
  {
    var all := [first] + more;
    assert all[..|all| - 1] == [first] + more[..|more| - 1];
    NonEmptyOfSum([first], more[..|more| - 1]);
    assert [first][..0] == [] && NonEmpty([first]) == OneLine(first);
    LineScans(first, c, after);
    ScanSkips(OneLine(first), after);
    ScanKeepsLines(OneLine(first), "", SkipBreaks(after));
  }

  /** Splitting finds what scanning finds. */
  lemma {:induction false} PiecesAreScan(s: string)
    ensures AreScan(Pieces(s), s)
    decreases |s|
  {
    var i := FirstBreak(s);
    if i == |s| {
      ScanPlain(NOTHING, s);
      assert "" + s == s && [s][..0] == [];
    } else {
      var after := s[i + 1..];
      PiecesAreScan(SkipBreaks(after));
      PiecesPrepend(s[..i], s[i], after, Pieces(SkipBreaks(after)));
      assert s[..i] + [s[i]] + after == s;
    }
  }

  // ----- Streaming refines reading at once -----

  /** A text's lines include those of what came first, and the line being read then begins a line. */
  lemma LaterLines(a: string, b: string)
    ensures Fits(a + b) ==> |ScanFrom(NOTHING, a).rest| <= MAX_CAPTURED && Fits(a)
  {
    var s := ScanFrom(NOTHING, a);
    ScanAppend(NOTHING, a, b);
    ScanKeepsLines(s.lines, s.rest, b);
    var t := ScanFrom(Scan([], s.rest), b);
    if Fits(a + b) {
      RestBeginsLine(s.rest, b);
      var all := Lines(a + b);
      assert forall i :: 0 <= i < |s.lines| ==> all[i] == s.lines[i];
      if s.rest != "" {
        assert s.rest <= (if t.lines == [] then t.rest else t.lines[0]);
        assert all[|s.lines|] == if t.lines == [] then t.rest else t.lines[0];
      }
    }
  }

  lemma {:induction false} RestBeginsLine(rest: string, text: string)
    ensures var t := ScanFrom(Scan([], rest), text);
      rest != "" ==> rest <= if t.lines == [] then t.rest else t.lines[0]
    decreases |text|
  {
    if text != "" && rest != "" {
      if IsBreak(text[0]) {
        assert Step(Scan([], rest), text[0]) == Scan([rest], "");
        ScanKeepsLines([rest], "", text[1..]);
      } else {
        RestBeginsLine(rest + [text[0]], text[1..]);
      }
    }
  }

  /** A chunk's lines are those of the kept line and the chunk together. */
  lemma ChunkIsScan(s: Scan, text: string)
    ensures var t := ScanFrom(NOTHING, s.rest + text);
      NonEmpty(WriteChunk(s, text).lines) == NonEmpty(s.lines) + t.lines && WriteChunk(s, text).rest == Tail(t.rest)
  {
    var parts := Pieces(s.rest + text);
    PiecesAreScan(s.rest + text);
    NonEmptyOfSum(s.lines, parts[..|parts| - 1]);
  }

  lemma {:induction false} StreamedIsScan(chunks: seq<string>)
    requires Fits(Concat(chunks))
    ensures var s := ScanFrom(NOTHING, Concat(chunks));
      NonEmpty(Streamed(chunks).lines) == s.lines && Streamed(chunks).rest == s.rest
  {
    if chunks != [] {
      var n := |chunks| - 1;
      var a, b := Concat(chunks[..n]), chunks[n];
      LaterLines(a, b);
      LaterLines(a + b, "");
      assert a + b + "" == a + b;
      StreamedIsScan(chunks[..n]);
      ChunkIsScan(Streamed(chunks[..n]), b);
      ScanContinues(a, b);
    }
  }

  /** Scanning goes on from the lines found and the line being read. */
  lemma ScanContinues(a: string, b: string)
    ensures var s := ScanFrom(NOTHING, a); var t := ScanFrom(NOTHING, s.rest + b);
      ScanFrom(NOTHING, a + b) == Scan(s.lines + t.lines, t.rest)
  {
    var s := ScanFrom(NOTHING, a);
    RestHasNoBreaks(NOTHING, a);
    ScanAppend(NOTHING, s.rest, b);
    ScanPlain(NOTHING, s.rest);
    assert "" + s.rest == s.rest;
    ScanAppend(NOTHING, a, b);
    ScanKeepsLines(s.lines, s.rest, b);
  }

  /** However the text is cut, the lines handed on are its lines, when none is over the cap. */
  lemma EveryCuttingGivesTheLines(chunks: seq<string>)
    requires Fits(Concat(chunks))
    ensures NonEmpty(Flushed(Streamed(chunks))) == Lines(Concat(chunks))
  {
    StreamedIsScan(chunks);
    var s := Streamed(chunks);
    if s.rest != "" {
      NonEmptyOfSum(s.lines, [s.rest]);
      assert [s.rest][..0] == [] && NonEmpty([s.rest]) == [s.rest];
    }
  }

  lemma {:induction false} LongLineWasRest(text: string)
    requires forall n :: 0 <= n <= |text| ==> |ScanFrom(NOTHING, text[..n]).rest| <= MAX_CAPTURED
    ensures forall i :: 0 <= i < |ScanFrom(NOTHING, text).lines| ==> |ScanFrom(NOTHING, text).lines[i]| <= MAX_CAPTURED
  {
    if text != "" {
      var m := |text| - 1;
      forall n | 0 <= n <= m ensures |ScanFrom(NOTHING, text[..m][..n]).rest| <= MAX_CAPTURED {
        assert text[..m][..n] == text[..n];
      }
      LongLineWasRest(text[..m]);
      assert text == text[..m] + [text[m]];
      ScanAppend(NOTHING, text[..m], [text[m]]);
      assert |ScanFrom(NOTHING, text[..m]).rest| <= MAX_CAPTURED;
    }
  }

  /** The line being read ends at the next break, whatever it began with. */
  lemma FirstLineOf(rest: string, b: string)
    requires rest != "" && NoBreaks(rest)
    ensures Lines(rest + b) != [] && |Lines(rest + b)[0]| == |rest| + FirstBreak(b)
  {
    var i := FirstBreak(b);
    var line, after := rest + b[..i], b[i..];
    assert rest + b == line + after;
    ScanAppend(NOTHING, line, after);
    ScanPlain(NOTHING, line);
    assert "" + line == line;
    if after != "" {
      assert Step(Scan([], line), after[0]) == Scan([line], "");
      ScanKeepsLines([line], "", after[1..]);
    }
  }

  lemma LinesAfter(a: string, b: string)
    ensures var s := ScanFrom(NOTHING, a); Lines(a + b) == s.lines + Lines(s.rest + b)
  {
    ScanContinues(a, b);
  }

  lemma StreamedStep(chunks: seq<string>)
    requires chunks != []
    ensures var before := Streamed(chunks[..|chunks| - 1]);
      var t := ScanFrom(NOTHING, before.rest + chunks[|chunks| - 1]);
      NonEmpty(Streamed(chunks).lines) == NonEmpty(before.lines) + t.lines && Streamed(chunks).rest == Tail(t.rest)
  {
    ChunkIsScan(Streamed(chunks[..|chunks| - 1]), chunks[|chunks| - 1]);
  }

  lemma OneChunk(chunks: seq<string>)
    requires |chunks| == 1
    ensures var s := ScanFrom(NOTHING, chunks[0]);
      NonEmpty(Streamed(chunks).lines) == s.lines && Streamed(chunks).rest == Tail(s.rest)
  {
    StreamedStep(chunks);
    assert chunks[..0] == [] && "" + chunks[0] == chunks[0];
  }

  /** What is handed on in the end. */
  function Finished(t: Scan): seq<string> {
    if t.rest == "" then t.lines else t.lines + [Tail(t.rest)]
  }

  lemma HandedOn(two: Scan, lines: seq<string>, t: Scan)
    requires NonEmpty(two.lines) == lines + t.lines && two.rest == Tail(t.rest)
    ensures NonEmpty(Flushed(two)) == lines + Finished(t)
  {
    FlushedNonEmpty(two);
    if t.rest != "" {
      assert lines + t.lines + [two.rest] == lines + (t.lines + [two.rest]);
    }
  }

  lemma FlushedNonEmpty(s: Scan)
    ensures NonEmpty(Flushed(s)) == if s.rest == "" then NonEmpty(s.lines) else NonEmpty(s.lines) + [s.rest]
  {
    if s.rest != "" {
      assert (s.lines + [s.rest])[..|s.lines|] == s.lines;
    }
  }

  lemma ConcatTwo(a: string, b: string)
    ensures Concat([a, b]) == a + b
  {
    assert [a, b][..1] == [a] && [a][..0] == [] && "" + a == a;
    assert Concat([a]) == a;
  }

  /** Streaming these chunks hands on just the lines of the text they make up. */
  predicate ReadsRight(chunks: seq<string>) {
    NonEmpty(Flushed(Streamed(chunks))) == Lines(Concat(chunks))
  }

  /** The cap matters exactly: a text can be cut so that lines go wrong if and only if one of its
      lines is over the cap. */
  lemma CapMattersExactly(text: string)
    ensures Fits(text) <==> forall chunks :: Concat(chunks) == text ==> ReadsRight(chunks)
  {
    if Fits(text) {
      forall chunks | Concat(chunks) == text ensures ReadsRight(chunks) {
        EveryCuttingGivesTheLines(chunks);
      }
    } else {
      var chunks := BadCutting(text);
    }
  }

  lemma BadCutting(text: string) returns (chunks: seq<string>)
    requires !Fits(text)
    ensures Concat(chunks) == text && !ReadsRight(chunks)
  {
    var n := LongRest(text);
    chunks := [text[..n], text[n..]];
    ConcatTwo(text[..n], text[n..]);
    assert text == text[..n] + text[n..];
    LongLineIsCut(chunks);
  }

  lemma LongRest(text: string) returns (n: nat)
    requires !Fits(text)
    ensures n <= |text| && |ScanFrom(NOTHING, text[..n]).rest| > MAX_CAPTURED
  {
    if n' :| 0 <= n' <= |text| && |ScanFrom(NOTHING, text[..n']).rest| > MAX_CAPTURED {
      n := n';
    } else {
      LongLineWasRest(text);
      assert text[..|text|] == text;
      n := |text|;
    }
  }

  lemma LongLineIsCut(chunks: seq<string>)
    requires |chunks| == 2 && |ScanFrom(NOTHING, chunks[0]).rest| > MAX_CAPTURED
    ensures NonEmpty(Flushed(Streamed(chunks))) != Lines(chunks[0] + chunks[1])
  {
    var a, b := chunks[0], chunks[1];
    var s := ScanFrom(NOTHING, a);
    StreamedStep(chunks);
    OneChunk(chunks[..1]);
    var t := ScanFrom(NOTHING, Tail(s.rest) + b);
    HandedOn(Streamed(chunks), s.lines, t);
    LinesAfter(a, b);
    RestHasNoBreaks(NOTHING, a);
    FirstLineOf(s.rest, b);
    FirstLineOf(Tail(s.rest), b);
    var got := Finished(t);
    assert |got[0]| <= |Tail(s.rest)| + FirstBreak(b) < |Lines(s.rest + b)[0]|;
    assert (s.lines + got)[|s.lines|] == got[0] && (s.lines + Lines(s.rest + b))[|s.lines|] == Lines(s.rest + b)[0];
  }

  // ----- What the lines add up to -----

  lemma NonEmptySnoc(lines: seq<string>)
    requires lines != []
    ensures var before, last := NonEmpty(lines[..|lines| - 1]), lines[|lines| - 1];
      NonEmpty(lines) == if last == "" then before else before + [last]
  {
  }

  /** Empty lines add nothing to what is read. */
  lemma {:induction false} EmptyLinesDoNothing(reader: Reader, lines: seq<string>)
    requires reader.Lawful()
    ensures FinalProgress(reader, NonEmpty(lines)) == FinalProgress(reader, lines)
    ensures AllEntries(reader, NonEmpty(lines)) == AllEntries(reader, lines)
    ensures Failures(reader, NonEmpty(lines)) == Failures(reader, lines)
  {
    if lines != [] {
      var before, last := lines[..|lines| - 1], lines[|lines| - 1];
      EmptyLinesDoNothing(reader, before);
      NonEmptySnoc(lines);
      assert reader.SkipsEmpty(FinalProgress(reader, before));
      if last == "" {
        assert AllEntries(reader, before) + [] == AllEntries(reader, before);
      } else {
        assert NonEmpty(lines)[..|NonEmpty(lines)| - 1] == NonEmpty(before);
      }
    }
  }

  /** Neither the percentage nor the bytes transferred ever go back. */
  lemma {:induction false} ProgressNeverFallsBack(reader: Reader, lines: seq<string>, more: seq<string>)
    requires reader.Lawful()
    ensures NotBehind(FinalProgress(reader, lines), FinalProgress(reader, lines + more))
    decreases |more|
  {
    if more == [] {
      assert lines + more == lines;
    } else {
      var n := |more| - 1;
      ProgressNeverFallsBack(reader, lines, more[..n]);
      assert (lines + more)[..|lines + more| - 1] == lines + more[..n];
      assert reader.NeverFallsBack(FinalProgress(reader, lines + more[..n]), more[n]);
    }
  }

  /** Whether rsync has written nothing that overrides the running counts. */
  predicate Plain(patterns: Patterns, line: string) {
    !Parse(patterns, line).Overall? && !Parse(patterns, line).TotalSize?
  }

  predicate IsCopied(e: Entry) { e.action in {"transferred", "created"} }

  function CopiedCount(entries: seq<Entry>): int {
    if entries == [] then 0
    else CopiedCount(entries[..|entries| - 1]) + if IsCopied(entries[|entries| - 1]) then 1 else 0
  }

  function CopiedBytes(entries: seq<Entry>): int {
    if entries == [] then 0
    else
      var last := entries[|entries| - 1];
      CopiedBytes(entries[..|entries| - 1]) + if IsCopied(last) then last.size else 0
  }

  lemma OneMoreEntry(entries: seq<Entry>, p: Progress, parsed: Parsed)
    requires !parsed.Overall? && !parsed.TotalSize?
    requires p.filesTotal == |entries| && p.filesCopied == CopiedCount(entries)
    requires p.bytesTransferred == CopiedBytes(entries)
    ensures var q, all := Advance(p, parsed), entries + EntriesOf(parsed);
      q.filesTotal == |all| && q.filesCopied == CopiedCount(all) && q.bytesTransferred == CopiedBytes(all)
  {
    var more := EntriesOf(parsed);
    if more == [] {
      assert entries + more == entries;
    } else {
      assert (entries + more)[..|entries|] == entries;
    }
  }

  /** The running counts are those of the entries reported: every entry, the copied ones, and
      their bytes. */
  lemma {:induction false} CountsMatchEntries(patterns: Patterns, lines: seq<string>)
    requires forall i :: 0 <= i < |lines| ==> Plain(patterns, lines[i])
    ensures var p, entries := FinalProgress(LineReader(patterns), lines), AllEntries(LineReader(patterns), lines);
      p.filesTotal == |entries| && p.filesCopied == CopiedCount(entries) && p.bytesTransferred == CopiedBytes(entries)
  {
    if lines != [] {
      var n := |lines| - 1;
      CountsMatchEntries(patterns, lines[..n]);
      OneMoreEntry(AllEntries(LineReader(patterns), lines[..n]), FinalProgress(LineReader(patterns), lines[..n]),
        Parse(patterns, lines[n]));
      assert Plain(patterns, lines[n]);
    }
  }

  lemma TailOfTail(a: string, b: string)
    ensures Tail(Tail(a) + b) == Tail(a + b)
  {
  }

  /** What is captured of a stream, chunk by chunk. */
  function Captured(chunks: seq<string>): string {
    if chunks == [] then "" else Tail(Captured(chunks[..|chunks| - 1]) + chunks[|chunks| - 1])
  }

  /** However it came, the end of the whole text. */
  lemma {:induction false} CapturedIsTail(chunks: seq<string>)
    ensures Captured(chunks) == Tail(Concat(chunks))
  {
    if chunks != [] {
      CapturedIsTail(chunks[..|chunks| - 1]);
      TailOfTail(Concat(chunks[..|chunks| - 1]), chunks[|chunks| - 1]);
    }
  }

  lemma OneMoreChunk(chunks: seq<string>, text: string)
    ensures Captured(chunks + [text]) == Tail(Captured(chunks) + text)
    ensures Streamed(chunks + [text]) == WriteChunk(Streamed(chunks), text)
  {
    assert (chunks + [text])[..|chunks|] == chunks;
  }

  lemma FlushedCounts(reader: Reader, chunks: seq<string>)
    requires reader.Lawful()
    ensures var lines := Flushed(Streamed(chunks));
      Fits(Concat(chunks)) ==>
        && FinalProgress(reader, lines) == FinalProgress(reader, Lines(Concat(chunks)))
        && AllEntries(reader, lines) == AllEntries(reader, Lines(Concat(chunks)))
        && Failures(reader, lines) == Failures(reader, Lines(Concat(chunks)))
  {
    if Fits(Concat(chunks)) {
      var lines := Flushed(Streamed(chunks));
      EveryCuttingGivesTheLines(chunks);
      EmptyLinesDoNothing(reader, lines);
    }
  }

  /** One of the two output streams: what is captured of it, and its unfinished last line. */
  class Stream {
    var captured: string
    var remainder: string
    ghost var chunks: seq<string>
    ghost var lines: seq<string>      // handed on so far

    ghost predicate Valid()
      reads this
    {
      captured == Captured(chunks) && Scan(lines, remainder) == Streamed(chunks)
    }

    constructor ()
      ensures Valid() && chunks == [] && lines == []
    {
      captured, remainder, chunks, lines := "", "", [], [];
    }

    /** Takes in a chunk and gives back the lines it finishes. */
    method Write(text: string) returns (finished: seq<string>)
      requires Valid()
      modifies this
      ensures Valid() && chunks == old(chunks) + [text] && lines == old(lines) + finished
    {
      OneMoreChunk(chunks, text);
      var parts := Pieces(remainder + text);
      finished := parts[..|parts| - 1];
      captured, remainder := Tail(captured + text), Tail(parts[|parts| - 1]);
      chunks, lines := chunks + [text], lines + finished;
    }

    /** Gives back the last line, if any is left. */
    method Flush() returns (finished: seq<string>)
      requires Valid()
      modifies `remainder, `lines
      ensures remainder == "" && lines == Flushed(Streamed(chunks)) == old(lines) + finished
      ensures captured == Tail(Concat(chunks))
    {
      CapturedIsTail(chunks);
      finished := if remainder == "" then [] else [remainder];
      remainder, lines := "", lines + finished;
    }
  }

  class Processor {
    const reader: Reader
    const stdout: Stream
    const stderr: Stream
    var progress: Progress
    var entries: seq<Entry>

    ghost predicate Valid()
      reads this, stdout, stderr
    {
      && reader.Lawful() && stdout != stderr && stdout.Valid() && stderr.Valid()
      && Counts(stdout.lines, stderr.lines)
    }

    /** Just these lines have been read. */
    ghost predicate Counts(outLines: seq<string>, errLines: seq<string>)
      reads this
    {
      && progress == FinalProgress(reader, outLines).(filesFailed := Failures(reader, errLines))
      && entries == AllEntries(reader, outLines)
    }

    constructor (reader: Reader)
      requires reader.Lawful()
      ensures this.reader == reader && Valid() && fresh(stdout) && fresh(stderr)
      ensures stdout.chunks == stderr.chunks == []
    {
      this.reader, progress, entries := reader, START, [];
      stdout := new Stream();
      stderr := new Stream();
    }

    method ProcessStdoutLine(line: string, ghost outLines: seq<string>, ghost errLines: seq<string>)
      requires reader.Lawful() && Counts(outLines, errLines)
      modifies `progress, `entries
      ensures Counts(outLines + [line], errLines)
    {
      assert reader.LeavesFailures(FinalProgress(reader, outLines), line, Failures(reader, errLines));
      assert (outLines + [line])[..|outLines|] == outLines;
      progress := reader.step(progress, line);
      entries := entries + reader.entries(line);
    }

    method ProcessStderrLine(line: string, ghost outLines: seq<string>, ghost errLines: seq<string>)
      requires Counts(outLines, errLines)
      modifies `progress
      ensures Counts(outLines, errLines + [line])
    {
      assert (errLines + [line])[..|errLines|] == errLines;
      if reader.fails(line) { progress := progress.(filesFailed := progress.filesFailed + 1); }
    }

    method ProcessStdoutLines(lines: seq<string>, ghost before: seq<string>, ghost errLines: seq<string>)
      requires reader.Lawful() && Counts(before, errLines)
      modifies `progress, `entries
      ensures Counts(before + lines, errLines)
    {
      ghost var read := before;
      for i := 0 to |lines|
        invariant read == before + lines[..i]
        invariant Counts(read, errLines)
      {
        ProcessStdoutLine(lines[i], read, errLines);
        read := read + [lines[i]];
      }
      assert read == before + lines;
    }

    method ProcessStderrLines(lines: seq<string>, ghost outLines: seq<string>, ghost before: seq<string>)
      requires Counts(outLines, before)
      modifies `progress
      ensures Counts(outLines, before + lines)
    {
      ghost var read := before;
      for i := 0 to |lines|
        invariant read == before + lines[..i]
        invariant Counts(outLines, read)
      {
        ProcessStderrLine(lines[i], outLines, read);
        read := read + [lines[i]];
      }
      assert read == before + lines;
    }

    method WriteStdout(text: string)
      requires Valid()
      modifies `progress, `entries, stdout
      ensures Valid() && stdout.chunks == old(stdout.chunks) + [text]
    {
      ghost var before := stdout.lines;
      var lines := stdout.Write(text);
      ProcessStdoutLines(lines, before, stderr.lines);
    }

    method WriteStderr(text: string)
      requires Valid()
      modifies `progress, stderr
      ensures Valid() && stderr.chunks == old(stderr.chunks) + [text]
    {
      ghost var before := stderr.lines;
      var lines := stderr.Write(text);
      ProcessStderrLines(lines, stdout.lines, before);
    }

    /** However the two streams were cut and interleaved, in the end everything is as if each had
        been read at once. */
    method Flush()
      requires Valid()
      modifies `progress, `entries, stdout`remainder, stdout`lines, stderr`remainder, stderr`lines
      ensures stdout.remainder == stderr.remainder == ""
      ensures Fits(Concat(stdout.chunks)) && Fits(Concat(stderr.chunks)) ==>
                Counts(Lines(Concat(stdout.chunks)), Lines(Concat(stderr.chunks)))
      ensures stdout.captured == Tail(Concat(stdout.chunks)) && stderr.captured == Tail(Concat(stderr.chunks))
    {
      ghost var outLines, errLines := stdout.lines, stderr.lines;
      var last := stdout.Flush();
      ProcessStdoutLines(last, outLines, errLines);
      last := stderr.Flush();
      ProcessStderrLines(last, stdout.lines, errLines);
      FlushedCounts(reader, stdout.chunks);
      FlushedCounts(reader, stderr.chunks);
    }
  }
}
