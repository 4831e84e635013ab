/** What a relayed heartbeat looks like on the wire and under its signature. */
module RelayWire {
  import opened Wrappers
  import opened Text

  const PREFIX := "redman-hb1"

  // ----- Numbers -----

  function Doubled(x: real, times: nat): real
    decreases times
  {
    if times == 0 then x else Doubled(2.0 * x, times - 1)
  }

  /** `x` is `m` times two to the `e`, within the bounds of a double. */
  ghost predicate IsDouble(x: real, m: int, e: int) {
    && -0x20_0000_0000_0000 < m < 0x20_0000_0000_0000 && -1074 <= e <= 971
    && if e >= 0 then x == Doubled(m as real, e) else Doubled(x, -e) == m as real
  }

  /** The numbers of the runtime: the finite doubles. */
  type Num = x: real | exists m, e :: IsDouble(x, m, e) ghost witness (assert IsDouble(0.0, 0, 0); 0.0)

  /** How the runtime writes and reads numbers: `number` is None where it is not finite. */
  datatype Numbers = Numbers(show: Num -> string, number: string -> Option<Num>) {
    ghost predicate Faithful() {
      forall x: Num :: ReadsBack(x)
    }

    ghost predicate ReadsBack(x: Num) {
      number(show(x)) == Some(x) && Token(show(x)) && show(x) != "-"
    }
  }

  ghost predicate Token(s: string) {
    s != "" && forall i :: 0 <= i < |s| ==> !IsSpace(s[i])
  }

  /** `ts` is None where the field was not a number. */
  datatype Fields = Fields(
    slug: string, ts: Option<Num>, exitCode: Option<Num>, duration: Option<Num>, signature: string, message: string)

  // ----- One way of writing numbers that reads back -----

  function Strokes(n: nat): string {
    seq(n, _ => '1')
  }

  datatype Parts = Parts(m: int, e: int)

  ghost function PartsOf(x: Num): (p: Parts)
    ensures IsDouble(x, p.m, p.e) && -1074 <= p.e
  {
    var m, e :| IsDouble(x, m, e);
    Parts(m, e)
  }

  function Spelling(p: Parts): seq<string>
    requires -1074 <= p.e
  {
    [if p.m < 0 then "-" else "+", Strokes(if p.m < 0 then -p.m else p.m), Strokes(p.e + 1074)]
  }

  ghost function Spelled(x: Num): string {
    Join(Spelling(PartsOf(x)), '/')
  }

  ghost function ReadSpelled(s: string): Option<Num> {
    if y: Num :| Spelled(y) == s then Some(y) else None
  }

  lemma SpellingSplits(p: Parts)
    requires -1074 <= p.e
    ensures Split(Join(Spelling(p), '/'), '/') == Spelling(p)
  {
    var parts := Spelling(p);
    SplitJoin(parts[..2], parts[2], '/');
    SplitWithout(parts[2], '/');
    assert parts[..2] + [parts[2]] == parts;
  }

  lemma SameSpelling(x: Num, y: Num)
    requires Spelled(x) == Spelled(y)
    ensures PartsOf(x) == PartsOf(y)
  {
    SpellingSplits(PartsOf(x));
    SpellingSplits(PartsOf(y));
    var p, q := Spelling(PartsOf(x)), Spelling(PartsOf(y));
    assert p[0] == q[0] && |p[1]| == |q[1]| && |p[2]| == |q[2]|;
  }

  lemma {:induction false} DoubledIsInjective(x: real, y: real, times: nat)
    requires Doubled(x, times) == Doubled(y, times)
    ensures x == y
    decreases times
  {
    if times > 0 {
      DoubledIsInjective(2.0 * x, 2.0 * y, times - 1);
    }
  }

  lemma SameDouble(x: real, y: real, m: int, e: int)
    requires IsDouble(x, m, e) && IsDouble(y, m, e)
    ensures x == y
  {
    if e < 0 {
      DoubledIsInjective(x, y, -e);
    }
  }

  lemma SpelledIsToken(x: Num)
    ensures Token(Spelled(x)) && |Spelled(x)| > 1
  {
    var parts := Spelling(PartsOf(x));
    assert parts[1..][1..] == [parts[2]];
    assert Join(parts[1..], '/') == parts[1] + ['/'] + parts[2];
    assert Join(parts, '/') == parts[0] + ['/'] + (parts[1] + ['/'] + parts[2]);
  }

  /** There is a faithful way of writing and reading numbers, so assuming one excludes nothing. */
  lemma FaithfulNumbersExist()
    ensures exists n: Numbers :: n.Faithful()
  {
    var n := Numbers(Spelled, ReadSpelled);
    forall x: Num ensures n.ReadsBack(x) {
      SpelledIsToken(x);
      var y: Num :| Spelled(y) == Spelled(x) && ReadSpelled(Spelled(x)) == Some(y);
      SameSpelling(x, y);
      SameDouble(x, y, PartsOf(x).m, PartsOf(x).e);
    }
    assert n.Faithful();
  }

  // ----- Slugs -----

  predicate IsSlugChar(c: char) {
    'a' <= c <= 'z' || '0' <= c <= '9' || c == '.' || c == '_' || c == '-'
  }

  function SlugChars(s: string): (r: string)
    ensures |r| == |s| && forall i :: 0 <= i < |s| ==>
      r[i] == if IsSlugChar(LowerChar(s[i])) then LowerChar(s[i]) else '-'
  {
    if s == [] then []
    else [if IsSlugChar(LowerChar(s[0])) then LowerChar(s[0]) else '-'] + SlugChars(s[1..])
  }

  function NormaliseSlug(value: string): string {
    var chars := SlugChars(Trim(value));
    if |chars| > 64 then chars[..64] else chars
  }

  /** A normalised slug is safe on the wire, and normalising it again changes nothing. */
  lemma SlugIsNormal(value: string)
    ensures var slug := NormaliseSlug(value);
      && |slug| <= 64 && (forall i :: 0 <= i < |slug| ==> IsSlugChar(slug[i]))
      && NormaliseSlug(slug) == slug
  {
    var slug := NormaliseSlug(value);
    assert forall i :: 0 <= i < |slug| ==> IsSlugChar(slug[i]);
    assert TrimStart(slug) == slug && TrimEnd(slug) == slug;
    assert SlugChars(slug) == slug;
  }

  // ----- What is signed -----

  function OptionalText(n: Numbers, x: Option<Num>): string {
    if x.Some? then n.show(x.value) else "-"
  }

  function SigningPayload(n: Numbers, f: Fields): string
    requires f.ts.Some?
  {
    var exitCode, duration := OptionalText(n, f.exitCode), OptionalText(n, f.duration);
    Join([NormaliseSlug(f.slug), n.show(f.ts.value), exitCode, duration, f.message], '\n')
  }

  lemma OptionalTextIsToken(n: Numbers, x: Option<Num>)
    requires n.Faithful()
    ensures Token(OptionalText(n, x)) && (x.Some? ==> OptionalText(n, x) != "-")
    ensures Optional(n, OptionalText(n, x)) == Some(x)
  {
    assert x.Some? ==> n.ReadsBack(x.value);
  }

  lemma TokenHasNoSpace(s: string, c: char)
    requires Token(s) && IsSpace(c)
    ensures c !in s
  {}

  lemma PayloadSplits(n: Numbers, f: Fields)
    requires n.Faithful() && f.ts.Some?
    ensures Split(SigningPayload(n, f), '\n')
         == [NormaliseSlug(f.slug), n.show(f.ts.value), OptionalText(n, f.exitCode), OptionalText(n, f.duration)]
            + Split(f.message, '\n')
  {
    SlugIsNormal(f.slug);
    assert n.ReadsBack(f.ts.value);
    OptionalTextIsToken(n, f.exitCode);
    OptionalTextIsToken(n, f.duration);
    TokenHasNoSpace(n.show(f.ts.value), '\n');
    TokenHasNoSpace(OptionalText(n, f.exitCode), '\n');
    TokenHasNoSpace(OptionalText(n, f.duration), '\n');
    var heads := [NormaliseSlug(f.slug), n.show(f.ts.value), OptionalText(n, f.exitCode), OptionalText(n, f.duration)];
    SplitJoin(heads, f.message, '\n');
    assert heads + [f.message] == [heads[0], heads[1], heads[2], heads[3], f.message];
  }

  /** The payload is unambiguous: equal payloads sign the same heartbeat, absent numbers included. */
  lemma PayloadIsInjective(n: Numbers, f: Fields, g: Fields)
    requires n.Faithful() && f.ts.Some? && g.ts.Some?
    ensures SigningPayload(n, f) == SigningPayload(n, g) <==>
      && NormaliseSlug(f.slug) == NormaliseSlug(g.slug) && f.ts == g.ts
      && f.exitCode == g.exitCode && f.duration == g.duration && f.message == g.message
  {
    if SigningPayload(n, f) == SigningPayload(n, g) {
      PayloadSplits(n, f);
      PayloadSplits(n, g);
      var p, q := Split(SigningPayload(n, f), '\n'), Split(SigningPayload(n, g), '\n');
      assert p[0] == q[0] && p[1] == q[1] && p[2] == q[2] && p[3] == q[3] && p[4..] == q[4..];
      assert n.ReadsBack(f.ts.value) && n.ReadsBack(g.ts.value);
      OptionalTextIsToken(n, f.exitCode);
      OptionalTextIsToken(n, g.exitCode);
      OptionalTextIsToken(n, f.duration);
      OptionalTextIsToken(n, g.duration);
      JoinSplit(f.message, '\n');
      JoinSplit(g.message, '\n');
    }
  }

  // ----- The wire -----

  function Optional(n: Numbers, field: string): Option<Option<Num>> {
    if field == "-" || field == "" then Some(None)
    else if n.number(field).None? then None
    else Some(n.number(field))
  }

  function ParseRelayMessage(n: Numbers, text: string): Option<Fields> {
    var line := Trim(text);
    if !(PREFIX + " " <= line) then None
    else
      var parts := Split(line, ' ');
      if |parts| < 6 then None
      else
        var exitCode, duration := Optional(n, parts[3]), Optional(n, parts[4]);
        if exitCode.None? || duration.None? then None
        else Some(Fields(parts[1], n.number(parts[2]), exitCode.value, duration.value, parts[5], Join(parts[6..], ' ')))
  }

  function Heads(n: Numbers, f: Fields): seq<string>
    requires f.ts.Some?
  {
    [PREFIX, f.slug, n.show(f.ts.value), OptionalText(n, f.exitCode), OptionalText(n, f.duration), f.signature]
  }

  /** What a sender prints: the fixed fields and the message, with single spaces between them. */
  function Line(n: Numbers, f: Fields): string
    requires f.ts.Some?
  {
    Join(Heads(n, f) + [f.message], ' ')
  }

  lemma HeadsAreTokens(n: Numbers, f: Fields)
    requires n.Faithful() && f.ts.Some? && Token(f.slug) && Token(f.signature)
    ensures forall i :: 0 <= i < 6 ==> Token(Heads(n, f)[i])
  {
    assert n.ReadsBack(f.ts.value);
    OptionalTextIsToken(n, f.exitCode);
    OptionalTextIsToken(n, f.duration);
  }

  lemma {:induction false} JoinHeads(heads: seq<string>, last: string, c: char)
    requires heads != []
    ensures Join(heads + [last], c) == Join(heads, c) + [c] + last
  {
    var all := heads + [last];
    assert all[1..] == heads[1..] + [last] && |all| > 1;
    if |heads| > 1 {
      JoinHeads(heads[1..], last, c);
    } else {
      assert all[1..] == [last];
    }
  }

  lemma {:induction false} TrimEndOf(s: string, t: string)
    requires s != "" && !IsSpace(s[|s| - 1])
    ensures TrimEnd(s + t) == s + TrimEnd(t)
  {
    if t == "" {
      assert s + t == s;
    } else {
      assert (s + t)[..|s + t| - 1] == s + t[..|t| - 1];
      TrimEndOf(s, t[..|t| - 1]);
    }
  }

  lemma TrimEndSpace(m: string)
    ensures TrimEnd(" " + m) == if TrimEnd(m) == "" then "" else " " + TrimEnd(m)
  {
    if m == "" {
      assert " " + m == " " && TrimEnd(" ") == "";
    } else if IsSpace(m[|m| - 1]) {
      assert (" " + m)[..|" " + m| - 1] == " " + m[..|m| - 1];
      TrimEndSpace(m[..|m| - 1]);
    }
  }

  /** The fixed part of a line begins and ends with visible characters. */
  lemma HeadEnds(n: Numbers, f: Fields)
    requires n.Faithful() && f.ts.Some? && Token(f.slug) && Token(f.signature)
    ensures var h := Join(Heads(n, f), ' ');
      && PREFIX + " " <= h && !IsSpace(h[|h| - 1]) && Split(h, ' ') == Heads(n, f)
  {
    var heads := Heads(n, f);
    HeadsAreTokens(n, f);
    assert heads[..5] + [f.signature] == heads;
    JoinHeads(heads[..5], f.signature, ' ');
    var h := Join(heads, ' ');
    assert h[|h| - 1] == f.signature[|f.signature| - 1];
    assert h == PREFIX + " " + Join(heads[1..], ' ');
    forall i | 0 <= i < 5 ensures ' ' !in heads[..5][i] { TokenHasNoSpace(heads[i], ' '); }
    TokenHasNoSpace(f.signature, ' ');
    SplitWithout(f.signature, ' ');
    SplitJoin(heads[..5], f.signature, ' ');
  }

  /** Trimming a line that begins and ends its first part visibly. */
  lemma TrimAfterHead(h: string, m: string)
    requires h != "" && !IsSpace(h[0]) && !IsSpace(h[|h| - 1])
    ensures Trim(h + (" " + m)) == if TrimEnd(m) == "" then h else h + (" " + TrimEnd(m))
  {
    TrimEndOf(h, " " + m);
    TrimEndSpace(m);
    assert TrimStart(h + (" " + m)) == h + (" " + m);
    assert h + "" == h;
  }

  lemma TrimmedLine(n: Numbers, f: Fields)
    requires n.Faithful() && f.ts.Some? && Token(f.slug) && Token(f.signature)
    ensures Trim(Line(n, f)) ==
      if TrimEnd(f.message) == "" then Join(Heads(n, f), ' ') else Join(Heads(n, f) + [TrimEnd(f.message)], ' ')
  {
    var h, m := Join(Heads(n, f), ' '), f.message;
    HeadEnds(n, f);
    JoinHeads(Heads(n, f), m, ' ');
    JoinHeads(Heads(n, f), TrimEnd(m), ' ');
    assert h[0] == PREFIX[0];
    assert h + [' '] + m == h + (" " + m) && h + [' '] + TrimEnd(m) == h + (" " + TrimEnd(m));
    TrimAfterHead(h, m);
  }

  /** Reading what a sender printed gives back every field; of the message, all but white space
      at its end. So a sender that signs a message ending in white space is not understood. */
  lemma ParseLine(n: Numbers, f: Fields)
    requires n.Faithful() && f.ts.Some? && Token(f.slug) && Token(f.signature)
    ensures ParseRelayMessage(n, Line(n, f)) == Some(f.(message := TrimEnd(f.message)))
  {
    var heads, tm := Heads(n, f), TrimEnd(f.message);
    var parts := Split(Trim(Line(n, f)), ' ');
    HeadsAreTokens(n, f);
    HeadEnds(n, f);
    TrimmedLine(n, f);
    JoinHeads(heads, tm, ' ');
    assert parts[..6] == heads && Join(parts[6..], ' ') == tm by {
      if tm == "" {
        assert parts == heads && parts[6..] == [];
      } else {
        forall i | 0 <= i < 6 ensures ' ' !in heads[i] { TokenHasNoSpace(heads[i], ' '); }
        SplitJoin(heads, tm, ' ');
        assert parts[6..] == Split(tm, ' ');
        JoinSplit(tm, ' ');
      }
    }
    assert parts[1] == heads[1] && parts[2] == heads[2] && parts[3] == heads[3] && parts[4] == heads[4] &&
      parts[5] == heads[5];
    assert n.ReadsBack(f.ts.value);
    OptionalTextIsToken(n, f.exitCode);
    OptionalTextIsToken(n, f.duration);
  }
}
