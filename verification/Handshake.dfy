/** The signed transcripts of the pairing handshake, and why they are unambiguous. */
module Handshake {
  import opened Wrappers
  import opened Text

  const VERSION := 4

  // ----- JSON of the values a transcript holds (section 7 of RFC 8259) -----

  datatype Value = Str(text: string) | Num(number: nat)

  function HexDigit(n: nat): char
    requires n < 16
  {
    if n < 10 then ('0' as int + n) as char else ('a' as int + n - 10) as char
  }

  function HexValue(c: char): Option<nat> {
    if '0' <= c <= '9' then Some(c as int - '0' as int)
    else if 'a' <= c <= 'f' then Some(c as int - 'a' as int + 10)
    else None
  }

  function EscapeChar(c: char): string {
    if c == '"' then "\\\""
    else if c == '\\' then "\\\\"
    else if c as int == 8 then "\\b"
    else if c as int == 12 then "\\f"
    else if c == '\n' then "\\n"
    else if c == '\r' then "\\r"
    else if c == '\t' then "\\t"
    else if c as int < 32 then "\\u00" + [HexDigit(c as int / 16), HexDigit(c as int % 16)]
    else [c]
  }

  function Escape(s: string): string {
    if s == "" then "" else EscapeChar(s[0]) + Escape(s[1..])
  }

  function Digit(n: nat): char
    requires n < 10
  {
    ('0' as int + n) as char
  }

  function Decimal(n: nat): string {
    if n < 10 then [Digit(n)] else Decimal(n / 10) + [Digit(n % 10)]
  }

  function Encode(v: Value): string {
    match v
    case Str(text) => "\"" + Escape(text) + "\""
    case Num(number) => Decimal(number)
  }

  function EncodeItems(values: seq<Value>): string {
    if values == [] then "" else if |values| == 1 then Encode(values[0])
    else Encode(values[0]) + "," + EncodeItems(values[1..])
  }

  /** JSON.stringify of an array of strings and numbers. */
  function EncodeArray(values: seq<Value>): string {
    "[" + EncodeItems(values) + "]"
  }

  // ----- Reading it back -----

  /** The character an escape sequence stands for, and what follows it. */
  function Unescape(s: string): (r: Option<(char, string)>)
    ensures r.Some? ==> |r.value.1| < |s|
  {
    if s == "" then None
    else if s[0] == '"' || s[0] == '\\' then Some((s[0], s[1..]))
    else if s[0] == 'b' then Some((8 as char, s[1..]))
    else if s[0] == 'f' then Some((12 as char, s[1..]))
    else if s[0] == 'n' then Some(('\n', s[1..]))
    else if s[0] == 'r' then Some(('\r', s[1..]))
    else if s[0] == 't' then Some(('\t', s[1..]))
    else if |s| >= 5 && s[..3] == "u00" && HexValue(s[3]).Some? && HexValue(s[4]).Some? then
      Some(((HexValue(s[3]).value * 16 + HexValue(s[4]).value) as char, s[5..]))
    else None
  }

  /** Reads up to the closing quote. */
  function ReadString(s: string): (r: Option<(string, string)>)
    ensures r.Some? ==> |r.value.1| < |s|
    decreases |s|
  {
    if s == "" then None
    else if s[0] == '"' then Some(("", s[1..]))
    else
      var first := if s[0] == '\\' then Unescape(s[1..]) else Some((s[0], s[1..]));
      if first.None? then None
      else
        var more := ReadString(first.value.1);
        if more.None? then None else Some(([first.value.0] + more.value.0, more.value.1))
  }

  predicate IsDigit(c: char) { '0' <= c <= '9' }

  /** Reads the longest run of digits. */
  function ReadDigits(s: string, n: nat): (r: (nat, string))
    ensures |r.1| <= |s|
  {
    if s != "" && IsDigit(s[0]) then ReadDigits(s[1..], n * 10 + (s[0] as int - '0' as int)) else (n, s)
  }

  function Read(s: string): (r: Option<(Value, string)>)
    ensures r.Some? ==> |r.value.1| < |s|
  {
    if s == "" then None
    else if s[0] == '"' then
      var r := ReadString(s[1..]);
      if r.None? then None else Some((Str(r.value.0), r.value.1))
    else if IsDigit(s[0]) then
      var r := ReadDigits(s[1..], s[0] as int - '0' as int);
      Some((Num(r.0), r.1))
    else None
  }

  function ReadItems(s: string): Option<seq<Value>>
    decreases |s|
  {
    var first := Read(s);
    if first.None? then None
    else if first.value.1 == "]" then Some([first.value.0])
    else if first.value.1 != "" && first.value.1[0] == ',' then
      var more := ReadItems(first.value.1[1..]);
      if more.None? then None else Some([first.value.0] + more.value)
    else None
  }

  function ReadArray(s: string): Option<seq<Value>> {
    if s == "[]" then Some([]) else if s != "" && s[0] == '[' then ReadItems(s[1..]) else None
  }

  lemma EscapeReads(c: char, rest: string)
    ensures c != '"' ==> EscapeChar(c)[0] != '"'
    ensures EscapeChar(c)[0] == '\\' ==> Unescape((EscapeChar(c) + rest)[1..]) == Some((c, rest))
    ensures EscapeChar(c)[0] != '\\' ==> EscapeChar(c) == [c]
    ensures EscapeChar(c)[0] != '"'
  {
    var s := (EscapeChar(c) + rest)[1..];
    if EscapeChar(c)[0] == '\\' {
      if |EscapeChar(c)| == 2 {
        assert s == [EscapeChar(c)[1]] + rest && s[1..] == rest;
      } else {
        var hi, lo := c as int / 16, c as int % 16;
        assert s == "u00" + [HexDigit(hi), HexDigit(lo)] + rest;
        assert s[..3] == "u00" && s[5..] == rest;
        assert HexValue(HexDigit(hi)) == Some(hi) && HexValue(HexDigit(lo)) == Some(lo);
      }
    }
  }

  lemma {:induction false} StringReads(s: string, rest: string)
    ensures ReadString(Escape(s) + "\"" + rest) == Some((s, rest))
  {
    if s == "" {
      assert Escape(s) + "\"" + rest == "\"" + rest;
    } else {
      var tail := Escape(s[1..]) + "\"" + rest;
      StringReads(s[1..], rest);
      EscapeReads(s[0], tail);
      assert Escape(s) + "\"" + rest == EscapeChar(s[0]) + tail;
      assert [s[0]] + s[1..] == s;
    }
  }

  lemma {:induction false} DecimalReads(n: nat, rest: string)
    ensures IsDigit(Decimal(n)[0])
    ensures ReadDigits(Decimal(n) + rest, 0) == ReadDigits(rest, n)
  {
    if n >= 10 {
      DecimalReads(n / 10, [Digit(n % 10)] + rest);
      assert Decimal(n) + rest == Decimal(n / 10) + ([Digit(n % 10)] + rest);
      assert ([Digit(n % 10)] + rest)[1..] == rest;
    } else {
      assert (Decimal(n) + rest)[1..] == rest;
    }
  }

  lemma ValueReads(v: Value, rest: string)
    requires rest != "" && !IsDigit(rest[0])
    ensures Read(Encode(v) + rest) == Some((v, rest))
  {
    match v {
      case Str(text) =>
        assert (Encode(v) + rest)[1..] == Escape(text) + "\"" + rest;
        StringReads(text, rest);
      case Num(n) =>
        DecimalReads(n, rest);
        assert ReadDigits(Decimal(n) + rest, 0) ==
          ReadDigits((Decimal(n) + rest)[1..], Decimal(n)[0] as int - '0' as int);
    }
  }

  lemma ReadItemsOne(s: string, v: Value)
    requires Read(s) == Some((v, "]"))
    ensures ReadItems(s) == Some([v])
  {
  }

  lemma ReadItemsMore(s: string, v: Value, tail: string, more: seq<Value>)
    requires Read(s) == Some((v, "," + tail)) && ReadItems(tail) == Some(more) && tail != ""
    ensures ReadItems(s) == Some([v] + more)
  {
    assert ("," + tail)[1..] == tail && |"," + tail| > 1;
  }

  lemma {:induction false} ItemsRead(values: seq<Value>)
    requires values != []
    ensures ReadItems(EncodeItems(values) + "]") == Some(values)
  {
    if |values| == 1 {
      ValueReads(values[0], "]");
      ReadItemsOne(EncodeItems(values) + "]", values[0]);
      assert values == [values[0]];
    } else {
      var tail := EncodeItems(values[1..]) + "]";
      ItemsRead(values[1..]);
      ValueReads(values[0], "," + tail);
      assert EncodeItems(values) + "]" == Encode(values[0]) + ("," + tail);
      ReadItemsMore(EncodeItems(values) + "]", values[0], tail, values[1..]);
      assert [values[0]] + values[1..] == values;
    }
  }

  /** The encoding reads back, so it loses nothing. */
  lemma ArrayReads(values: seq<Value>)
    ensures ReadArray(EncodeArray(values)) == Some(values)
  {
    if values != [] {
      ItemsRead(values);
      assert EncodeArray(values)[1..] == EncodeItems(values) + "]";
      FirstIsNotClosing(values);
    }
  }

  lemma FirstIsNotClosing(values: seq<Value>)
    requires values != []
    ensures EncodeItems(values) != ""
  {
    match values[0] {
      case Str(_) =>
      case Num(n) => DecimalReads(n, "");
    }
  }

  // ----- The bodies -----

  datatype Offer = Offer(allowedPathPrefix: string, storageLimitBytes: int)

  datatype Request = Request(
    version: nat, role: string, instance: string, token: string, callbackUrl: string, sshPublicKey: Option<string>,
    ephemeralPubkey: string, staticPubkey: string, reciprocalOffer: Option<Offer>, signature: string)

  datatype Callback = Callback(
    version: nat, role: string, token: string, requestStaticPubkey: string, ephemeralPubkey: string,
    staticPubkey: string, encryptedPayload: string, nonce: string, signature: string)

  predicate IsControl(c: char) { c as int < 32 || c as int == 127 }

  predicate BoundedText(s: string, maximum: nat, trim: bool) {
    1 <= |s| <= maximum && (trim ==> Trim(s) == s) && forall i :: 0 <= i < |s| ==> !IsControl(s[i])
  }

  predicate ExactHex(s: string, bytes: nat) {
    |s| == 2 * bytes && forall i :: 0 <= i < |s| ==> HexValue(s[i]).Some?
  }

  function Base64Value(c: char): Option<nat> {
    if 'A' <= c <= 'Z' then Some(c as int - 'A' as int)
    else if 'a' <= c <= 'z' then Some(c as int - 'a' as int + 26)
    else if '0' <= c <= '9' then Some(c as int - '0' as int + 52)
    else if c == '+' then Some(62) else if c == '/' then Some(63) else None
  }

  function Padding(s: string): nat {
    if |s| >= 2 && s[|s| - 2..] == "==" then 2 else if |s| >= 1 && s[|s| - 1] == '=' then 1 else 0
  }

  /** Base64 that encoding its own bytes gives back: whole groups, no bits left over. */
  predicate CanonicalBase64(s: string) {
    var body := s[..|s| - Padding(s)];
    && s != "" && |s| % 4 == 0 && body != ""
    && (forall i :: 0 <= i < |body| ==> Base64Value(body[i]).Some?)
    && (Padding(s) == 1 ==> Base64Value(body[|body| - 1]).value % 4 == 0)
    && (Padding(s) == 2 ==> Base64Value(body[|body| - 1]).value % 16 == 0)
  }

  function DecodedLength(s: string): int { |s| / 4 * 3 - Padding(s) }

  predicate Base64Of(s: string, bytes: nat) { CanonicalBase64(s) && DecodedLength(s) == bytes }

  const MAX_SAFE_INTEGER := 9007199254740991

  function ValidateReciprocalOffer(offer: Option<Offer>): Option<string> {
    if offer.None? then None
    else if !BoundedText(offer.value.allowedPathPrefix, 512, true) || offer.value.allowedPathPrefix[0] != '/'
      then Some("Invalid reciprocal offer path")
    else if !(0 < offer.value.storageLimitBytes <= MAX_SAFE_INTEGER) then Some("Invalid reciprocal offer storage limit")
    else None
  }

  /** None where the envelope is valid; otherwise what is wrong with it first. */
  function ValidateRequestEnvelope(b: Request): Option<string> {
    if b.version != VERSION || b.role != "initiator" then Some("Unsupported handshake version or role")
    else if !BoundedText(b.instance, 128, true) then Some("Invalid pairing instance")
    else if !ExactHex(b.token, 32) then Some("Invalid pairing token")
    else if !BoundedText(b.callbackUrl, 512, true) then Some("Invalid pairing callback URL")
    else if b.sshPublicKey.None? || !BoundedText(b.sshPublicKey.value, 2048, false) then Some("Invalid SSH public key")
    else if !Base64Of(b.ephemeralPubkey, 32) then Some("Invalid ephemeral public key")
    else if !Base64Of(b.staticPubkey, 32) then Some("Invalid static public key")
    else if !Base64Of(b.signature, 64) then Some("Invalid pairing signature")
    else ValidateReciprocalOffer(b.reciprocalOffer)
  }

  function ValidateCallbackEnvelope(b: Callback): Option<string> {
    if b.version != VERSION || b.role != "receiver" then Some("Unsupported handshake version or role")
    else if !ExactHex(b.token, 32) then Some("Invalid pairing token")
    else if !Base64Of(b.requestStaticPubkey, 32) then Some("Invalid initiator public key")
    else if !Base64Of(b.ephemeralPubkey, 32) then Some("Invalid ephemeral public key")
    else if !Base64Of(b.staticPubkey, 32) then Some("Invalid static public key")
    else if !Base64Of(b.signature, 64) then Some("Invalid pairing signature")
    else if !CanonicalBase64(b.encryptedPayload) || DecodedLength(b.encryptedPayload) > 8192 then
      Some("Invalid encrypted payload")
    else if !Base64Of(b.nonce, 24) then Some("Invalid pairing nonce")
    else None
  }

  // ----- The transcripts -----

  const LABEL := "redman-pairing-v4"

  function OrEmpty(s: Option<string>): string { if s.Some? then s.value else "" }

  function OfferPath(offer: Option<Offer>): string { if offer.Some? then offer.value.allowedPathPrefix else "" }

  function OfferLimit(offer: Option<Offer>): int { if offer.Some? then offer.value.storageLimitBytes else 0 }

  function RequestFields(b: Request): seq<Value>
    requires OfferLimit(b.reciprocalOffer) >= 0
  {
    [Str(LABEL), Str("request"), Num(b.version), Str(b.token), Str(b.instance), Str(b.callbackUrl),
     Str(OrEmpty(b.sshPublicKey)), Str(b.ephemeralPubkey), Str(b.staticPubkey),
     Str(OfferPath(b.reciprocalOffer)), Num(OfferLimit(b.reciprocalOffer))]
  }

  function CallbackFields(b: Callback): seq<Value> {
    [Str(LABEL), Str("callback"), Num(b.version), Str(b.token), Str(b.requestStaticPubkey), Str(b.ephemeralPubkey),
     Str(b.staticPubkey), Str(b.encryptedPayload), Str(b.nonce)]
  }

  function RequestTranscript(b: Request): string
    requires OfferLimit(b.reciprocalOffer) >= 0
  {
    EncodeArray(RequestFields(b))
  }

  function CallbackTranscript(b: Callback): string {
    EncodeArray(CallbackFields(b))
  }

  /** Two offers that a transcript does not tell apart. */
  predicate SameOffer(a: Option<Offer>, b: Option<Offer>) {
    OfferPath(a) == OfferPath(b) && OfferLimit(a) == OfferLimit(b)
  }

  /** Exactly what one request transcript fixes, whatever the bodies. */
  lemma RequestTranscriptsEqual(a: Request, b: Request)
    requires OfferLimit(a.reciprocalOffer) >= 0 && OfferLimit(b.reciprocalOffer) >= 0
    ensures RequestTranscript(a) == RequestTranscript(b) <==>
              && a.version == b.version && a.token == b.token && a.instance == b.instance
              && a.callbackUrl == b.callbackUrl && OrEmpty(a.sshPublicKey) == OrEmpty(b.sshPublicKey)
              && a.ephemeralPubkey == b.ephemeralPubkey && a.staticPubkey == b.staticPubkey
              && SameOffer(a.reciprocalOffer, b.reciprocalOffer)
  {
    ArrayReads(RequestFields(a));
    ArrayReads(RequestFields(b));
    if RequestTranscript(a) == RequestTranscript(b) {
      SameItems(RequestFields(a), RequestFields(b));
    }
  }

  lemma SameItems(a: seq<Value>, b: seq<Value>)
    requires a == b
    ensures forall i {:trigger a[i]} {:trigger b[i]} :: 0 <= i < |a| ==> a[i] == b[i]
  {
  }

  /** What the envelope's checks add to the transcript. */
  predicate Determined(b: Request) {
    && b.version == VERSION && b.role == "initiator" && b.sshPublicKey.Some?
    && (b.reciprocalOffer.Some? ==>
      b.reciprocalOffer.value.allowedPathPrefix != "" && b.reciprocalOffer.value.storageLimitBytes > 0)
  }

  lemma ValidIsDetermined(b: Request)
    requires ValidateRequestEnvelope(b).None?
    ensures Determined(b)
  {
  }

  lemma DeterminedRequestsUnambiguous(a: Request, b: Request)
    requires Determined(a) && Determined(b)
    ensures RequestTranscript(a) == RequestTranscript(b) <==> a.(signature := b.signature) == b
  {
    RequestTranscriptsEqual(a, b);
  }

  /** Among valid envelopes a request transcript fixes the whole body but its signature: also
      whether there is a reciprocal offer, and what it offers. */
  lemma ValidRequestsUnambiguous(a: Request, b: Request)
    requires ValidateRequestEnvelope(a).None? && ValidateRequestEnvelope(b).None?
    ensures OfferLimit(a.reciprocalOffer) >= 0 && OfferLimit(b.reciprocalOffer) >= 0
    ensures RequestTranscript(a) == RequestTranscript(b) <==> a.(signature := b.signature) == b
  {
    ValidIsDetermined(a);
    ValidIsDetermined(b);
    DeterminedRequestsUnambiguous(a, b);
  }

  /** A callback transcript fixes everything but the role and the signature, whatever the bodies. */
  lemma CallbackTranscriptsEqual(a: Callback, b: Callback)
    ensures CallbackTranscript(a) == CallbackTranscript(b) <==> a.(role := b.role, signature := b.signature) == b
  {
    ArrayReads(CallbackFields(a));
    ArrayReads(CallbackFields(b));
    if CallbackTranscript(a) == CallbackTranscript(b) {
      SameItems(CallbackFields(a), CallbackFields(b));
    }
  }

  lemma ValidCallbacksUnambiguous(a: Callback, b: Callback)
    requires ValidateCallbackEnvelope(a).None? && ValidateCallbackEnvelope(b).None?
    ensures CallbackTranscript(a) == CallbackTranscript(b) <==> a.(signature := b.signature) == b
  {
    CallbackTranscriptsEqual(a, b);
  }

  /** A signature on one kind of message never serves for the other. */
  lemma RequestIsNoCallback(a: Request, b: Callback)
    requires OfferLimit(a.reciprocalOffer) >= 0
    ensures RequestTranscript(a) != CallbackTranscript(b)
  {
    ArrayReads(RequestFields(a));
    ArrayReads(CallbackFields(b));
    assert |RequestFields(a)| == 11 && |CallbackFields(b)| == 9;
  }

  /** Without the envelope's checks an offer of nothing reads like no offer at all. */
  lemma BlankOfferIsAmbiguous(b: Request)
    ensures RequestTranscript(b.(reciprocalOffer := None)) ==
      RequestTranscript(b.(reciprocalOffer := Some(Offer("", 0))))
    ensures ValidateReciprocalOffer(Some(Offer("", 0))).Some?
  {
    RequestTranscriptsEqual(b.(reciprocalOffer := None), b.(reciprocalOffer := Some(Offer("", 0))));
  }
}
