/** Matching a client address against a trusted range, byte by byte, and what that comes to for
    the 128-bit values. */
module Cidr {
  import opened Wrappers

  // ----- Bits and values -----

  /** Bit `j` of a byte, the most significant first. */
  predicate Bit(b: bv8, j: nat) {
    if j == 0 then b & 0x80 != 0 else if j == 1 then b & 0x40 != 0
    else if j == 2 then b & 0x20 != 0 else if j == 3 then b & 0x10 != 0
    else if j == 4 then b & 0x08 != 0 else if j == 5 then b & 0x04 != 0
    else if j == 6 then b & 0x02 != 0 else b & 0x01 != 0
  }

  function ByteBits(b: bv8): (bits: seq<bool>)
    ensures |bits| == 8
  {
    seq(8, j requires 0 <= j < 8 => Bit(b, j))
  }

  function Bits(bytes: seq<bv8>): (bits: seq<bool>)
    ensures |bits| == 8 * |bytes|
  {
    if bytes == [] then [] else Bits(bytes[..|bytes| - 1]) + ByteBits(bytes[|bytes| - 1])
  }

  function ValueOf(bits: seq<bool>): nat {
    if bits == [] then 0 else 2 * ValueOf(bits[..|bits| - 1]) + if bits[|bits| - 1] then 1 else 0
  }

  /** The number an address stands for. */
  function Value(bytes: seq<bv8>): nat { ValueOf(Bits(bytes)) }

  function ShiftedRight(value: nat, places: nat): nat {
    if places == 0 then value else ShiftedRight(value / 2, places - 1)
  }

  lemma {:induction false} ShiftLeavesTopBits(bits: seq<bool>, b: nat)
    requires b <= |bits|
    ensures ShiftedRight(ValueOf(bits), |bits| - b) == ValueOf(bits[..b])
    decreases |bits|
  {
    if b == |bits| {
      assert bits[..b] == bits;
    } else {
      var n := |bits| - 1;
      ShiftLeavesTopBits(bits[..n], b);
      assert bits[..n][..b] == bits[..b];
      assert ValueOf(bits) / 2 == ValueOf(bits[..n]);
    }
  }

  lemma {:induction false} ValueIsInjective(s: seq<bool>, t: seq<bool>)
    requires |s| == |t| && ValueOf(s) == ValueOf(t)
    ensures s == t
  {
    if s != [] {
      var n := |s| - 1;
      ValueIsInjective(s[..n], t[..n]);
      assert s == s[..n] + [s[n]] && t == t[..n] + [t[n]];
    }
  }

  /** The top `b` bits of an address, as a number. */
  function Top(bytes: seq<bv8>, b: nat): nat
    requires b <= 8 * |bytes|
  {
    ShiftedRight(Value(bytes), 8 * |bytes| - b)
  }

  lemma TopBitsAgree(s: seq<bool>, t: seq<bool>, n: nat)
    requires |s| == |t| && n <= |s|
    ensures ShiftedRight(ValueOf(s), |s| - n) == ShiftedRight(ValueOf(t), |t| - n) <==> s[..n] == t[..n]
  {
    ShiftLeavesTopBits(s, n);
    ShiftLeavesTopBits(t, n);
    if ValueOf(s[..n]) == ValueOf(t[..n]) {
      ValueIsInjective(s[..n], t[..n]);
    }
  }

  /** Bit by bit. */
  predicate AgreeTop(a: seq<bv8>, b: seq<bv8>, n: nat)
    requires n <= 8 * |a| && n <= 8 * |b|
  {
    Bits(a)[..n] == Bits(b)[..n]
  }

  /** Top bits agree as numbers just when they agree one by one. */
  lemma TopsAgree(a: seq<bv8>, b: seq<bv8>, n: nat)
    requires |a| == |b| && n <= 8 * |a|
    ensures Top(a, n) == Top(b, n) <==> AgreeTop(a, b, n)
  {
    TopBitsAgree(Bits(a), Bits(b), n);
  }

  // ----- Masks -----

  /** 0xff shifted left by 8 - bits, within a byte. */
  function Mask(bits: nat): bv8
    requires 0 < bits < 8
  {
    var ff: bv8 := 0xff;
    if bits == 1 then ff << 7 else if bits == 2 then ff << 6 else if bits == 3 then ff << 5
    else if bits == 4 then ff << 4 else if bits == 5 then ff << 3 else if bits == 6 then ff << 2 else ff << 1
  }

  lemma MaskIs(bits: nat)
    requires 0 < bits < 8
    ensures Mask(bits) == (if bits == 1 then 0x80 else if bits == 2 then 0xc0 else if bits == 3 then 0xe0
                           else if bits == 4 then 0xf0 else if bits == 5 then 0xf8
                           else if bits == 6 then 0xfc else 0xfe)
  {
  }

  predicate SameBit(a: bv8, b: bv8, bit: bv8) { (a & bit != 0) == (b & bit != 0) }

  lemma MaskSplits(a: bv8, b: bv8)
    ensures a & 0x80 == b & 0x80 <==> SameBit(a, b, 0x80)
    ensures a & 0xc0 == b & 0xc0 <==> a & 0x80 == b & 0x80 && SameBit(a, b, 0x40)
    ensures a & 0xe0 == b & 0xe0 <==> a & 0xc0 == b & 0xc0 && SameBit(a, b, 0x20)
    ensures a & 0xf0 == b & 0xf0 <==> a & 0xe0 == b & 0xe0 && SameBit(a, b, 0x10)
    ensures a & 0xf8 == b & 0xf8 <==> a & 0xf0 == b & 0xf0 && SameBit(a, b, 0x08)
    ensures a & 0xfc == b & 0xfc <==> a & 0xf8 == b & 0xf8 && SameBit(a, b, 0x04)
    ensures a & 0xfe == b & 0xfe <==> a & 0xfc == b & 0xfc && SameBit(a, b, 0x02)
  {
  }

  predicate MaskedAlike(a: bv8, b: bv8, bits: nat)
    requires 0 < bits < 8
  {
    a & Mask(bits) == b & Mask(bits)
  }

  predicate SameUpTo(a: bv8, b: bv8, bits: nat) {
    forall j :: 0 <= j < bits ==> Bit(a, j) == Bit(b, j)
  }

  lemma SpellOut(a: bv8, b: bv8, bits: nat)
    requires bits <= 8
    ensures SameUpTo(a, b, bits) <==>
              && (bits > 0 ==> Bit(a, 0) == Bit(b, 0)) && (bits > 1 ==> Bit(a, 1) == Bit(b, 1))
              && (bits > 2 ==> Bit(a, 2) == Bit(b, 2)) && (bits > 3 ==> Bit(a, 3) == Bit(b, 3))
              && (bits > 4 ==> Bit(a, 4) == Bit(b, 4)) && (bits > 5 ==> Bit(a, 5) == Bit(b, 5))
              && (bits > 6 ==> Bit(a, 6) == Bit(b, 6)) && (bits > 7 ==> Bit(a, 7) == Bit(b, 7))
  {
  }

  /** Masking compares just the top bits of a byte. */
  lemma MaskComparesTop(a: bv8, b: bv8, bits: nat)
    requires 0 < bits < 8
    ensures MaskedAlike(a, b, bits) <==> SameUpTo(a, b, bits)
  {
    MaskIs(bits);
    MaskSplits(a, b);
    SpellOut(a, b, bits);
  }

  lemma SameUpToIsPrefix(a: bv8, b: bv8, bits: nat)
    requires bits <= 8
    ensures SameUpTo(a, b, bits) <==> ByteBits(a)[..bits] == ByteBits(b)[..bits]
  {
    if ByteBits(a)[..bits] == ByteBits(b)[..bits] {
      forall j | 0 <= j < bits ensures Bit(a, j) == Bit(b, j) {
        assert ByteBits(a)[..bits][j] == ByteBits(b)[..bits][j];
      }
    }
  }

  lemma EqualWhenBitsAre(a: bv8, b: bv8)
    ensures a == b <==> SameUpTo(a, b, 8)
  {
    SpellOut(a, b, 8);
  }

  lemma BytesAreTheirBits(a: bv8, b: bv8)
    ensures a == b <==> ByteBits(a)[..8] == ByteBits(b)[..8]
  {
    EqualWhenBitsAre(a, b);
    SameUpToIsPrefix(a, b, 8);
  }

  /** The bits up to some place within byte `i`. */
  lemma {:induction false} BitsUpTo(a: seq<bv8>, i: nat, m: nat)
    requires i < |a| && m <= 8
    ensures Bits(a)[..8 * i + m] == Bits(a[..i]) + ByteBits(a[i])[..m]
    decreases |a|
  {
    var n := |a| - 1;
    if i < n {
      BitsUpTo(a[..n], i, m);
      assert a[..n][..i] == a[..i];
      assert Bits(a)[..8 * i + m] == Bits(a[..n])[..8 * i + m];
    }
  }

  /** With equal bytes before byte `i`, agreement up to a place within it is up to that byte. */
  lemma AgreementIsUpToByte(a: seq<bv8>, b: seq<bv8>, i: nat, m: nat)
    requires |a| == |b| && i < |a| && m <= 8 && a[..i] == b[..i]
    ensures Bits(a)[..8 * i + m] == Bits(b)[..8 * i + m] <==> ByteBits(a[i])[..m] == ByteBits(b[i])[..m]
  {
    BitsUpTo(a, i, m);
    BitsUpTo(b, i, m);
    var p := Bits(a[..i]);
    assert (p + ByteBits(a[i])[..m])[|p|..] == ByteBits(a[i])[..m];
    assert (p + ByteBits(b[i])[..m])[|p|..] == ByteBits(b[i])[..m];
  }

  lemma DifferenceStays(a: seq<bv8>, b: seq<bv8>, i: nat, n: nat)
    requires |a| == |b| && i < |a| && 8 * i + 8 <= n <= 8 * |a| && a[..i] == b[..i] && a[i] != b[i]
    ensures !AgreeTop(a, b, n)
  {
    AgreementIsUpToByte(a, b, i, 8);
    BytesAreTheirBits(a[i], b[i]);
    assert Bits(a)[..n][..8 * i + 8] == Bits(a)[..8 * i + 8] && Bits(b)[..n][..8 * i + 8] == Bits(b)[..8 * i + 8];
  }

  // ----- The match -----

  /** A written range as parsed: its address and the number after the slash, where they are one. */
  datatype Range = Range(address: Option<seq<bv8>>, bits: Option<int>, colon: bool)

  /** How many top bits of the 128 must agree. */
  function Effective(range: Range): int
    requires range.bits.Some?
  {
    if !range.colon && range.bits.value <= 32 then range.bits.value + 96 else range.bits.value
  }

  function Clamp(n: int): nat { if n < 0 then 0 else if n > 128 then 128 else n }

  /** A pair of addresses matches a number of bits when that many top bits agree. */
  predicate Matches(a: seq<bv8>, b: seq<bv8>, bits: int)
    requires |a| == |b| == 16
  {
    Top(a, Clamp(bits)) == Top(b, Clamp(bits))
  }

  lemma PartialByte(a: seq<bv8>, b: seq<bv8>, i: nat, bits: nat, alike: bool)
    requires |a| == |b| && i < |a| && 0 < bits < 8 && a[..i] == b[..i]
    requires alike <==> SameUpTo(a[i], b[i], bits)
    ensures alike <==> AgreeTop(a, b, 8 * i + bits)
  {
    SameUpToIsPrefix(a[i], b[i], bits);
    AgreementIsUpToByte(a, b, i, bits);
  }

  lemma WholeBytes(a: seq<bv8>, b: seq<bv8>, i: nat)
    requires |a| == |b| && i <= |a| && a[..i] == b[..i]
    ensures AgreeTop(a, b, 8 * i)
  {
    if i < |a| {
      BitsUpTo(a, i, 0);
      BitsUpTo(b, i, 0);
    } else {
      assert a == a[..i] && b == b[..i];
    }
  }

  /** The loop over the bytes, for every whole number of bits. */
  method CompareBytes(a: seq<bv8>, b: seq<bv8>, wanted: int) returns (r: bool)
    requires |a| == |b| == 16
    ensures r <==> AgreeTop(a, b, Clamp(wanted))
  {
    var bits := wanted;
    var i := 0;
    while i < 16
      invariant 0 <= i <= 16 && bits == wanted - 8 * i && 8 * i <= Clamp(wanted) && a[..i] == b[..i]
    {
      if bits >= 8 {
        if a[i] != b[i] {
          DifferenceStays(a, b, i, Clamp(wanted));
          return false;
        }
        assert a[..i + 1] == a[..i] + [a[i]] && b[..i + 1] == b[..i] + [b[i]];
        bits := bits - 8;
      } else if bits > 0 {
        MaskComparesTop(a[i], b[i], bits);
        PartialByte(a, b, i, bits, MaskedAlike(a[i], b[i], bits));
        return MaskedAlike(a[i], b[i], bits);
      } else {
        break;
      }
      i := i + 1;
    }
    WholeBytes(a, b, i);
    return true;
  }

  method InCidr(ip: Option<seq<bv8>>, range: Range) returns (r: bool)
    requires ip.Some? ==> |ip.value| == 16
    requires range.address.Some? ==> |range.address.value| == 16
    ensures r <==>
      && ip.Some? && range.address.Some? && range.bits.Some?
      && Matches(ip.value, range.address.value, Effective(range))
  {
    if ip.None? || range.address.None? || range.bits.None? { return false; }
    r := CompareBytes(ip.value, range.address.value, Effective(range));
    TopsAgree(ip.value, range.address.value, Clamp(Effective(range)));
  }

  // ----- IPv4 ranges -----

  const MAPPED: seq<bv8> := [0, 0, 0, 0, 0, 0, 0, 0, 0, 0, 0xff, 0xff]

  /** An IPv4 address as its four bytes mapped into IPv6 (section 2.5.5.2 of RFC 4291). */
  function MapV4(v4: seq<bv8>): (bytes: seq<bv8>)
    requires |v4| == 4
    ensures |bytes| == 16
  {
    MAPPED + v4
  }

  lemma {:induction false} BitsOfSum(a: seq<bv8>, b: seq<bv8>)
    ensures Bits(a + b) == Bits(a) + Bits(b)
    decreases |b|
  {
    if b == [] {
      assert a + b == a;
    } else {
      var n := |b| - 1;
      assert (a + b)[..|a + b| - 1] == a + b[..n];
      BitsOfSum(a, b[..n]);
      assert Bits(a) + (Bits(b[..n]) + ByteBits(b[n])) == Bits(a) + Bits(b[..n]) + ByteBits(b[n]);
    }
  }

  /** How many top bits of the 32 a number after an IPv4 address makes significant. From 33 on it is
      taken as one of the 128, the first 96 of which all mapped addresses share. */
  function V4Bits(bits: int): nat {
    if bits <= 0 then 0
    else if bits <= 32 then bits
    else if bits <= 96 then 0
    else if bits <= 128 then bits - 96
    else 32
  }

  lemma MappedTops(client: seq<bv8>, address: seq<bv8>, n: nat)
    requires |client| == |address| == 4 && n <= 128
    ensures AgreeTop(MapV4(client), MapV4(address), n) <==> n <= 96 || AgreeTop(client, address, n - 96)
  {
    BitsOfSum(MAPPED, client);
    BitsOfSum(MAPPED, address);
    var p, c, d := Bits(MAPPED), Bits(client), Bits(address);
    assert |p| == 96;
    if n <= 96 {
      assert (p + c)[..n] == p[..n] == (p + d)[..n];
    } else {
      assert (p + c)[..n] == p + c[..n - 96] && (p + d)[..n] == p + d[..n - 96];
      assert (p + c[..n - 96])[96..] == c[..n - 96] && (p + d[..n - 96])[96..] == d[..n - 96];
    }
  }

  /** What a range written in IPv4 means to an IPv4 client, whatever number is after the slash: up
      to /32 that many top bits of the 32-bit addresses agree (section 3.1 of RFC 4632), from there
      to /96 every client matches, and beyond that the number less 96 counts. */
  lemma V4RangeMeans(client: seq<bv8>, address: seq<bv8>, bits: int)
    requires |client| == |address| == 4
    ensures var n := Effective(Range(Some(MapV4(address)), Some(bits), false));
      Matches(MapV4(client), MapV4(address), n) <==> Top(client, V4Bits(bits)) == Top(address, V4Bits(bits))
  {
    var n := Clamp(Effective(Range(Some(MapV4(address)), Some(bits), false)));
    TopsAgree(MapV4(client), MapV4(address), n);
    MappedTops(client, address, n);
    TopsAgree(client, address, V4Bits(bits));
    assert if n <= 96 then V4Bits(bits) == 0 else V4Bits(bits) == n - 96;
  }

  /** A number of bits of zero or less matches everyone. */
  lemma NonPositiveMatchesAll(a: seq<bv8>, b: seq<bv8>, bits: int)
    requires |a| == |b| == 16 && bits <= 0
    ensures Matches(a, b, bits)
  {
    TopsAgree(a, b, 0);
  }
}
