/** The TypeScript varint codec (web/src/wire/varint.ts). Its numbers are doubles. The encoder takes
    non-negative integers of at most 2^53 - 1, where double arithmetic is exact; the decoder runs past
    them in the two widest forms, where every sum is rounded. The bit operators first reduce their
    operands to 32-bit integers. */
module TsVarint {
  import opened Words
  import opened Codec
  import opened Varint
  import opened Doubles

  const MAX_SAFE_INTEGER: int := 0x1f_ffff_ffff_ffff

  type number = n: int | 0 <= n <= MAX_SAFE_INTEGER

  // ----- 32-bit operators -----

  /** The abstract operation ToInt32 of ECMAScript. */
  function ToInt32(v: int): int {
    var m := v % U32;
    if m >= 0x8000_0000 then m - U32 else m
  }

  /** `v & mask` for a mask of low-order ones: the 32 bits of `ToInt32(v)`, cut off. */
  function BitAnd(v: int, mask: nat): nat {
    ToInt32(v) % U32 % (mask + 1)
  }

  /** On the masks of this file the detour over signed 32-bit integers does no harm. */
  lemma BitAndIsRemainder(v: number, mask: nat)
    requires mask in {0xff, 0x7f, 0x3fff, 0x1f_ffff, 0x0fff_ffff}
    ensures BitAnd(v, mask) == v % (mask + 1)
  {
    var m := mask + 1;
    var q := U32 / m;
    assert q * m == U32;
    WrapKeepsLowBits(v, m, q);
  }

  /** `v >> n`: an arithmetic shift of `ToInt32(v)`, which rounds down. */
  function ShiftRight(v: int, n: nat): int {
    ToInt32(v) / Pow2(n)
  }

  /** Under the mask, shifting the signed 32-bit integer is the same as dividing the double. */
  lemma ShiftIsDivision(v: number)
    ensures BitAnd(ShiftRight(v, 8), 0xff) == BitAnd(v / 256, 0xff)
  {
    assert Pow2(8) == 256 by {
      assert Pow2(4) == 16;
    }
    BitAndIsRemainder(v / 256, 0xff);
    WrapOfSigned(ShiftRight(v, 8));
    hide BitAnd, Pow2;
    SecondByte(v / U32, v % U32);
    DivModLaw(v, U32);
  }

  lemma SecondByte(high: nat, low: nat)
    requires low < U32
    ensures (high * U32 + low) / 256 % 0x100 == low / 256 % 0x100
    ensures (low - U32) / 256 % 0x100 == low / 256 % 0x100
  {
    var k := low / 256;
    QuotientUnique(high * U32 + low, 256, high * 0x100_0000 + k, low % 256);
    AddMultiple(high * 0x1_0000, 0x100, k);
    assert (low - U32) / 256 == k - 0x100_0000;
    assert k == (k - 0x100_0000) + 0x1_0000 * 0x100;
  }

  lemma WrapOfSigned(w: int)
    ensures BitAnd(w, 0xff) == w % 0x100
  {
    assert ToInt32(w) % U32 == w % U32;
    assert w == w / U32 * 0x100_0000 * 0x100 + w % U32;
  }

  lemma WrapKeepsLowBits(v: nat, m: nat, q: nat)
    requires m > 0 && q * m == U32
    ensures v % U32 % m == v % m
  {
    AddMultiple(v / U32 * q, m, v % U32);
    assert v / U32 * (q * m) == v / U32 * q * m;
  }

  // ----- specification -----

  /** The number that the decoder makes of the value `v` of a `k`-byte form. In the two widest forms the
      three lowest bits of the seventh byte are rounded off and the bytes behind it are lost, before the
      prefix is stripped. */
  function Received(v: u64, k: nat): nat
    requires IsWidth(k)
  {
    if k <= 6 then v
    else if k == 8 then RoundTo(v / 0x100, 8) * 0x100 % 0x100_0000_0000_0000
    else RoundTo(v / 0x1_0000, 8) * 0x1_0000 % TWO53
  }

  function VarintByteLength(firstByte: byte): (r: Result<nat>)
    ensures r == if firstByte in {0xfc, 0xfd} then Err else Ok(Width(firstByte))
  {
    if firstByte < 0x80 then Ok(1)
    else if 0x80 <= firstByte < 0xc0 then Ok(2)
    else if 0xc0 <= firstByte < 0xe0 then Ok(3)
    else if 0xe0 <= firstByte < 0xf0 then Ok(4)
    else if 0xf0 <= firstByte < 0xf8 then Ok(5)
    else if 0xf8 <= firstByte < 0xfc then Ok(6)
    else if firstByte == 0xfc || firstByte == 0xfd then Err
    else if firstByte == 0xfe then Ok(8)
    else Ok(9)
  }

  function ParseNumber(s: bytes): Parse<nat> {
    if s == [] || VarintByteLength(s[0]).Err? then Reject
    else
      var k := VarintByteLength(s[0]).value;
      if |s| < k then Reject
      else Accept(Received(ValueOf(s[..k]) % Capacity(k), k), s[k..])
  }

  /** The values that come through the `k`-byte form unchanged. */
  predicate Survives(v: u64, k: nat) {
    k <= 6 || (k == 8 && v % 0x800 == 0) || (k == 9 && v % 0x8_0000 == 0 && v < TWO53)
  }

  lemma ReceivedIff(v: u64, k: nat)
    requires IsWidth(k) && v < Capacity(k)
    ensures Received(v, k) == v <==> Survives(v, k)
  {
    if k == 8 {
      MultiplesSurvive(v, 0x100, 0x100_0000_0000_0000, 0x2000_0000_0000);
    } else if k == 9 {
      MultiplesSurvive(v, 0x1_0000, TWO53, 0x4_0000_0000);
    }
  }

  lemma MultiplesSurvive(v: nat, unit: nat, modulus: nat, d: nat)
    requires unit > 0 && modulus == d * (8 * unit) && d > 0
    ensures RoundTo(v / unit, 8) * unit % modulus == v <==> v % (8 * unit) == 0 && v < modulus
  {
    hide RoundTo;
    var r := RoundTo(v / unit, 8);
    RoundToEight(0, v / unit);
    var m := r / 8;
    assert r * unit == m * (8 * unit) by {
      assert r == m * 8;
    }
    RemainderOfMultiple(m, 8 * unit, d);
    if v % (8 * unit) == 0 && v < modulus {
      MultipleIsKept(v, unit);
      QuotientUnique(v, modulus, 0, v);
    }
  }

  lemma MultipleIsKept(v: nat, unit: nat)
    requires unit > 0 && v % (8 * unit) == 0
    ensures RoundTo(v / unit, 8) * unit == v
  {
    var q := v / (8 * unit);
    DivModLaw(v, 8 * unit);
    assert v == 8 * q * unit;
    QuotientUnique(v, unit, 8 * q, 0);
    QuotientUnique(8 * q, 8, q, 0);
    RoundToEight(0, 8 * q);
    hide RoundTo;
  }

  /** What is left of a multiple of `u` modulo a multiple of `u` is one too. */
  lemma RemainderOfMultiple(m: nat, u: nat, d: nat)
    requires u > 0 && d > 0
    ensures d * u > 0 && m * u % (d * u) % u == 0 && m * u % (d * u) < d * u
  {
    DivModLaw(m, d);
    assert m * u == m / d * (d * u) + m % d * u;
    assert m % d * u < d * u;
    QuotientUnique(m * u, d * u, m / d, m % d * u);
    QuotientUnique(m % d * u, u, m % d, 0);
  }

  /** Both decoders, on every string: they agree on what is read over, unless the first byte is 0xfd, which
      only the Rust decoder takes for a 9-byte form. They agree on the value if and only if it takes at most
      six bytes, or eight and is a multiple of 2^11, or nine and is a multiple of 2^19 below 2^53. */
  lemma AgreesWithRust(s: bytes)
    ensures s != [] && s[0] == 0xfd ==> ParseNumber(s).Reject? && (ParseVarint(s).Accept? <==> |s| >= 9)
    ensures s == [] || s[0] != 0xfd ==>
              && (ParseNumber(s).Accept? <==> ParseVarint(s).Accept?)
              && (ParseVarint(s).Accept? ==>
                    && ParseNumber(s).rest == ParseVarint(s).rest
                    && (ParseNumber(s).value == ParseVarint(s).value <==> Survives(ParseVarint(s).value, Width(s[0]))))
  {
    hide Received, Survives, ValueOf, Capacity, IsWidth;
    if ParseNumber(s).Accept? {
      WidthIsWidth(s[0]);
      ReceivedIff(ParseVarint(s).value, Width(s[0]));
    }
  }

  lemma WidthIsWidth(b: byte)
    requires VarintByteLength(b).Ok?
    ensures IsWidth(Width(b))
  {
  }

  /** A safe integer that the TypeScript encoder writes comes back from the TypeScript decoder if and only if
      it is below 2^42 or a multiple of 2^11. */
  lemma OwnRoundTrip(value: number, rest: bytes)
    ensures var back := ParseNumber(Encode(value) + rest);
            && back.Accept? && back.rest == rest
            && (back.value == value <==> value < 0x400_0000_0000 || value % 0x800 == 0)
  {
    var s := Encode(value) + rest;
    RoundTrip(value, rest);
    FirstOfEncoding(value);
    assert s[0] == Encode(value)[0];
    hide Encode, ParseVarint, ParseNumber;
    AgreesWithRust(s);
  }

  lemma FirstOfEncoding(value: number)
    ensures Width(Encode(value)[0]) == WidthFor(value) && VarintByteLength(Encode(value)[0]).Ok?
  {
    HighBits(value, WidthFor(value));
  }

  /** The first number that does not come back. */
  lemma FirstLoss()
    ensures ParseNumber(Encode(0x400_0000_0001)) == Accept(0x400_0000_0000, [])
  {
    var s := Encode(0x400_0000_0001);
    assert s + [] == s;
    RoundTrip(0x400_0000_0001, []);
    HighBits(0x400_0000_0001, 8);
    assert s[0] == Prefix(8) + 0x400_0000_0001 / Pow256(7);
    assert Width(s[0]) == 8 && s[0] != 0xfd;
    hide Encode, EncodeAs;
    assert RoundTo(0x400_0000_0001 / 0x100, 8) == 0x4_0000_0000;
  }

  lemma BigEndianHead(v: nat, k: nat)
    requires k > 0
    ensures BigEndian(v, k) == [ByteAt(v, k - 1)] + BigEndian(v, k - 1)
  {
    BigEndianAt(v, k, k - 1);
    forall j | 1 <= j < k ensures BigEndian(v, k)[j] == BigEndian(v, k - 1)[j - 1] {
      BigEndianAt(v, k, k - 1 - j);
      BigEndianAt(v, k - 1, k - 1 - j);
    }
  }

  // ----- the code -----

  /** Largest value, byte count and prefix of the tiers below 2^42. */
  const TIERS: seq<(number, nat, byte)> := [
    (0x7f, 1, 0x00), (0x3fff, 2, 0x80), (0x1f_ffff, 3, 0xc0),
    (0x0fff_ffff, 4, 0xe0), (0x07_ffff_ffff, 5, 0xf0), (0x03ff_ffff_ffff, 6, 0xf8)]

  /** The loop that all tiers share: the bytes from the last one down to `first`. */
  method FillBigEndian(buf: array<byte>, first: nat, value: number)
    requires first <= buf.Length
    modifies buf
    ensures buf[first..] == BigEndian(value, buf.Length - first)
    ensures buf[..first] == old(buf[..first])
  {
    var v: number := value;
    var i := buf.Length;
    while i > first
      invariant first <= i <= buf.Length
      invariant buf[i..] == BigEndian(value, buf.Length - i)
      invariant v == Shifted(value, buf.Length - i)
      invariant buf[..first] == old(buf[..first])
    {
      ghost var done := buf.Length - i;
      ghost var tail := buf[i..];
      i := i - 1;
      BitAndIsRemainder(v, 0xff);
      buf[i] := BitAnd(v, 0xff);
      NextByte(value, done);
      assert buf[i..] == [buf[i]] + tail;
      v := v / 256;
    }
  }

  /** `v` without its `n` low-order bytes. */
  function Shifted(v: nat, n: nat): nat {
    if n == 0 then v else Shifted(v / 256, n - 1)
  }

  lemma {:induction false} NextByte(v: nat, n: nat)
    ensures BigEndian(v, n + 1) == [Shifted(v, n) % 256] + BigEndian(v, n)
    ensures Shifted(v, n + 1) == Shifted(v, n) / 256
  {
    if n > 0 {
      NextByte(v / 256, n - 1);
    }
  }

  /** The bytes of the Rust encoder, for every safe integer. */
  method EncodeVarint(value: number) returns (buf: array<byte>)
    ensures fresh(buf) && buf[..] == Encode(value)
  {
    hide Encode, EncodeAs;
    for i := 0 to |TIERS|
      invariant forall j :: 0 <= j < i ==> value > TIERS[j].0
    {
      var (maxVal, byteCount, prefix) := TIERS[i];
      if value <= maxVal {
        TierIsWidth(value, i);
        buf := new byte[byteCount];
        FillBigEndian(buf, 0, value);
        FirstByteOfTier(value, byteCount);
        assert buf[0] == buf[..][0] && buf[..] == buf[0..];
        buf[0] := buf[0] + prefix;
        return;
      }
    }
    // A safe integer always fits the 8-byte tier.
    assert TIERS[5].0 < value <= 0x00ff_ffff_ffff_ffff;
    buf := new byte[8];
    buf[0] := 0xfe;
    FillBigEndian(buf, 1, value);
    WideTier(value, 8);
    assert buf[..] == buf[..1] + buf[1..];
  }

  lemma TierIsWidth(value: number, i: nat)
    requires i < |TIERS| && value <= TIERS[i].0
    requires forall j :: 0 <= j < i ==> value > TIERS[j].0
    ensures WidthFor(value) == TIERS[i].1 && Prefix(TIERS[i].1) == TIERS[i].2
  {
    assert i > 0 ==> value > TIERS[i - 1].0;
  }

  lemma FirstByteOfTier(value: number, k: nat)
    requires WidthFor(value) == k && k <= 6
    ensures var s := BigEndian(value, k);
            s[0] + Prefix(k) < 0x100 && s[0 := s[0] + Prefix(k)] == Encode(value)
  {
    BigEndianHead(value, k);
    EncodeByShifts(value, k);
  }

  lemma WideTier(value: number, k: nat)
    requires WidthFor(value) == k && k >= 8
    ensures Encode(value) == [Prefix(k)] + BigEndian(value, k - 1)
  {
    EncodeByShifts(value, k);
  }

  /** The part of a buffer from an offset on, which may lie behind its end. */
  function From(buf: bytes, offset: nat): bytes {
    if offset <= |buf| then buf[offset..] else []
  }

  /** decodeVarint, at an offset of a buffer. */
  method DecodeVarint(buf: bytes, offset: nat) returns (r: Result<(nat, nat)>)
    ensures match ParseNumber(From(buf, offset))
            case Accept(v, rest) => r == Ok((v, |buf| - offset - |rest|))
            case Reject => r == Err
  {
    if offset >= |buf| {
      return Err;
    }
    var firstByte := buf[offset];
    var len :- VarintByteLength(firstByte);
    if offset + len > |buf| {
      return Err;
    }
    hide Accumulate, Strip, Received, ValueOf, Capacity;
    ghost var s := buf[offset..];
    var value: nat := 0;
    for i := 0 to len
      invariant value == Folded(s[..i])
    {
      assert s[..i + 1][..i] == s[..i];
      value := Accumulate(value, buf[offset + i]);
    }
    StrippedIs(s[..len]);
    r := Ok((Strip(value, len), len));
  }

  /** The table of masks. The one of the 8-byte form is not a double. */
  function Mask(k: nat): nat
    requires IsWidth(k)
  {
    match k
    case 1 => 0x7f
    case 2 => 0x3fff
    case 3 => 0x1f_ffff
    case 4 => 0x0fff_ffff
    case 5 => 0x07_ffff_ffff
    case 6 => 0x03ff_ffff_ffff
    case 8 => Round(0xff_ffff_ffff_ffff)
    case _ => MAX_SAFE_INTEGER
  }

  lemma MaskPlusOne(k: nat)
    requires IsWidth(k)
    ensures Round(Mask(k) + 1) == if k == 9 then TWO53 else Capacity(k)
    ensures k <= 4 ==> Mask(k) + 1 == Capacity(k)
  {
    if k == 8 {
      assert Pow2(3) == 8 && Pow2(4) == 16;
      QuantumIs(0xff_ffff_ffff_ffff, 3);
      QuantumIs(0x100_0000_0000_0001, 4);
    } else if k == 9 {
      QuantumIs(TWO53, 1);
    } else {
      SmallIsExact(Mask(k) + 1);
    }
  }

  /** What is left of the accumulated number without its prefix bits. */
  function Strip(value: nat, k: nat): nat
    requires IsWidth(k)
  {
    hide Mask, Round;
    MaskPlusOne(k);
    var mask := Mask(k);
    if k <= 4 then BitAnd(value, mask) else value % Round(mask + 1)
  }

  lemma StripIs(value: nat, k: nat)
    requires IsWidth(k) && (k <= 4 ==> value <= MAX_SAFE_INTEGER)
    ensures Strip(value, k) == value % (if k == 9 then TWO53 else Capacity(k))
  {
    hide Mask, Round, Capacity, BitAnd;
    MaskPlusOne(k);
    if k <= 4 {
      MaskIsListed(k);
      BitAndIsRemainder(value, Mask(k));
    }
  }

  lemma MaskIsListed(k: nat)
    requires IsWidth(k) && k <= 4
    ensures Mask(k) in {0xff, 0x7f, 0x3fff, 0x1f_ffff, 0x0fff_ffff}
  {
  }

  lemma StrippedIs(s: bytes)
    requires s != [] && VarintByteLength(s[0]) == Ok(|s|)
    ensures IsWidth(|s|)
    ensures Strip(Folded(s), |s|) == Received(ValueOf(s) % Capacity(|s|), |s|)
  {
    hide Folded, ValueOf, Strip;
    FoldedIs(s);
    StripIs(Folded(s), |s|);
  }

  /** What the loop has accumulated after the bytes `s`. */
  function Folded(s: bytes): nat {
    if s == [] then 0 else Accumulate(Folded(s[..|s| - 1]), s[|s| - 1])
  }

  lemma {:induction false} FoldedExact(s: bytes)
    requires |s| <= 6
    ensures Folded(s) == ValueOf(s) < 0x1_0000_0000_0000
  {
    hide Accumulate;
    if s != [] {
      FoldedExact(s[..|s| - 1]);
      ValueOfBound(s);
      Powers();
      AddsExactly(ValueOf(s[..|s| - 1]), s[|s| - 1]);
      PowersGrow(|s|);
    }
  }

  lemma PowersGrow(k: nat)
    requires k <= 6
    ensures Pow256(k) <= 0x1_0000_0000_0000
  {
    Powers();
  }

  lemma AddsExactly(value: nat, b: byte)
    requires value * 256 + b < TWO53
    ensures Accumulate(value, b) == value * 256 + b
  {
    SmallIsExact(value * 256);
    SmallIsExact(value * 256 + b);
  }

  /** The seventh byte of a wide form goes beyond 53 bits. */
  lemma FoldedSeven(s: bytes)
    requires |s| == 7 && s[0] >= 0xfe
    ensures Folded(s) == RoundTo(ValueOf(s), 8)
    ensures Folded(s) >= TWO53 && IsDouble(Folded(s))
  {
    hide ValueOf, Folded, Accumulate, IsDouble, RoundTo;
    FoldedExact(s[..6]);
    Appended(s);
    HeadValue(s[..6]);
    ThreeBitsAreLost(ValueOf(s[..6]), s[6]);
  }

  lemma Appended(s: bytes)
    requires s != []
    ensures ValueOf(s) == ValueOf(s[..|s| - 1]) * 256 + s[|s| - 1]
    ensures Folded(s) == Accumulate(Folded(s[..|s| - 1]), s[|s| - 1])
  {
  }

  lemma HeadValue(s: bytes)
    requires |s| == 6 && s[0] >= 0xfe
    ensures 0xfe00_0000_0000 <= ValueOf(s) < 0x1_0000_0000_0000
  {
    ValueOfTail(s);
    ValueOfBound(s);
    Powers();
    hide ValueOf, Pow256;
  }

  /** ... and the bytes behind it are lost. */
  lemma {:induction false} FoldedWide(s: bytes)
    requires |s| in {8, 9} && s[0] >= 0xfe
    ensures Folded(s) == RoundTo(ValueOf(s[..7]), 8) * (if |s| == 8 then 0x100 else 0x1_0000)
    ensures Folded(s) >= TWO53 && IsDouble(Folded(s))
  {
    hide ValueOf, Accumulate, IsDouble;
    var init := s[..|s| - 1];
    assert init[..7] == s[..7];
    if |s| == 8 {
      assert init == s[..7];
      FoldedSeven(init);
    } else {
      FoldedWide(init);
    }
    Appended(s);
    ByteIsLost(Folded(init), s[|s| - 1]);
  }

  lemma FoldedIs(s: bytes)
    requires s != [] && VarintByteLength(s[0]) == Ok(|s|)
    ensures |s| <= 6 ==> Folded(s) == ValueOf(s) < 0x1_0000_0000_0000
    ensures |s| == 8 ==> Folded(s) % 0x100_0000_0000_0000 == Received(ValueOf(s) % Capacity(8), 8)
    ensures |s| == 9 ==> Folded(s) % TWO53 == Received(ValueOf(s) % Capacity(9), 9)
  {
    if |s| <= 6 {
      FoldedExact(s);
    } else {
      WideIs(s);
    }
  }

  lemma WideIs(s: bytes)
    requires |s| in {8, 9} && s[0] == if |s| == 8 then 0xfe else 0xff
    ensures |s| == 8 ==> Folded(s) % 0x100_0000_0000_0000 == Received(ValueOf(s) % Capacity(8), 8)
    ensures |s| == 9 ==> Folded(s) % TWO53 == Received(ValueOf(s) % Capacity(9), 9)
  {
    hide ValueOf, Pow256, Folded;
    FoldedWide(s);
    ValueOfTail(s);
    ValueOfBound(s[1..]);
    Powers();
    var low := ValueOf(s[1..]);
    FirstSeven(s);
    if |s| == 8 {
      QuotientUnique(ValueOf(s), 0x100_0000_0000_0000, 0xfe, low);
      PrefixFalls(0xfe, low, 0x100, 0x100_0000_0000_0000);
    } else {
      QuotientUnique(ValueOf(s), U64, 0xff, low);
      PrefixFalls(0xff, low, 0x1_0000, TWO53);
    }
  }

  lemma FirstSeven(s: bytes)
    requires |s| in {8, 9}
    ensures ValueOf(s[..7]) == ValueOf(s) / (if |s| == 8 then 0x100 else 0x1_0000)
  {
    hide ValueOf;
    Appended(s);
    var init := s[..|s| - 1];
    if |s| == 9 {
      Appended(init);
      assert init[..7] == s[..7];
    }
  }

  /** The prefix `p` stands 48 bits above the units, and falls to the remainder. */
  lemma PrefixFalls(p: nat, low: nat, unit: nat, modulus: nat)
    requires (unit == 0x100 && modulus == 0x100_0000_0000_0000) || (unit == 0x1_0000 && modulus == TWO53)
    ensures var n := p * 0x1_0000_0000_0000 * unit + low;
            RoundTo(n / unit, 8) * unit % modulus == RoundTo(low / unit, 8) * unit % modulus
  {
    var n := p * 0x1_0000_0000_0000 * unit + low;
    DivModLaw(low, unit);
    QuotientUnique(n, unit, p * 0x1_0000_0000_0000 + low / unit, low % unit);
    RoundToEight(p * 0x1000_0000_0000, low / unit);
    var r := RoundTo(low / unit, 8) * unit;
    if unit == 0x100 {
      AddMultiple(p, modulus, r);
    } else {
      AddMultiple(p * 0x800, modulus, r);
    }
  }
}
