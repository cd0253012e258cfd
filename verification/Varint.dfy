/** Variable-length integers (moqt-core/src/wire/varint.rs), section 1.4.1 of
    draft-ietf-moq-transport-17. */
module Varint {
  import opened Words
  import opened Codec

  // ----- specification -----

  /** Number of bytes announced by a first byte; 0 for the code point that is rejected. */
  function Width(first: byte): (k: nat)
    ensures k <= 9 && k != 7
    ensures k == 0 <==> first == 0xfc
  {
    if first < 0x80 then 1
    else if first < 0xc0 then 2
    else if first < 0xe0 then 3
    else if first < 0xf0 then 4
    else if first < 0xf8 then 5
    else if first < 0xfc then 6
    else if first == 0xfc then 0
    else if first == 0xfe then 8
    else 9
  }

  predicate IsWidth(k: nat) { 1 <= k <= 9 && k != 7 }

  /** How many values a `k`-byte encoding can hold. */
  function Capacity(k: nat): (c: nat)
    requires IsWidth(k)
    ensures c > 0
  {
    match k
    case 1 => 0x80
    case 2 => 0x4000
    case 3 => 0x20_0000
    case 4 => 0x1000_0000
    case 5 => 0x08_0000_0000
    case 6 => 0x0400_0000_0000
    case 8 => 0x0100_0000_0000_0000
    case _ => U64
  }

  /** The prefix bits of the first byte of a `k`-byte encoding. */
  function Prefix(k: nat): byte
    requires IsWidth(k)
  {
    match k
    case 1 => 0
    case 2 => 0x80
    case 3 => 0xc0
    case 4 => 0xe0
    case 5 => 0xf0
    case 6 => 0xf8
    case 8 => 0xfe
    case _ => 0xff
  }

  /** The width of the shortest encoding that can hold `v`. */
  function WidthFor(v: u64): (k: nat)
    ensures IsWidth(k) && v < Capacity(k)
  {
    if v <= 0x7f then 1
    else if v <= 0x3fff then 2
    else if v <= 0x1f_ffff then 3
    else if v <= 0x0fff_ffff then 4
    else if v <= 0x07_ffff_ffff then 5
    else if v <= 0x03ff_ffff_ffff then 6
    else if v <= 0x00ff_ffff_ffff_ffff then 8
    else 9
  }

  /** The bits of `v` that share the first byte with the prefix, then the remaining bytes. */
  function EncodeAs(v: u64, k: nat): (s: bytes)
    requires IsWidth(k) && v < Capacity(k)
    ensures |s| == k
  {
    HighBits(v, k);
    [Prefix(k) + v / Pow256(k - 1)] + BigEndian(v, k - 1)
  }

  lemma HighBits(v: u64, k: nat)
    requires IsWidth(k) && v < Capacity(k)
    ensures 0 <= Prefix(k) + v / Pow256(k - 1) < 0x100
    ensures Width(Prefix(k) + v / Pow256(k - 1)) == k
  {
    Powers();
  }

  function Encode(v: u64): (s: bytes)
    ensures 1 <= |s| <= 9
  {
    EncodeAs(v, WidthFor(v))
  }

  function ParseVarint(s: bytes): Parse<u64> {
    if s == [] then Reject
    else
      var k := Width(s[0]);
      if k == 0 || |s| < k then Reject
      else Accept(ValueOf(s[..k]) % Capacity(k), s[k..])
  }

  // ----- laws -----

  /** The prefix bits sit above the value bits. */
  lemma PrefixAboveValue(k: nat) returns (m: nat)
    requires IsWidth(k)
    ensures Prefix(k) * Pow256(k - 1) == m * Capacity(k)
  {
    Powers();
    m := match k case 1 => 0 case 2 => 2 case 3 => 6 case 4 => 14 case 5 => 30 case 6 => 62 case _ => Prefix(k);
  }

  /** Any encoding, minimal or not, is read back, and nothing after it is touched. In the 9-byte
      form the prefix byte is what the reduction modulo 2^64 shifts out. */
  lemma ParseEncodedAs(v: u64, k: nat, rest: bytes)
    requires IsWidth(k) && v < Capacity(k)
    ensures ParseVarint(EncodeAs(v, k) + rest) == Accept(v, rest)
  {
    hide ValueOf, BigEndian, Pow256, Capacity, Prefix, Width;
    var s := EncodeAs(v, k);
    HighBits(v, k);
    assert (s + rest)[..k] == s;
    assert (s + rest)[k..] == rest;
    ValueOfEncoding(v, k);
  }

  lemma ValueOfEncoding(v: u64, k: nat)
    requires IsWidth(k) && v < Capacity(k)
    ensures ValueOf(EncodeAs(v, k)) % Capacity(k) == v
  {
    hide ValueOf, BigEndian, Pow256, Capacity, Prefix, Width, IsWidth;
    var s := EncodeAs(v, k);
    HighBits(v, k);
    assert s[1..] == BigEndian(v, k - 1);
    ValueOfTail(s);
    ValueOfBigEndian(v, k - 1);
    var m := PrefixAboveValue(k);
    Reassemble(Prefix(k), Pow256(k - 1), v, Capacity(k), m);
  }

  lemma Reassemble(prefix: nat, p: nat, v: nat, c: nat, m: nat)
    requires p > 0 && v < c
    requires prefix * p == m * c
    ensures ((prefix + v / p) * p + v % p) % c == v
  {
    DivModLaw(v, p);
    assert (prefix + v / p) * p + v % p == prefix * p + v;
    AddMultiple(m, c, v);
    QuotientUnique(v, c, 0, v);
  }

  lemma RoundTrip(v: u64, rest: bytes)
    ensures ParseVarint(Encode(v) + rest) == Accept(v, rest)
  {
    ParseEncodedAs(v, WidthFor(v), rest);
  }

  /** An accepted string is the encoding of its value in the announced width, except that 0xfd
      stands for 0xff. */
  lemma AcceptedIsEncoding(s: bytes)
    requires ParseVarint(s).Accept?
    ensures var k := Width(s[0]);
            var v := ParseVarint(s).value;
            && IsWidth(k) && v < Capacity(k) && k <= |s|
            && s == s[..k] + ParseVarint(s).rest
            && EncodeAs(v, k) == [if s[0] == 0xfd then 0xff else s[0]] + s[1..k]
  {
    var k := Width(s[0]);
    WordIsEncoding(s[..k], k);
    assert s[..k][1..] == s[1..k];
  }

  lemma WordIsEncoding(w: bytes, k: nat)
    requires k > 0 && |w| == k && Width(w[0]) == k
    ensures EncodeAs(ValueOf(w) % Capacity(k), k) == [if w[0] == 0xfd then 0xff else w[0]] + w[1..]
  {
    var h := ValueBits(w[0], k);
    hide Width, Capacity, Prefix, ValueOf, BigEndian, EncodeAs, Pow256;
    ValueOfTail(w);
    ValueOfBound(w[1..]);
    var v := HeadAndTail(w[0], k, h, ValueOf(w[1..]));
    EncodeHeadAndTail(v, k);
    BigEndianValueOf(w[1..]);
  }

  /** The value bits of a first byte. */
  lemma ValueBits(first: byte, k: nat) returns (h: nat)
    requires k > 0 && Width(first) == k
    ensures h == if first == 0xfd then 0 else first - Prefix(k)
    ensures Prefix(k) + h == if first == 0xfd then 0xff else first
  {
    h := if first == 0xfd then 0 else first - Prefix(k);
  }

  lemma EncodeHeadAndTail(v: u64, k: nat)
    requires IsWidth(k) && v < Capacity(k)
    ensures EncodeAs(v, k) == [Prefix(k) + v / Pow256(k - 1)] + BigEndian(v % Pow256(k - 1), k - 1)
  {
    HighBits(v, k);
    ValueOfBigEndian(v, k - 1);
    BigEndianValueOf(BigEndian(v, k - 1));
  }

  /** The decoded value, as the value bits of the first byte and the remaining bytes. */
  lemma HeadAndTail(first: byte, k: nat, h: nat, t: nat) returns (v: u64)
    requires k == Width(first) && k > 0
    requires t < Pow256(k - 1)
    requires h == if first == 0xfd then 0 else first - Prefix(k)
    ensures v == (first * Pow256(k - 1) + t) % Capacity(k)
    ensures v / Pow256(k - 1) == h && v % Pow256(k - 1) == t
  {
    var p := Pow256(k - 1);
    var c := Capacity(k);
    assert h * p + t < c by {
      Powers();
    }
    if first == 0xfd {
      assert p == c by {
        Powers();
      }
      DropMultiple(first, 0, p, t, c, first);
    } else {
      var m := PrefixAboveValue(k);
      DropMultiple(Prefix(k), h, p, t, c, m);
    }
    v := h * p + t;
    QuotientUnique(v, p, h, t);
  }

  lemma DropMultiple(prefix: nat, h: nat, p: nat, t: nat, c: nat, m: nat)
    requires c > 0 && h * p + t < c
    requires prefix * p == m * c
    ensures ((prefix + h) * p + t) % c == h * p + t
  {
    assert (prefix + h) * p == prefix * p + h * p;
    AddMultiple(m, c, h * p + t);
    QuotientUnique(h * p + t, c, 0, h * p + t);
  }

  /** No encoding is a proper prefix of another. */
  lemma PrefixFree(v: u64, w: u64, rest: bytes)
    requires Encode(v) == Encode(w) + rest
    ensures v == w && rest == []
  {
    RoundTrip(v, []);
    RoundTrip(w, rest);
    assert Encode(v) + [] == Encode(v);
  }

  lemma WidthForIsLeast(v: u64, k: nat)
    requires IsWidth(k) && v < Capacity(k)
    ensures WidthFor(v) <= k
  {
  }

  /** The encoder emits the shortest string that the decoder accepts for the value. */
  lemma EncodeIsShortest(s: bytes)
    requires ParseVarint(s).Accept?
    ensures |Encode(ParseVarint(s).value)| + |ParseVarint(s).rest| <= |s|
  {
    WidthForIsLeast(ParseVarint(s).value, Width(s[0]));
  }

  /** What the decoder consumes depends only on the bytes it consumes. */
  lemma ParseIsLocal(s: bytes, more: bytes)
    requires ParseVarint(s).Accept?
    ensures ParseVarint(s + more) == Accept(ParseVarint(s).value, ParseVarint(s).rest + more)
  {
    var k := Width(s[0]);
    assert (s + more)[..k] == s[..k];
    assert (s + more)[k..] == s[k..] + more;
  }

  // ----- the code -----

  /** varint_byte_length */
  function VarintByteLength(first: byte): (r: Result<nat>)
    ensures r == if first == 0xfc then Err else Ok(Width(first))
  {
    if first < 0x80 then Ok(1)
    else if 0x80 <= first < 0xc0 then Ok(2)
    else if 0xc0 <= first < 0xe0 then Ok(3)
    else if 0xe0 <= first < 0xf0 then Ok(4)
    else if 0xf0 <= first < 0xf8 then Ok(5)
    else if 0xf8 <= first < 0xfc then Ok(6)
    else if first == 0xfc then Err
    else if first == 0xfe then Ok(8)
    else Ok(9)
  }

  /** The bytes the encoder pushes: prefix on the first one, the rest by shifts. */
  lemma EncodeByShifts(v: u64, k: nat)
    requires IsWidth(k) && v < Capacity(k)
    ensures EncodeAs(v, k)[0] == Prefix(k) + ByteAt(v, k - 1)
    ensures k >= 8 ==> ByteAt(v, k - 1) == 0
    ensures forall i :: 0 <= i < k - 1 ==> EncodeAs(v, k)[k - 1 - i] == ByteAt(v, i)
  {
    TopByte(v, k);
    forall i | 0 <= i < k - 1
      ensures EncodeAs(v, k)[k - 1 - i] == ByteAt(v, i)
    {
      BigEndianAt(v, k - 1, i);
    }
  }

  lemma TopByte(v: u64, k: nat)
    requires IsWidth(k) && v < Capacity(k)
    ensures ByteAt(v, k - 1) == v / Pow256(k - 1)
    ensures k >= 8 ==> ByteAt(v, k - 1) == 0
  {
    ByteAtIsShift(v, k - 1);
    Powers();
    hide ByteAt, Pow256;
    match k
    case 1 =>
    case 2 =>
    case 3 =>
    case 4 =>
    case 5 =>
    case 6 =>
    case 8 =>
    case _ =>
  }

  /** The pushes of one tier, in order. */
  function Pushed(v: u64, k: nat, first: byte): (s: bytes)
    requires IsWidth(k)
    ensures |s| == k && s[0] == first
    ensures forall i :: 1 <= i < k ==> s[i] == ByteAt(v, k - 1 - i)
  {
    match k
    case 1 => [first]
    case 2 => [first, ByteAt(v, 0)]
    case 3 => [first, ByteAt(v, 1), ByteAt(v, 0)]
    case 4 => [first, ByteAt(v, 2), ByteAt(v, 1), ByteAt(v, 0)]
    case 5 => [first, ByteAt(v, 3), ByteAt(v, 2), ByteAt(v, 1), ByteAt(v, 0)]
    case 6 => [first, ByteAt(v, 4), ByteAt(v, 3), ByteAt(v, 2), ByteAt(v, 1), ByteAt(v, 0)]
    case 8 => [first, ByteAt(v, 6), ByteAt(v, 5), ByteAt(v, 4), ByteAt(v, 3), ByteAt(v, 2), ByteAt(v, 1), ByteAt(v, 0)]
    case _ => [first, ByteAt(v, 7), ByteAt(v, 6), ByteAt(v, 5), ByteAt(v, 4), ByteAt(v, 3), ByteAt(v, 2), ByteAt(v, 1), ByteAt(v, 0)]
  }

  lemma PushedIsEncoding(v: u64, k: nat)
    requires IsWidth(k) && v < Capacity(k)
    ensures Prefix(k) + ByteAt(v, k - 1) < 0x100
    ensures k >= 8 ==> ByteAt(v, k - 1) == 0
    ensures Pushed(v, k, Prefix(k) + ByteAt(v, k - 1)) == EncodeAs(v, k)
  {
    EncodeByShifts(v, k);
    var s := EncodeAs(v, k);
    forall i | 1 <= i < k ensures s[i] == ByteAt(v, k - 1 - i) {
      assert s[k - 1 - (k - 1 - i)] == ByteAt(v, k - 1 - i);
    }
  }

  method EncodeVarint(value: u64, buf: Buffer)
    modifies buf
    ensures buf.data == old(buf.data) + Encode(value)
  {
    PushedIsEncoding(value, WidthFor(value));
    if value <= 0x7f {
      buf.Push(ByteAt(value, 0));
    } else if value <= 0x3fff {
      buf.Push(0x80 + ByteAt(value, 1));
      buf.Push(ByteAt(value, 0));
    } else if value <= 0x1f_ffff {
      buf.Push(0xc0 + ByteAt(value, 2));
      buf.Push(ByteAt(value, 1));
      buf.Push(ByteAt(value, 0));
    } else if value <= 0x0fff_ffff {
      buf.Push(0xe0 + ByteAt(value, 3));
      buf.Push(ByteAt(value, 2));
      buf.Push(ByteAt(value, 1));
      buf.Push(ByteAt(value, 0));
    } else if value <= 0x07_ffff_ffff {
      buf.Push(0xf0 + ByteAt(value, 4));
      buf.Push(ByteAt(value, 3));
      buf.Push(ByteAt(value, 2));
      buf.Push(ByteAt(value, 1));
      buf.Push(ByteAt(value, 0));
    } else if value <= 0x03ff_ffff_ffff {
      buf.Push(0xf8 + ByteAt(value, 5));
      buf.Push(ByteAt(value, 4));
      buf.Push(ByteAt(value, 3));
      buf.Push(ByteAt(value, 2));
      buf.Push(ByteAt(value, 1));
      buf.Push(ByteAt(value, 0));
    } else {
      EncodeWideVarint(value, buf);
    }
  }

  /** The last two branches of encode_varint. */
  method EncodeWideVarint(value: u64, buf: Buffer)
    requires value > 0x03ff_ffff_ffff
    modifies buf
    ensures buf.data == old(buf.data) + Encode(value)
  {
    PushedIsEncoding(value, WidthFor(value));
    assert Encode(value) == EncodeAs(value, WidthFor(value));
    hide Encode, EncodeAs, ByteAt;
    if value <= 0x00ff_ffff_ffff_ffff {
      buf.Push(0xfe);
      buf.Push(ByteAt(value, 6));
      buf.Push(ByteAt(value, 5));
      buf.Push(ByteAt(value, 4));
      buf.Push(ByteAt(value, 3));
      buf.Push(ByteAt(value, 2));
      buf.Push(ByteAt(value, 1));
      buf.Push(ByteAt(value, 0));
      PushEight(old(buf.data), 0xfe, ByteAt(value, 6), ByteAt(value, 5), ByteAt(value, 4), ByteAt(value, 3),
                ByteAt(value, 2), ByteAt(value, 1), ByteAt(value, 0));
    } else {
      buf.Push(0xff);
      buf.Push(ByteAt(value, 7));
      buf.Push(ByteAt(value, 6));
      buf.Push(ByteAt(value, 5));
      buf.Push(ByteAt(value, 4));
      buf.Push(ByteAt(value, 3));
      buf.Push(ByteAt(value, 2));
      buf.Push(ByteAt(value, 1));
      buf.Push(ByteAt(value, 0));
      PushEight(old(buf.data) + [0xff], ByteAt(value, 7), ByteAt(value, 6), ByteAt(value, 5), ByteAt(value, 4),
                ByteAt(value, 3), ByteAt(value, 2), ByteAt(value, 1), ByteAt(value, 0));
      Concat3(old(buf.data), [0xff], [ByteAt(value, 7), ByteAt(value, 6), ByteAt(value, 5), ByteAt(value, 4),
                                      ByteAt(value, 3), ByteAt(value, 2), ByteAt(value, 1), ByteAt(value, 0)]);
    }
  }

  lemma PushEight(s: bytes, a: byte, b: byte, c: byte, d: byte, e: byte, f: byte, g: byte, h: byte)
    ensures s + [a] + [b] + [c] + [d] + [e] + [f] + [g] + [h] == s + [a, b, c, d, e, f, g, h]
  {
  }

  method DecodeVarint(buf: Cursor) returns (r: Result<u64>)
    modifies buf
    ensures Follows(r, buf.left, ParseVarint(old(buf.left)))
    ensures r.Err? ==> buf.left == old(buf.left)
  {
    if buf.left == [] {
      return Err;
    }
    var first := buf.left[0];
    var len, valueMask: u64;
    if first < 0x80 {
      len, valueMask := 1, 0x7f;
    } else if 0x80 <= first < 0xc0 {
      len, valueMask := 2, 0x3fff;
    } else if 0xc0 <= first < 0xe0 {
      len, valueMask := 3, 0x1f_ffff;
    } else if 0xe0 <= first < 0xf0 {
      len, valueMask := 4, 0x0fff_ffff;
    } else if 0xf0 <= first < 0xf8 {
      len, valueMask := 5, 0x07_ffff_ffff;
    } else if 0xf8 <= first < 0xfc {
      len, valueMask := 6, 0x03ff_ffff_ffff;
    } else if first == 0xfc {
      return Err;
    } else if first == 0xfe {
      len, valueMask := 8, 0x00ff_ffff_ffff_ffff;
    } else {
      len, valueMask := 9, 0xffff_ffff_ffff_ffff;
    }
    if |buf.left| < len {
      return Err;
    }
    // The shift drops the bits above 64, so the accumulator is kept modulo 2^64.
    var value: u64 := 0;
    var input := buf.left;
    for i := 0 to len
      invariant buf.left == input
      invariant value == ValueOf(input[..i]) % U64
    {
      assert input[..i + 1][..i] == input[..i];
      ShiftIn(ValueOf(input[..i]), input[i]);
      value := value * 256 % U64 + input[i];
    }
    MaskAfterWrap(ValueOf(input[..len]), len);
    value := value % (valueMask + 1);
    buf.left := buf.left[len..];
    r := Ok(value);
  }

  lemma MaskAfterWrap(n: nat, k: nat)
    requires IsWidth(k)
    ensures n % U64 % Capacity(k) == n % Capacity(k)
  {
    var d := U64 / Capacity(k);
    assert d * Capacity(k) == U64;
    MaskDivides(n, Capacity(k), d);
  }

  lemma MaskDivides(n: nat, c: nat, d: nat)
    requires c > 0 && d * c == U64
    ensures n % U64 % c == n % c
  {
    var q := n / U64;
    DivModLaw(n, U64);
    assert n == q * U64 + n % U64;
    assert q * U64 == q * d * c by {
      assert q * (d * c) == q * d * c;
    }
    AddMultiple(q * d, c, n % U64);
  }

  /** A shift left by 8 drops the top byte, then the low byte is free. */
  lemma ShiftIn(n: nat, b: byte)
    ensures n % U64 * 256 % U64 + b == (n * 256 + b) % U64
  {
    var w := 0x100_0000_0000_0000;
    var q, r := n / U64, n % U64;
    var hi, lo := r / w, r % w;
    assert r * 256 == hi * U64 + lo * 256;
    QuotientUnique(r * 256, U64, hi, lo * 256);
    QuotientUnique(r * 256 + b, U64, hi, lo * 256 + b);
    assert n * 256 + b == 256 * q * U64 + (r * 256 + b);
    AddMultiple(256 * q, U64, r * 256 + b);
  }
}
