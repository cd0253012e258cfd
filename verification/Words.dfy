/** Bytes, machine words and big-endian numerals, shared by every codec module. */
module Words {

  type byte = x: int | 0 <= x < 0x100
  type u64 = x: int | 0 <= x < 0x1_0000_0000_0000_0000
  type bytes = seq<byte>
  /** A byte vector that fits the address space, so that its length is a u64. */
  type blob = s: bytes | |s| < 0x1_0000_0000_0000_0000

  const U16: int := 0x1_0000
  const U32: int := 0x1_0000_0000
  const U64: int := 0x1_0000_0000_0000_0000

  // ----- division -----

  lemma DivModLaw(n: nat, p: nat)
    requires p > 0
    ensures n == n / p * p + n % p
    ensures n % p < p
  {
  }

  lemma NextMultiple(p: nat, q: nat, q': nat)
    requires q < q'
    ensures q' * p >= q * p + p
  {
    var d: nat := q' - q - 1;
    assert q' * p == q * p + p + d * p by {
      assert q' == q + 1 + d;
    }
  }

  lemma QuotientUnique(n: nat, p: nat, q: nat, r: nat)
    requires p > 0
    requires n == q * p + r
    requires r < p
    ensures n / p == q && n % p == r
  {
    DivModLaw(n, p);
    if q < n / p {
      NextMultiple(p, q, n / p);
    } else if n / p < q {
      NextMultiple(p, n / p, q);
    }
  }

  lemma AddMultiple(m: nat, p: nat, n: nat)
    requires p > 0
    ensures (m * p + n) % p == n % p
  {
    DivModLaw(n, p);
    assert m * p + n == (m + n / p) * p + n % p;
    QuotientUnique(m * p + n, p, m + n / p, n % p);
  }

  lemma DivideTwice(n: nat, p: nat)
    requires p > 0
    ensures n / 256 / p == n / (256 * p)
    ensures n / 256 % p * 256 + n % 256 == n % (256 * p)
  {
    var h := n / 256;
    DivModLaw(h, p);
    assert n == h / p * (256 * p) + (h % p * 256 + n % 256) by {
      assert h * 256 == (h / p * p + h % p) * 256;
      assert h / p * p * 256 == h / p * (256 * p);
    }
    QuotientUnique(n, 256 * p, h / p, h % p * 256 + n % 256);
  }

  // ----- numerals -----

  /** 256 to the power `k`. */
  function Pow256(k: nat): (p: nat)
    ensures p >= 1
  {
    if k == 0 then 1 else 256 * Pow256(k - 1)
  }

  /** The `k` low-order bytes of `n`, most significant first. */
  function BigEndian(n: nat, k: nat): (s: bytes)
    ensures |s| == k
  {
    if k == 0 then [] else BigEndian(n / 256, k - 1) + [n % 256]
  }

  /** The number that a byte string denotes, most significant byte first. */
  function ValueOf(s: bytes): nat {
    if s == [] then 0 else ValueOf(s[..|s| - 1]) * 256 + s[|s| - 1]
  }

  lemma {:induction false} ValueOfBound(s: bytes)
    ensures ValueOf(s) < Pow256(|s|)
  {
    if s != [] {
      ValueOfBound(s[..|s| - 1]);
    }
  }

  lemma {:induction false} ValueOfBigEndian(n: nat, k: nat)
    ensures ValueOf(BigEndian(n, k)) == n % Pow256(k)
  {
    if k > 0 {
      var s := BigEndian(n, k);
      assert s[..k - 1] == BigEndian(n / 256, k - 1);
      ValueOfBigEndian(n / 256, k - 1);
      DivideTwice(n, Pow256(k - 1));
    }
  }

  lemma LastDigit(n: nat, b: byte)
    ensures (n * 256 + b) / 256 == n && (n * 256 + b) % 256 == b
  {
  }

  lemma {:induction false} BigEndianValueOf(s: bytes)
    ensures BigEndian(ValueOf(s), |s|) == s
  {
    if s != [] {
      BigEndianValueOf(s[..|s| - 1]);
      LastDigit(ValueOf(s[..|s| - 1]), s[|s| - 1]);
      assert s == s[..|s| - 1] + [s[|s| - 1]];
    }
  }

  lemma {:induction false} ValueOfTail(s: bytes)
    requires s != []
    ensures ValueOf(s) == s[0] * Pow256(|s| - 1) + ValueOf(s[1..])
  {
    if |s| > 1 {
      var i := s[..|s| - 1];
      ValueOfTail(i);
      assert s[1..][..|s| - 2] == i[1..];
      var p, v := Pow256(|i| - 1), ValueOf(i[1..]);
      assert Pow256(|s| - 1) == 256 * p;
      assert ValueOf(s[1..]) == v * 256 + s[|s| - 1];
      hide ValueOf, Pow256;
      ShiftDigit(s[0], p, v);
    }
  }

  lemma ShiftDigit(x: nat, p: nat, v: nat)
    ensures (x * p + v) * 256 == x * (256 * p) + v * 256
  {
  }

  /** `(n >> 8 * i) as u8` */
  function ByteAt(n: nat, i: nat): byte {
    if i == 0 then n % 256 else ByteAt(n / 256, i - 1)
  }

  lemma {:induction false} ByteAtIsShift(n: nat, i: nat)
    ensures ByteAt(n, i) == n / Pow256(i) % 256
  {
    if i > 0 {
      ByteAtIsShift(n / 256, i - 1);
      DivideTwice(n, Pow256(i - 1));
    }
  }

  lemma {:induction false} BigEndianAt(n: nat, k: nat, i: nat)
    requires i < k
    ensures BigEndian(n, k)[k - 1 - i] == ByteAt(n, i)
  {
    if i > 0 {
      BigEndianAt(n / 256, k - 1, i - 1);
    }
  }

  lemma Powers()
    ensures Pow256(0) == 1 && Pow256(1) == 0x100 && Pow256(2) == 0x1_0000
    ensures Pow256(3) == 0x100_0000 && Pow256(4) == 0x1_0000_0000
    ensures Pow256(5) == 0x100_0000_0000 && Pow256(6) == 0x1_0000_0000_0000
    ensures Pow256(7) == 0x100_0000_0000_0000 && Pow256(8) == U64
  {
    assert Pow256(3) == 256 * Pow256(2);
    assert Pow256(6) == 256 * Pow256(5);
  }
}

/** The bit operations of the source, on the machine words they are written for. The codec
    modules use the arithmetic on the right-hand sides. */
module WordBits {

  lemma PrefixTests(first: bv8)
    ensures first & 0x80 == 0 <==> first < 0x80
    ensures first & 0xc0 == 0x80 <==> 0x80 <= first < 0xc0
    ensures first & 0xe0 == 0xc0 <==> 0xc0 <= first < 0xe0
    ensures first & 0xf0 == 0xe0 <==> 0xe0 <= first < 0xf0
    ensures first & 0xf8 == 0xf0 <==> 0xf0 <= first < 0xf8
    ensures first & 0xfc == 0xf8 <==> 0xf8 <= first < 0xfc
  {
  }

  lemma PrefixSums(x: bv8)
    ensures x < 0x40 ==> 0x80 | x == 0x80 + x
    ensures x < 0x20 ==> 0xc0 | x == 0xc0 + x
    ensures x < 0x10 ==> 0xe0 | x == 0xe0 + x
    ensures x < 0x08 ==> 0xf0 | x == 0xf0 + x
    ensures x < 0x04 ==> 0xf8 | x == 0xf8 + x
  {
  }

  /** `value & value_mask`, for every mask of the varint decoder. */
  lemma ValueMasks(x: bv64)
    ensures x & 0x7f == x % 0x80 && x & 0x3fff == x % 0x4000 && x & 0x1f_ffff == x % 0x20_0000
    ensures x & 0x0fff_ffff == x % 0x1000_0000 && x & 0x07_ffff_ffff == x % 0x08_0000_0000
    ensures x & 0x03ff_ffff_ffff == x % 0x0400_0000_0000
    ensures x & 0x00ff_ffff_ffff_ffff == x % 0x0100_0000_0000_0000
  {
  }

  /** `value << 8 | byte` and `(value >> 8) as u8`. */
  lemma ByteShifts(x: bv64, b: bv64)
    requires b < 0x100
    ensures (x << 8) | b == x * 0x100 + b
    ensures x >> 8 == x / 0x100 && x & 0xff == x % 0x100
  {
  }

  /** `data[0] & 0x01`, on a byte as a number. */
  lemma LowBit(b: int)
    requires 0 <= b < 0x100
    ensures (b as bv8) & 0x01 == 0 <==> b % 2 == 0
  {
  }

  lemma HeaderTypeBits(t: bv8)
    ensures t & 0x01 != 0 <==> t % 2 == 1
    ensures (t >> 1) & 0x03 == (t / 2) % 4
    ensures t & 0x08 != 0 <==> (t / 8) % 2 == 1
    ensures t & 0x20 == 0 <==> (t / 32) % 2 == 0
  {
  }
}
