/** Whole numbers as doubles: the spacing of doubles, and the rounding of IEEE 754 (to the nearest, ties
    to even), which every sum and product of ECMAScript goes through. */
module Doubles {
  import opened Words

  const TWO52: nat := 0x10_0000_0000_0000
  const TWO53: nat := 0x20_0000_0000_0000

  /** The distance between doubles from `n` upwards: 53 significant bits. */
  function Quantum(n: nat): (q: nat)
    ensures q > 0
  {
    if n < TWO53 then 1 else 2 * Quantum(n / 2)
  }

  predicate IsDouble(n: nat) { n % Quantum(n) == 0 }

  /** The multiple of `q` that is nearest to `n`; between two, the even one. */
  function RoundTo(n: nat, q: nat): nat
    requires q > 0
  {
    var low := n % q;
    if 2 * low < q || (2 * low == q && n / q % 2 == 0) then n - low else n - low + q
  }

  /** The double that stands for the exact result `n`. */
  function Round(n: nat): nat { RoundTo(n, Quantum(n)) }

  /** `value * 256 + b` */
  function Accumulate(value: nat, b: nat): nat { Round(Round(value * 256) + b) }

  // ----- what rounding does -----

  function Pow2(e: nat): (p: nat)
    ensures p > 0
  {
    if e == 0 then 1 else 2 * Pow2(e - 1)
  }

  lemma {:induction false} QuantumIs(n: nat, e: nat)
    requires TWO52 * Pow2(e) <= n < TWO53 * Pow2(e)
    ensures Quantum(n) == Pow2(e)
  {
    if e > 0 {
      QuantumIs(n / 2, e - 1);
    }
  }

  lemma {:induction false} Binade(n: nat) returns (e: nat)
    requires n >= TWO52
    ensures TWO52 * Pow2(e) <= n < TWO53 * Pow2(e) && Quantum(n) == Pow2(e)
  {
    if n < TWO53 {
      e := 0;
    } else {
      e := Binade(n / 2);
      e := e + 1;
    }
  }

  lemma {:induction false} DividesLarger(e: nat, f: nat) returns (d: nat)
    requires e <= f
    ensures Pow2(f) == d * Pow2(e)
  {
    if e == f {
      d := 1;
    } else {
      d := DividesLarger(e, f - 1);
      d := 2 * d;
    }
  }

  lemma MultipleIs(n: nat, q: nat, m: nat)
    requires q > 0 && n == m * q
    ensures n % q == 0 && n / q == m
  {
    QuotientUnique(n, q, m, 0);
  }

  /** No multiple of `q` is nearer, and of two that are as near it is the even one. */
  lemma NearestMultiple(n: nat, q: nat, m: nat)
    requires q > 0
    ensures var r := RoundTo(n, q);
            && r % q == 0
            && Distance(r, n) <= Distance(m * q, n)
            && (2 * (n % q) == q ==> r / q % 2 == 0)
  {
    hide RoundTo, Distance;
    var k := n / q;
    DivModLaw(n, q);
    MultipleIs(k * q, q, k);
    assert (k + 1) * q == k * q + q;
    MultipleIs(k * q + q, q, k + 1);
    Neighbours(q, k, m);
    NearestOfTwo(n, q, k * q, m * q);
  }

  lemma Neighbours(q: nat, k: nat, m: nat)
    ensures m * q <= k * q || m * q >= k * q + q
  {
    if m < k {
      NextMultiple(q, m, k);
    } else if m > k {
      NextMultiple(q, k, m);
    }
  }

  lemma NearestOfTwo(n: nat, q: nat, a: nat, other: nat)
    requires q > 0 && n == a + n % q && n % q < q && (other <= a || other >= a + q)
    requires a % q == 0 && a / q == n / q && (a + q) % q == 0 && (a + q) / q == n / q + 1
    ensures var r := RoundTo(n, q);
            && r % q == 0
            && Distance(r, n) <= Distance(other, n)
            && (2 * (n % q) == q ==> r / q % 2 == 0)
  {
    var r := RoundTo(n, q);
    assert r == a || r == a + q;
  }

  function Distance(a: nat, b: nat): nat { if a < b then b - a else a - b }

  /** Rounding gives a double, and no double is nearer to the exact result. */
  lemma RoundIsNearest(n: nat, m: nat)
    ensures IsDouble(Round(n))
    ensures IsDouble(m) ==> Distance(Round(n), n) <= Distance(m, n)
    ensures IsDouble(n) ==> Round(n) == n
  {
    if n >= TWO53 {
      var e := Binade(n);
      WideRound(n, e);
      if IsDouble(m) {
        NoDoubleIsNearer(n, e, m);
      }
    }
  }

  lemma WideRound(n: nat, e: nat)
    requires TWO52 * Pow2(e) <= n < TWO53 * Pow2(e) && Quantum(n) == Pow2(e)
    ensures IsDouble(Round(n))
    ensures TWO52 * Pow2(e) <= Round(n) <= TWO53 * Pow2(e)
  {
    var q, r := Pow2(e), Round(n);
    NearestMultiple(n, q, TWO52);
    NearestMultiple(n, q, TWO53);
    if r < TWO53 * q {
      QuantumIs(r, e);
    } else {
      QuantumIs(r, e + 1);
      MultipleIs(r, 2 * q, TWO52);
    }
  }

  lemma NoDoubleIsNearer(n: nat, e: nat, m: nat)
    requires TWO52 * Pow2(e) <= n < TWO53 * Pow2(e) && Quantum(n) == Pow2(e) && IsDouble(m)
    ensures Distance(Round(n), n) <= Distance(m, n)
  {
    hide Pow2, RoundTo;
    var q := Pow2(e);
    if m <= TWO52 * q {
      NearestMultiple(n, q, TWO52);
    } else if m >= TWO53 * q {
      NearestMultiple(n, q, TWO53);
    } else {
      QuantumIs(m, e);
      DivModLaw(m, q);
      assert m == m / q * q;
      NearestMultiple(n, q, m / q);
    }
  }

  lemma SmallIsExact(n: nat)
    requires n < TWO53
    ensures Round(n) == n && IsDouble(n)
  {
  }

  // ----- accumulating bytes -----

  lemma QuantumOf256(n: nat)
    requires n >= 256 * TWO52
    ensures Quantum(n) == 256 * Quantum(n / 256)
  {
    QuantumOf16(n);
    QuantumOf16(n / 16);
    assert n / 16 / 16 == n / 256;
  }

  lemma QuantumOf16(n: nat)
    requires n >= 16 * TWO52
    ensures Quantum(n) == 16 * Quantum(n / 16)
  {
    var a, b, c := n / 2, n / 4, n / 8;
    assert a / 2 == b && b / 2 == c && c / 2 == n / 16;
    assert Quantum(n) == 2 * Quantum(a) && Quantum(a) == 2 * Quantum(b);
    assert Quantum(b) == 2 * Quantum(c) && Quantum(c) == 2 * Quantum(n / 16);
  }

  /** Between 2^55 and 2^56, the three lowest bits are rounded off. */
  lemma ThreeBitsAreLost(value: nat, b: nat)
    requires 8 * TWO52 <= value * 256 && value * 256 + b < 8 * TWO53
    ensures Accumulate(value, b) == RoundTo(value * 256 + b, 8)
    ensures Accumulate(value, b) >= TWO53 && IsDouble(Accumulate(value, b))
  {
    hide Quantum;
    var x := value * 256;
    SpacingIsEight(x);
    MultipleIs(x, 8, value * 32);
    assert Round(x) == x;
    SpacingIsEight(x + b);
    hide IsDouble;
    RoundIsNearest(x + b, 0);
  }

  /** From 2^53 on, the byte that is added is lost. */
  lemma ByteIsLost(value: nat, b: nat)
    requires value >= TWO53 && IsDouble(value) && b < 256
    ensures Accumulate(value, b) == value * 256 && IsDouble(value * 256)
  {
    var q := Quantum(value);
    assert q >= 2;
    QuantumOf256(value * 256);
    QuantumOf256(value * 256 + b);
    DivModLaw(value, q);
    var k := value / q;
    assert value * 256 == k * (256 * q);
    MultipleIs(value * 256, 256 * q, k);
    RoundsDown(value * 256 + b, 256 * q, k, b);
  }

  lemma RoundsDown(n: nat, q: nat, k: nat, low: nat)
    requires q > 0 && n == k * q + low && 2 * low < q
    ensures RoundTo(n, q) == n - low
  {
    QuotientUnique(n, q, k, low);
  }

  /** Adding multiples of 16 does not change how the lowest bits are rounded off to a multiple of 8. */
  lemma RoundToEight(c: nat, n: nat)
    ensures RoundTo(16 * c + n, 8) == 16 * c + RoundTo(n, 8)
    ensures RoundTo(n, 8) % 8 == 0
    ensures n % 8 == 0 ==> RoundTo(n, 8) == n
  {
    var k, low := n / 8, n % 8;
    QuotientUnique(16 * c + n, 8, 2 * c + k, low);
    AddMultiple(c, 2, k);
    MultipleIs(8 * k, 8, k);
    MultipleIs(8 * (k + 1), 8, k + 1);
  }

  lemma SpacingIsEight(n: nat)
    requires 8 * TWO52 <= n < 8 * TWO53
    ensures Quantum(n) == 8
  {
    assert Pow2(3) == 8;
    QuantumIs(n, 3);
  }
}
