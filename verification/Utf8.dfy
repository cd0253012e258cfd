/** Well-formed UTF-8 (RFC 3629), as std::str::from_utf8 accepts it. */
module Utf8 {
  import opened Words
  import opened Codec

  predicate IsUtf8(s: bytes) {
    if s == [] then true
    else if s[0] < 0x80 then IsUtf8(s[1..])
    else if 0xc2 <= s[0] < 0xe0 then |s| >= 2 && IsTail(s[1]) && IsUtf8(s[2..])
    else if 0xe0 <= s[0] < 0xf0 then
      && |s| >= 3 && IsTail(s[1]) && IsTail(s[2])
      && (s[0] == 0xe0 ==> s[1] >= 0xa0) && (s[0] == 0xed ==> s[1] < 0xa0) && IsUtf8(s[3..])
    else if 0xf0 <= s[0] < 0xf5 then
      && |s| >= 4 && IsTail(s[1]) && IsTail(s[2]) && IsTail(s[3])
      && (s[0] == 0xf0 ==> s[1] >= 0x90) && (s[0] == 0xf4 ==> s[1] < 0x90) && IsUtf8(s[4..])
    else false
  }

  predicate IsTail(b: byte) { 0x80 <= b < 0xc0 }

  // ----- characters -----

  /** A Unicode scalar value: any code point but the surrogates. */
  type scalar = c: int | 0 <= c < 0xd800 || 0xe000 <= c < 0x11_0000

  /** The octets of a character, section 3 of RFC 3629. */
  function EncodeScalar(c: scalar): (s: bytes)
    ensures s != []
  {
    if c < 0x80 then [c as byte]
    else if c < 0x800 then [Lead(0xc0, c / 0x40), Tail(c)]
    else if c < 0x1_0000 then [Lead(0xe0, c / 0x1000), Tail(c / 0x40), Tail(c)]
    else [Lead(0xf0, c / 0x4_0000), Tail(c / 0x1000), Tail(c / 0x40), Tail(c)]
  }

  function Lead(mark: byte, n: nat): byte
    requires mark + n < 0x100
  {
    mark + n
  }

  /** The six low-order bits. */
  function Tail(n: nat): byte { 0x80 + n % 0x40 }

  function EncodeScalars(cs: seq<scalar>): bytes {
    if cs == [] then [] else EncodeScalar(cs[0]) + EncodeScalars(cs[1..])
  }

  /** In front of any string, the octets of a character make no difference to whether it is well
      formed. */
  lemma ScalarInFront(c: scalar, rest: bytes)
    ensures IsUtf8(EncodeScalar(c) + rest) <==> IsUtf8(rest)
  {
    var e := EncodeScalar(c);
    var s := e + rest;
    assert s[|e|..] == rest;
    assert forall i :: 0 < i < |e| ==> IsTail(s[i]);
    assert s[0] == e[0] && (|e| > 1 ==> s[1] == e[1]);
    SecondOctet(c);
  }

  /** The limits on the second octet: no overlong form, no surrogate, nothing past 0x10ffff. */
  lemma SecondOctet(c: scalar)
    ensures var e := EncodeScalar(c);
            && |e| == (if e[0] < 0x80 then 1 else if e[0] < 0xe0 then 2 else if e[0] < 0xf0 then 3 else 4)
            && (e[0] < 0x80 || 0xc2 <= e[0] < 0xf5)
            && (e[0] == 0xe0 ==> e[1] >= 0xa0) && (e[0] == 0xed ==> e[1] < 0xa0)
            && (e[0] == 0xf0 ==> e[1] >= 0x90) && (e[0] == 0xf4 ==> e[1] < 0x90)
  {
  }

  /** A well-formed string that is not empty starts with a character. */
  lemma FirstScalar(s: bytes) returns (c: scalar)
    requires s != [] && IsUtf8(s)
    ensures EncodeScalar(c) <= s && IsUtf8(s[|EncodeScalar(c)|..])
  {
    var a: int := s[0];
    if a < 0x80 {
      c := a;
    } else if a < 0xe0 {
      c := TwoOctets(s[0], s[1]);
    } else if a < 0xf0 {
      c := ThreeOctets(s[0], s[1], s[2]);
    } else {
      c := FourOctets(s[0], s[1], s[2], s[3]);
    }
  }

  lemma TwoOctets(a: int, b: byte) returns (c: scalar)
    requires 0xc2 <= a < 0xe0 && IsTail(b)
    ensures EncodeScalar(c) == [a, b]
  {
    var high, low: int := a - 0xc0, b - 0x80;
    c := high * 0x40 + low;
    QuotientUnique(c, 0x40, high, low);
  }

  lemma ThreeOctets(a: int, b: byte, d: byte) returns (c: scalar)
    requires 0xe0 <= a < 0xf0 && IsTail(b) && IsTail(d)
    requires (a == 0xe0 ==> b >= 0xa0) && (a == 0xed ==> b < 0xa0)
    ensures EncodeScalar(c) == [a, b, d]
  {
    var high, mid: int, low: int := a - 0xe0, b - 0x80, d - 0x80;
    var n := high * 0x40 + mid;
    c := n * 0x40 + low;
    QuotientUnique(c, 0x40, n, low);
    QuotientUnique(n, 0x40, high, mid);
    QuotientUnique(c, 0x1000, high, mid * 0x40 + low);
  }

  lemma FourOctets(a: int, b: byte, d: byte, e: byte) returns (c: scalar)
    requires 0xf0 <= a < 0xf5 && IsTail(b) && IsTail(d) && IsTail(e)
    requires (a == 0xf0 ==> b >= 0x90) && (a == 0xf4 ==> b < 0x90)
    ensures EncodeScalar(c) == [a, b, d, e]
  {
    var high, mid: int, next: int, low: int := a - 0xf0, b - 0x80, d - 0x80, e - 0x80;
    var m := high * 0x40 + mid;
    var n := m * 0x40 + next;
    c := n * 0x40 + low;
    QuotientUnique(c, 0x40, n, low);
    QuotientUnique(n, 0x40, m, next);
    QuotientUnique(m, 0x40, high, mid);
    QuotientUnique(c, 0x1000, m, next * 0x40 + low);
    QuotientUnique(c, 0x4_0000, high, (mid * 0x40 + next) * 0x40 + low);
  }

  lemma {:induction false} EncodedIsUtf8(cs: seq<scalar>)
    ensures IsUtf8(EncodeScalars(cs))
  {
    if cs != [] {
      EncodedIsUtf8(cs[1..]);
      ScalarInFront(cs[0], EncodeScalars(cs[1..]));
    }
  }

  lemma {:induction false} DecodeUtf8(s: bytes) returns (cs: seq<scalar>)
    requires IsUtf8(s)
    ensures s == EncodeScalars(cs)
    decreases |s|
  {
    if s == [] {
      cs := [];
    } else {
      var c := FirstScalar(s);
      hide IsUtf8, EncodeScalar;
      var rest := DecodeUtf8(s[|EncodeScalar(c)|..]);
      cs := [c] + rest;
      assert cs[1..] == rest;
    }
  }

  /** A byte string is accepted if and only if it is the encoding of a list of characters. */
  lemma Utf8Iff(s: bytes)
    ensures IsUtf8(s) <==> exists cs :: s == EncodeScalars(cs)
  {
    if IsUtf8(s) {
      var cs := DecodeUtf8(s);
    }
    forall cs | s == EncodeScalars(cs) ensures IsUtf8(s) {
      EncodedIsUtf8(cs);
    }
  }

  lemma {:induction false} AsciiIsUtf8(s: bytes)
    requires forall i :: 0 <= i < |s| ==> s[i] < 0x80
    ensures IsUtf8(s)
  {
    if s != [] {
      AsciiIsUtf8(s[1..]);
    }
  }
}
