/** Byte strings behind a varint length: the shape of namespace fields, track names, track
    properties, reason phrases and parameter values. */
module Blocks {
  import opened Words
  import opened Codec
  import opened Varint

  function EncodeBlock(b: blob): bytes {
    Encode(|b|) + b
  }

  function ParseBlock(s: bytes): Parse<blob> {
    var (len, s1) :- ParseVarint(s);
    var (b, s2) :- TakeBytes(s1, len);
    Accept(b, s2)
  }

  lemma ParseEncodedBlock(b: blob, rest: bytes)
    ensures ParseBlock(EncodeBlock(b) + rest) == Accept(b, rest)
  {
    Concat3(Encode(|b|), b, rest);
    RoundTrip(|b|, b + rest);
    TakeFromConcat(b, rest);
  }

  lemma TakeIsLocal(s: bytes, n: nat, more: bytes)
    requires TakeBytes(s, n).Accept?
    ensures TakeBytes(s + more, n) == Accept(TakeBytes(s, n).value, TakeBytes(s, n).rest + more)
  {
    assert (s + more)[..n] == s[..n] && (s + more)[n..] == s[n..] + more;
  }

  lemma BlockIsLocal(s: bytes, more: bytes)
    requires ParseBlock(s).Accept?
    ensures ParseBlock(s + more) == Accept(ParseBlock(s).value, ParseBlock(s).rest + more)
  {
    ParseIsLocal(s, more);
    var Accept(len, s1) := ParseVarint(s);
    TakeIsLocal(s1, len, more);
  }

  /** An accepted block takes up at least the bytes of its canonical encoding. */
  lemma BlockIsShortest(s: bytes)
    requires ParseBlock(s).Accept?
    ensures |EncodeBlock(ParseBlock(s).value)| + |ParseBlock(s).rest| <= |s|
  {
    EncodeIsShortest(s);
  }
}
