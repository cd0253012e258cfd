/** The TypeScript message framing (web/src/wire/message.ts), against the framing of
    moqt-core/src/wire/mod.rs. */
module TsMessage {
  import opened Words
  import opened Codec
  import opened TsVarint
  import Varint
  import Messages

  // ----- specification -----

  datatype TsFrame = TsFrame(msgType: nat, payload: bytes)

  function ParseTsFrame(s: bytes): Parse<TsFrame> {
    var (t, s1) :- ParseNumber(s);
    var (n, s2) :- Messages.ParseLength(s1);
    var (payload, s3) :- TakeBytes(s2, n);
    Accept(TsFrame(t, payload), s3)
  }

  /** The two decoders agree on the payload of every frame that does not start with 0xfd, and on its type
      if and only if the type survives the doubles. */
  lemma DecodersAgree(s: bytes)
    requires s == [] || s[0] != 0xfd
    ensures var ts, rust := ParseTsFrame(s), Messages.ParseFrame(s);
            && (ts.Accept? <==> rust.Accept?)
            && (rust.Accept? ==>
                  && ts.value.payload == rust.value.payload && ts.rest == rust.rest
                  && (ts.value.msgType == rust.value.msgType <==> Survives(rust.value.msgType, Varint.Width(s[0]))))
  {
    hide ParseNumber, Varint.ParseVarint, Messages.ParseLength, Survives, Varint.Width;
    AgreesWithRust(s);
  }

  lemma LengthBytes(n: number)
    ensures BitAnd(ShiftRight(n, 8), 0xff) < 0x100 && BitAnd(n, 0xff) < 0x100
    ensures [BitAnd(ShiftRight(n, 8), 0xff), BitAnd(n, 0xff)] == BigEndian(n % U16, 2)
  {
    ShiftIsDivision(n);
    hide BitAnd, ShiftRight, BigEndian;
    BitAndIsRemainder(n / 256, 0xff);
    BitAndIsRemainder(n, 0xff);
    DivideTwice(n, 256);
    QuotientUnique(n % U16, 256, n / 256 % 256, n % 256);
    Messages.LengthBytes(n % U16);
  }

  // ----- the code -----

  /** What a TypeScript client sends is, byte for byte, what the Rust encoder writes, including the
      length modulo 2^16. */
  method EncodeMessage(msgType: number, payload: bytes) returns (buf: array<byte>)
    requires |payload| <= MAX_SAFE_INTEGER
    ensures fresh(buf) && buf[..] == Messages.FrameBytes(msgType, payload)
  {
    hide Varint.Encode, BitAnd, ShiftRight, BigEndian;
    var typeBytes := EncodeVarint(msgType);
    var len: number := |payload|;
    var n := typeBytes.Length;
    LengthBytes(len);
    buf := new byte[n + 2 + len];
    Set(buf, typeBytes[..], 0);
    buf[n] := BitAnd(ShiftRight(len, 8), 0xff);
    buf[n + 1] := BitAnd(len, 0xff);
    assert buf[..n] == typeBytes[..];
    HeadOf(buf[..], typeBytes[..], buf[n], buf[n + 1]);
    Set(buf, payload, n + 2);
    InThreeParts(buf[..], typeBytes[..], BigEndian(len % U16, 2), payload);
  }

  lemma HeadOf(s: bytes, head: bytes, a: byte, b: byte)
    requires |head| + 2 <= |s| && s[..|head|] == head && s[|head|] == a && s[|head| + 1] == b
    ensures s[..|head| + 2] == head + [a, b]
  {
  }

  lemma InThreeParts(s: bytes, a: bytes, b: bytes, c: bytes)
    requires |s| == |a| + |b| + |c| && s[..|a| + |b|] == a + b && s[|a| + |b|..] == c
    ensures s == a + (b + c)
  {
  }

  /** `buf.set(s, at)` */
  method Set(buf: array<byte>, s: bytes, at: nat)
    requires at + |s| <= buf.Length
    modifies buf
    ensures buf[..at] == old(buf[..at]) && buf[at..at + |s|] == s && buf[at + |s|..] == old(buf[at + |s|..])
  {
    forall i | 0 <= i < |s| {
      buf[at + i] := s[i];
    }
  }

  method DecodeMessage(buf: bytes, offset: nat) returns (r: Result<(TsFrame, nat)>)
    ensures match ParseTsFrame(From(buf, offset))
            case Accept(f, rest) => r == Ok((f, |buf| - offset - |rest|))
            case Reject => r == Err
  {
    hide ParseNumber;
    ghost var s := From(buf, offset);
    NumberIsPrefix(s);
    var decoded :- DecodeVarint(buf, offset);
    var (msgType, typeLen) := decoded;
    var lenOffset := offset + typeLen;
    Slices(buf, offset, typeLen);
    if lenOffset + 2 > |buf| {
      return Err;
    }
    var payloadLen: nat := (buf[lenOffset] as int) * 256 + buf[lenOffset + 1] as int;
    var payloadOffset := lenOffset + 2;
    Slices(buf, lenOffset, 2);
    if payloadOffset + payloadLen > |buf| {
      return Err;
    }
    Slices(buf, payloadOffset, payloadLen);
    r := Ok((TsFrame(msgType, buf[payloadOffset..payloadOffset + payloadLen]), typeLen + 2 + payloadLen));
  }

  lemma Slices(buf: bytes, at: nat, n: nat)
    requires at + n <= |buf|
    ensures buf[at..][n..] == buf[at + n..] && buf[at..][..n] == buf[at..at + n]
  {
  }

  lemma NumberIsPrefix(s: bytes)
    ensures ParseNumber(s).Accept? ==> |ParseNumber(s).rest| <= |s| && ParseNumber(s).rest == s[|s| - |ParseNumber(s).rest|..]
  {
  }

  /** A Rust peer reads back what a TypeScript client sent, if the payload fits the length field. */
  lemma RustReadsTypeScript(msgType: number, payload: bytes, rest: bytes)
    requires |payload| < U16
    ensures Messages.ParseFrame(Messages.FrameBytes(msgType, payload) + rest) ==
            Accept(Messages.Frame(msgType, payload), rest)
  {
    hide Messages.FrameBytes, Messages.ParseFrame;
    Messages.FrameRoundTrip(msgType, payload, rest);
    assert payload[..|payload|] == payload && payload[|payload|..] + rest == rest;
  }

  /** ... and a TypeScript peer reads the payload back, and the type if and only if it is below 2^42 or a
      multiple of 2^11. */
  lemma TypeScriptReadsItself(msgType: number, payload: bytes, rest: bytes)
    requires |payload| < U16
    ensures var back := ParseTsFrame(Messages.FrameBytes(msgType, payload) + rest);
            && back.Accept? && back.value.payload == payload && back.rest == rest
            && (back.value.msgType == msgType <==> msgType < 0x400_0000_0000 || msgType % 0x800 == 0)
  {
    var s := Messages.FrameBytes(msgType, payload) + rest;
    RustReadsTypeScript(msgType, payload, rest);
    FirstOfEncoding(msgType);
    assert s[0] == Varint.Encode(msgType)[0];
    hide Messages.FrameBytes, Messages.ParseFrame, ParseTsFrame, Varint.Encode, Varint.Width;
    DecodersAgree(s);
  }
}
