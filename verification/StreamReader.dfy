/** The TypeScript stream reader (web/src/stream/stream-reader.ts): reads of any size over a stream
    that arrives in chunks of any size. */
module StreamReader {
  import opened Words
  import opened Codec
  import opened TsVarint
  import Varint
  import Messages
  import Streams

  function Flatten(chunks: seq<bytes>): bytes {
    if chunks == [] then [] else chunks[0] + Flatten(chunks[1..])
  }

  datatype ReadResult = Chunk(value: bytes) | End | Aborted

  /** A ReadableStream reader: chunks, possibly empty, and then either the end or a rejection. */
  class ChunkReader {
    var chunks: seq<bytes>
    const aborts: bool

    constructor (chunks: seq<bytes>, aborts: bool)
      ensures this.chunks == chunks && this.aborts == aborts
    {
      this.chunks := chunks;
      this.aborts := aborts;
    }

    method Read() returns (r: ReadResult)
      modifies this
      ensures if old(chunks) == [] then chunks == [] && r == (if aborts then Aborted else End)
              else r == Chunk(old(chunks)[0]) && chunks == old(chunks)[1..]
    {
      if chunks == [] {
        return if aborts then Aborted else End;
      }
      r := Chunk(chunks[0]);
      chunks := chunks[1..];
    }
  }

  // ----- what reads return, in terms of the stream alone -----

  function NumberAndRaw(s: bytes): Parse<(nat, bytes)> {
    var (v, rest) :- ParseNumber(s);
    Accept((v, Streams.Consumed(s, rest)), rest)
  }

  /** The raw bytes of a message frame. */
  function RawFrame(s: bytes): Parse<bytes> {
    var (_, s1) :- ParseNumber(s);
    var (n, s2) :- Messages.ParseLength(s1);
    var (_, s3) :- TakeBytes(s2, n);
    Accept(Streams.Consumed(s, s3), s3)
  }

  /** The frames of the two implementations are the same bytes, for every stream that does not start
      with the code point on which they differ. */
  lemma FramesAgreeWithRust(s: bytes)
    requires s == [] || s[0] != 0xfd
    ensures RawFrame(s) ==
            match Messages.ParseFrame(s)
            case Accept(_, rest) => Accept(Streams.Consumed(s, rest), rest)
            case Reject => Reject
  {
    hide ParseNumber, Varint.ParseVarint, Messages.ParseLength;
    AgreesWithRust(s);
  }

  /** The raw bytes of a number are what was read of the stream, and they alone give the number. */
  lemma RawIsWhatWasRead(s: bytes)
    requires NumberAndRaw(s).Accept?
    ensures var Accept((v, raw), rest) := NumberAndRaw(s);
            s == raw + rest && raw != [] && ParseNumber(raw) == Accept(v, [])
  {
    var k := VarintByteLength(s[0]).value;
    NumberSplits(s, k);
    hide ParseNumber;
    assert s == s[..k] + s[k..];
  }

  lemma NumberSplits(s: bytes, k: nat)
    requires s != [] && VarintByteLength(s[0]) == Ok(k) && k <= |s|
    ensures s[..1] + s[1..][..k - 1] == s[..k] && s[1..][k - 1..] == s[k..]
    ensures NumberAndRaw(s).Accept?
    ensures NumberAndRaw(s) == Accept((ParseNumber(s).value, s[..k]), s[k..])
    ensures Streams.Splits(s, s[k..])
    ensures ParseNumber(s[..k]) == Accept(ParseNumber(s).value, [])
  {
    Streams.ConsumedPrefix(s, k);
    assert s[..k][..k] == s[..k];
  }

  // ----- the code -----

  class StreamReader {
    const reader: ChunkReader
    var buffer: bytes
    var done: bool

    constructor (readable: ChunkReader)
      ensures Valid() && reader == readable && Pending() == Flatten(readable.chunks)
    {
      reader := readable;
      buffer := [];
      done := false;
    }

    /** The end has been seen only after the last chunk, and only on a stream that ends. */
    ghost predicate Valid()
      reads this, reader
    {
      done ==> reader.chunks == [] && !reader.aborts
    }

    /** The rest of the stream: what is buffered and what is still to arrive. */
    ghost function Pending(): bytes
      reads this, reader
    {
      buffer + Flatten(reader.chunks)
    }

    /** readExact. The result depends on the rest of the stream only, not on how it is cut; a failed
        read loses nothing. */
    method ReadExact(n: nat) returns (r: Result<bytes>)
      requires Valid()
      modifies this, reader
      ensures Valid()
      ensures match TakeBytes(old(Pending()), n)
              case Accept(s, rest) => r == Ok(s) && Pending() == rest
              case Reject => r == Err && Pending() == old(Pending())
    {
      while |buffer| < n
        invariant Valid() && Pending() == old(Pending())
        decreases |reader.chunks|, !done
      {
        if done {
          Exhausted(buffer);
          return Err;
        }
        ghost var before := buffer;
        var next := reader.Read();
        match next {
          case Aborted =>
            Exhausted(buffer);
            return Err;
          case End =>
            done := true;
            Exhausted(buffer);
            return Err;
          case Chunk(value) =>
            Concat3(before, value, Flatten(reader.chunks));
            buffer := buffer + value;
        }
      }
      TakeBuffered(buffer, Flatten(reader.chunks), n);
      r := Ok(buffer[..n]);
      buffer := buffer[n..];
    }

    /** tryReadExact. Nothing at all, cleanly ended, is not a failure. */
    method TryReadExact(n: nat) returns (r: Result<Option<bytes>>)
      requires Valid()
      modifies this, reader
      ensures Valid()
      ensures match TakeBytes(old(Pending()), n)
              case Accept(s, rest) => r == Ok(Some(s)) && Pending() == rest
              case Reject =>
                && Pending() == old(Pending())
                && r == if old(Pending()) == [] && !reader.aborts then Ok(None) else Err
    {
      while |buffer| < n
        invariant Valid() && Pending() == old(Pending())
        decreases |reader.chunks|, !done
      {
        if done {
          Exhausted(buffer);
          return if buffer == [] then Ok(None) else Err;
        }
        ghost var before := buffer;
        var next := reader.Read();
        match next {
          case Aborted =>
            Exhausted(buffer);
            return Err;
          case End =>
            done := true;
            Exhausted(buffer);
            return if buffer == [] then Ok(None) else Err;
          case Chunk(value) =>
            Concat3(before, value, Flatten(reader.chunks));
            buffer := buffer + value;
        }
      }
      TakeBuffered(buffer, Flatten(reader.chunks), n);
      r := Ok(Some(buffer[..n]));
      buffer := buffer[n..];
    }

    method ReadVarint() returns (r: Result<(nat, bytes)>)
      requires Valid()
      modifies this, reader
      ensures Valid()
      ensures match NumberAndRaw(old(Pending()))
              case Accept(v, rest) => r == Ok(v) && Pending() == rest
              case Reject => r == Err
    {
      var first :- ReadExact(1);
      r := ReadRest(first, old(Pending()));
    }

    method TryReadVarint() returns (r: Result<Option<(nat, bytes)>>)
      requires Valid()
      modifies this, reader
      ensures Valid()
      ensures match NumberAndRaw(old(Pending()))
              case Accept(v, rest) => r == Ok(Some(v)) && Pending() == rest
              case Reject => r == if old(Pending()) == [] && !reader.aborts then Ok(None) else Err
      ensures r == Ok(None) ==> Pending() == []
    {
      var first :- TryReadExact(1);
      if first.None? {
        return Ok(None);
      }
      var v :- ReadRest(first.value, old(Pending()));
      r := Ok(Some(v));
    }

    /** The part that readVarint and tryReadVarint share. */
    method ReadRest(first: bytes, ghost s: bytes) returns (r: Result<(nat, bytes)>)
      requires Valid()
      requires s != [] && first == s[..1] && Pending() == s[1..]
      modifies this, reader
      ensures Valid()
      ensures match NumberAndRaw(s)
              case Accept(v, rest) => r == Ok(v) && Pending() == rest
              case Reject => r == Err
    {
      hide ParseNumber;
      ShortNumber(s);
      var len :- VarintByteLength(first[0]);
      if len == 1 {
        NumberSplits(s, 1);
        var decoded := DecodeVarint(first, 0);
        return Ok((decoded.value.0, first));
      }
      var rest :- ReadExact(len - 1);
      NumberSplits(s, len);
      var raw := first + rest;
      assert raw[0..] == raw;
      var decoded := DecodeVarint(raw, 0);
      r := Ok((decoded.value.0, raw));
    }

    method ReadMessageFrame() returns (r: Result<bytes>)
      requires Valid()
      modifies this, reader
      ensures Valid()
      ensures match RawFrame(old(Pending()))
              case Accept(frame, rest) => r == Ok(frame) && Pending() == rest
              case Reject => r == Err
    {
      hide ParseNumber, Streams.Consumed;
      ghost var s := Pending();
      var ty :- ReadVarint();
      ghost var s1 := Pending();
      NumberLeavesSuffix(s);
      var lenBytes :- ReadExact(2);
      var payloadLen: nat := (lenBytes[0] as int) * 256 + lenBytes[1] as int;
      ghost var s2 := Pending();
      var payload :- ReadExact(payloadLen);
      Streams.ConsumedPrefix(s1, 2);
      Streams.ConsumedPrefix(s2, payloadLen);
      Streams.ConsumedTwice(s, s1, s2);
      Streams.ConsumedTwice(s, s2, s2[payloadLen..]);
      r := Ok(ty.1 + lenBytes + payload);
    }
  }

  lemma Exhausted(s: bytes)
    ensures s + Flatten([]) == s
  {
  }

  lemma TakeBuffered(s: bytes, more: bytes, n: nat)
    requires n <= |s|
    ensures TakeBytes(s + more, n) == Accept(s[..n], s[n..] + more)
  {
    assert (s + more)[..n] == s[..n] && (s + more)[n..] == s[n..] + more;
  }

  lemma ShortNumber(s: bytes)
    requires s != []
    ensures NumberAndRaw(s).Accept? <==> VarintByteLength(s[0]).Ok? && VarintByteLength(s[0]).value <= |s|
  {
  }

  lemma NumberLeavesSuffix(s: bytes)
    requires ParseNumber(s).Accept?
    ensures Streams.Splits(s, ParseNumber(s).rest)
  {
    NumberSplits(s, VarintByteLength(s[0]).value);
  }

  // ----- chunk independence -----

  datatype Op = ExactOp(n: nat) | TryExactOp(n: nat) | VarintOp | TryVarintOp | FrameOp

  datatype Outcome = Bytes(s: bytes) | Number(v: nat, raw: bytes) | Nothing | Failure

  /** What one read returns on the stream rest `s`, and what it leaves. */
  function Step(op: Op, s: bytes, aborts: bool): (Outcome, bytes) {
    match op
    case ExactOp(n) =>
      (match TakeBytes(s, n) case Accept(b, rest) => (Bytes(b), rest) case Reject => (Failure, s))
    case TryExactOp(n) =>
      (match TakeBytes(s, n)
       case Accept(b, rest) => (Bytes(b), rest)
       case Reject => (if s == [] && !aborts then Nothing else Failure, s))
    case VarintOp =>
      (match NumberAndRaw(s) case Accept(v, rest) => (Number(v.0, v.1), rest) case Reject => (Failure, s))
    case TryVarintOp =>
      (match NumberAndRaw(s)
       case Accept(v, rest) => (Number(v.0, v.1), rest)
       case Reject => (if s == [] && !aborts then Nothing else Failure, s))
    case FrameOp =>
      (match RawFrame(s) case Accept(b, rest) => (Bytes(b), rest) case Reject => (Failure, s))
  }

  /** The results of a sequence of reads, up to the first failure. */
  function Outcomes(ops: seq<Op>, s: bytes, aborts: bool): seq<Outcome> {
    if ops == [] then []
    else
      var (o, rest) := Step(ops[0], s, aborts);
      if o.Failure? then [o] else [o] + Outcomes(ops[1..], rest, aborts)
  }

  method Perform(op: Op, reader: StreamReader) returns (o: Outcome)
    requires reader.Valid()
    modifies reader, reader.reader
    ensures reader.Valid()
    ensures o == Step(op, old(reader.Pending()), reader.reader.aborts).0
    ensures !o.Failure? ==> reader.Pending() == Step(op, old(reader.Pending()), reader.reader.aborts).1
  {
    hide NumberAndRaw, RawFrame, TakeBytes;
    match op
    case ExactOp(n) =>
      var r := reader.ReadExact(n);
      o := if r.Ok? then Bytes(r.value) else Failure;
    case TryExactOp(n) =>
      var r := reader.TryReadExact(n);
      o := if r.Err? then Failure else if r.value.None? then Nothing else Bytes(r.value.value);
    case VarintOp =>
      var r := reader.ReadVarint();
      o := if r.Ok? then Number(r.value.0, r.value.1) else Failure;
    case TryVarintOp =>
      var r := reader.TryReadVarint();
      o := if r.Err? then Failure else if r.value.None? then Nothing
           else Number(r.value.value.0, r.value.value.1);
    case FrameOp =>
      var r := reader.ReadMessageFrame();
      o := if r.Ok? then Bytes(r.value) else Failure;
  }

  /** Any sequence of reads, on any two readers whose streams carry the same bytes in whatever
      chunks: the same results up to the first failure. */
  method SameResults(ops: seq<Op>, a: StreamReader, b: StreamReader) returns (ra: seq<Outcome>, rb: seq<Outcome>)
    requires a.Valid() && b.Valid() && a != b && a.reader != b.reader
    requires a.Pending() == b.Pending() && a.reader.aborts == b.reader.aborts
    modifies a, a.reader, b, b.reader
    ensures ra == rb == Outcomes(ops, old(a.Pending()), a.reader.aborts)
  {
    ra := PerformAll(ops, a);
    rb := PerformAll(ops, b);
  }

  method PerformAll(ops: seq<Op>, reader: StreamReader) returns (outs: seq<Outcome>)
    requires reader.Valid()
    modifies reader, reader.reader
    ensures reader.Valid()
    ensures outs == Outcomes(ops, old(reader.Pending()), reader.reader.aborts)
  {
    hide Step;
    outs := [];
    if ops != [] {
      var o := Perform(ops[0], reader);
      outs := [o];
      if !o.Failure? {
        var more := PerformAll(ops[1..], reader);
        outs := outs + more;
      }
    }
  }
}
