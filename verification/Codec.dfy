/** What every encoder and decoder of the wire library works on: results, a growing output buffer
    (`&mut Vec<u8>`) and a byte slice that is advanced in place (`&mut &[u8]`). */
module Codec {
  import opened Words

  datatype Option<+T> = None | Some(value: T)

  /** `anyhow::Result`, without the error text. */
  datatype Result<+T> = Ok(value: T) | Err {
    predicate IsFailure() { Err? }

    function PropagateFailure<U>(): (r: Result<U>)
      requires Err?
      ensures r.Err?
    {
      Err
    }

    function Extract(): T
      requires Ok?
    {
      value
    }
  }

  /** The outcome of a specification parser: a value and the bytes it left, or no value. */
  datatype Parse<+T> = Accept(value: T, rest: bytes) | Reject {
    predicate IsFailure() { Reject? }

    function PropagateFailure<U>(): (r: Parse<U>)
      requires Reject?
      ensures r.Reject?
    {
      Reject
    }

    function Extract(): (T, bytes)
      requires Accept?
    {
      (value, rest)
    }
  }

  /** A decoder that returned `r` and left the slice at `left` did what the parser `p` says. A
      failing decoder abandons its slice, so nothing is said about `left` then. */
  predicate Follows<T(==)>(r: Result<T>, left: bytes, p: Parse<T>) {
    match p
    case Accept(value, rest) => r == Ok(value) && left == rest
    case Reject => r == Err
  }

  lemma Concat3<T>(a: seq<T>, b: seq<T>, c: seq<T>)
    ensures a + b + c == a + (b + c)
  {
  }

  class Buffer {
    var data: bytes

    constructor ()
      ensures data == []
    {
      data := [];
    }

    method Push(b: byte)
      modifies this
      ensures data == old(data) + [b]
    {
      data := data + [b];
    }

    method Extend(s: bytes)
      modifies this
      ensures data == old(data) + s
    {
      data := data + s;
    }
  }

  class Cursor {
    var left: bytes

    constructor (s: bytes)
      ensures left == s
    {
      left := s;
    }

    /** `buf[..n].to_vec()` followed by `*buf = &buf[n..]`, after the length check that guards it. */
    method Take(n: nat) returns (r: Result<bytes>)
      modifies this
      ensures Follows(r, left, TakeBytes(old(left), n))
    {
      if |left| < n {
        return Err;
      }
      r := Ok(left[..n]);
      left := left[n..];
    }
  }

  function TakeBytes(s: bytes, n: nat): Parse<bytes> {
    if |s| < n then Reject else Accept(s[..n], s[n..])
  }

  lemma TakeFromConcat(s: bytes, rest: bytes)
    ensures TakeBytes(s + rest, |s|) == Accept(s, rest)
  {
    assert (s + rest)[..|s|] == s;
    assert (s + rest)[|s|..] == rest;
  }
}
