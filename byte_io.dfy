/**
 * The part of .NET's BinaryReader over a seekable stream that the texture reader uses:
 * little-endian unsigned reads, ReadBytes, and assignments to Position.
 */
module ByteIO {
  import opened Wrappers

  type byte = x: int | 0 <= x < 256

  const U32_MODULUS: int := 0x1_0000_0000
  const I32_LIMIT: int := 0x8000_0000

  /** Errors the stream and the reader raise. */
  datatype IoError =
    | EndOfStream        // EndOfStreamException: fewer bytes left than a fixed-size read needs
    | NegativePosition   // ArgumentOutOfRangeException: Position set below zero
    | NegativeCount      // ArgumentOutOfRangeException: ReadBytes given a negative count

  /** Little-endian unsigned 16-bit value at byte offset p. */
  function U16At(data: seq<byte>, p: nat): (r: nat)
    requires p + 2 <= |data|
    ensures r < 0x1_0000
  {
    data[p] as int + 0x100 * data[p + 1] as int
  }

  /** Little-endian unsigned 32-bit value at byte offset p. */
  function U32At(data: seq<byte>, p: nat): (r: nat)
    requires p + 4 <= |data|
    ensures r < U32_MODULUS
  {
    U16At(data, p) + 0x1_0000 * U16At(data, p + 2)
  }

  /** C# `uint` subtraction: wraps modulo 2^32. */
  function U32Sub(a: nat, b: nat): (r: nat)
    requires a < U32_MODULUS && b < U32_MODULUS
    ensures r < U32_MODULUS
    ensures b <= a ==> r == a - b
    ensures a < b ==> r == a - b + U32_MODULUS
  {
    (a - b) % U32_MODULUS
  }

  /** C# unchecked conversion of a value to `int` (two's complement, 32 bits). */
  function Int32(x: int): (r: int)
    ensures -I32_LIMIT <= r < I32_LIMIT
    ensures (r - x) % U32_MODULUS == 0
    ensures -I32_LIMIT <= x < I32_LIMIT ==> r == x
  {
    var m := x % U32_MODULUS;
    if m < I32_LIMIT then m else m - U32_MODULUS
  }

  function Min(a: int, b: int): int { if a <= b then a else b }

  /** The bytes ReadBytes(n) returns at position p: at most n, fewer when the stream ends first. */
  function Slice(data: seq<byte>, p: nat, n: nat): (r: seq<byte>)
    ensures |r| <= n
    ensures p + n <= |data| ==> r == data[p..p + n]
    ensures p + n > |data| ==> |r| == if p <= |data| then |data| - p else 0
    ensures forall k :: 0 <= k < |r| ==> r[k] == data[p + k]
  {
    data[Min(p, |data|)..Min(p + n, |data|)]
  }

  /** A BinaryReader over an in-memory stream: the bytes and the stream's Position. */
  class Reader {
    const data: seq<byte>
    var pos: nat

    constructor (data: seq<byte>)
      ensures this.data == data && pos == 0
    {
      this.data := data;
      pos := 0;
    }

    /** Where a fixed-size read leaves Position when it runs out of bytes. */
    function EndPos(): nat
      reads this
    {
      if pos < |data| then |data| else pos
    }

    /** Assignment to BaseStream.Position. */
    method Seek(p: int) returns (ok: bool)
      modifies this
      ensures ok == (p >= 0)
      ensures pos == if ok then p else old(pos)
    {
      ok := p >= 0;
      if ok {
        pos := p;
      }
    }

    method ReadByte() returns (r: Result<nat, IoError>)
      modifies this
      ensures old(pos) + 1 <= |data| ==> r == Success(data[old(pos)]) && pos == old(pos) + 1
      ensures old(pos) + 1 > |data| ==> r == Failure(EndOfStream) && pos == old(EndPos())
    {
      if pos + 1 <= |data| {
        r := Success(data[pos]);
        pos := pos + 1;
      } else {
        r := Failure(EndOfStream);
        pos := EndPos();
      }
    }

    method ReadU16() returns (r: Result<nat, IoError>)
      modifies this
      ensures old(pos) + 2 <= |data| ==> r == Success(U16At(data, old(pos))) && pos == old(pos) + 2
      ensures old(pos) + 2 > |data| ==> r == Failure(EndOfStream) && pos == old(EndPos())
    {
      if pos + 2 <= |data| {
        r := Success(U16At(data, pos));
        pos := pos + 2;
      } else {
        r := Failure(EndOfStream);
        pos := EndPos();
      }
    }

    method ReadU32() returns (r: Result<nat, IoError>)
      modifies this
      ensures old(pos) + 4 <= |data| ==> r == Success(U32At(data, old(pos))) && pos == old(pos) + 4
      ensures old(pos) + 4 > |data| ==> r == Failure(EndOfStream) && pos == old(EndPos())
    {
      if pos + 4 <= |data| {
        r := Success(U32At(data, pos));
        pos := pos + 4;
      } else {
        r := Failure(EndOfStream);
        pos := EndPos();
      }
    }

    /** ReadBytes(count): up to count bytes, fewer at the end of the stream; a negative count throws. */
    method ReadBytes(count: int) returns (r: Result<seq<byte>, IoError>)
      modifies this
      ensures count < 0 ==> r == Failure(NegativeCount) && pos == old(pos)
      ensures count >= 0 ==> r == Success(Slice(data, old(pos), count)) && pos == old(pos) + |r.value|
    {
      if count < 0 {
        r := Failure(NegativeCount);
      } else {
        var bytes := Slice(data, pos, count);
        r := Success(bytes);
        pos := pos + |bytes|;
      }
    }
  }
}
