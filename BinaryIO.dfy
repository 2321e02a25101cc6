/** The part of `System.IO.BinaryReader` (with ASCII encoding) that the raw
    reader relies on: a byte stream with a position, little-endian typed reads
    that fail at the end of the stream, and byte/char reads that return fewer
    items there instead of failing. */
module BinaryIO {
  import opened Common

  datatype IoError = EndOfStream | ArgumentOutOfRange | SeekBeforeBegin

  function Pow256(n: nat): (p: nat)
    ensures p >= 1
  {
    if n == 0 then 1 else 256 * Pow256(n - 1)
  }

  lemma Pow256Values()
    ensures Pow256(1) == 0x100 && Pow256(2) == 0x1_0000
    ensures Pow256(4) == TWO_32 && Pow256(8) == TWO_64
  {
    assert Pow256(1) == 256;
    assert Pow256(2) == 0x1_0000;
    assert Pow256(3) == 0x100_0000;
    assert Pow256(4) == TWO_32;
    assert Pow256(5) == 0x100_0000_0000;
    assert Pow256(6) == 0x1_0000_0000_0000;
    assert Pow256(7) == 0x100_0000_0000_0000;
  }

  /** The little-endian value of a byte sequence. */
  function LE(s: seq<byte>): (v: nat)
    ensures v < Pow256(|s|)
  {
    if s == [] then 0 else s[0] + 256 * LE(s[1..])
  }

  /** `BitConverter.ToInt16` on a little-endian machine: two bytes read as a
      signed 16-bit value. */
  function Int16LE(lo: byte, hi: byte): (v: int)
    ensures -0x8000 <= v < 0x8000
    ensures (v - (lo + 256 * hi)) % TWO_16 == 0
  {
    var u := lo + 256 * hi;
    if u >= 0x8000 then u - TWO_16 else u
  }

  /** ASCII decoding of one byte: bytes above 127 become '?'. */
  function AsciiChar(b: byte): char
  {
    if b < 128 then b as char else '?'
  }

  function Ascii(s: seq<byte>): (r: seq<char>)
    ensures |r| == |s|
  {
    if s == [] then [] else [AsciiChar(s[0])] + Ascii(s[1..])
  }

  /** The bytes a read of `count` bytes at position `p` returns: fewer than
      `count` (possibly none) when the stream ends first. */
  function Take(data: seq<byte>, p: nat, count: nat): (r: seq<byte>)
    ensures |r| == if p >= |data| then 0 else if p + count <= |data| then count else |data| - p
    ensures p + count <= |data| ==> r == data[p..p + count]
    ensures p >= |data| ==> r == []
  {
    if p >= |data| then [] else if p + count <= |data| then data[p..p + count] else data[p..]
  }

  class BinaryReader {
    const Data: seq<byte>
    /** The stream position; a seek may place it beyond the end. */
    var Position: nat

    constructor (data: seq<byte>)
      ensures Data == data && Position == 0
    {
      Data := data;
      Position := 0;
    }

    /** `ReadBytes(count)`: a negative count is refused. */
    method ReadBytes(count: int) returns (r: Result<seq<byte>, IoError>)
      modifies this
      ensures count < 0 ==> r == Err(ArgumentOutOfRange) && Position == old(Position)
      ensures count >= 0 ==> r == Ok(Take(Data, old(Position), count))
      ensures count >= 0 ==> Position == old(Position) + |r.value|
    {
      if count < 0 {
        return Err(ArgumentOutOfRange);
      }
      var bytes := Take(Data, Position, count);
      Position := Position + |bytes|;
      return Ok(bytes);
    }

    /** `ReadBytes(count)` for a count that is known not to be negative. */
    method ReadCount(count: nat) returns (r: seq<byte>)
      modifies this
      ensures r == Take(Data, old(Position), count)
      ensures Position == old(Position) + |r|
    {
      r := Take(Data, Position, count);
      Position := Position + |r|;
    }

    /** `ReadChars(count)` with the ASCII encoding: one byte per char. */
    method ReadChars(count: nat) returns (r: seq<char>)
      modifies this
      ensures r == Ascii(Take(Data, old(Position), count))
      ensures Position == old(Position) + |r|
    {
      var bytes := Take(Data, Position, count);
      Position := Position + |bytes|;
      r := Ascii(bytes);
    }

    /** A typed little-endian read of `size` bytes (`ReadByte`, `ReadUInt16`,
        `ReadUInt32`, `ReadUInt64`): it fails when the stream ends first. */
    method ReadLE(size: nat) returns (r: Result<nat, IoError>)
      modifies this
      ensures old(Position) + size <= |Data| <==> r.Ok?
      ensures r.Ok? ==> r.value == LE(Data[old(Position)..old(Position) + size])
      ensures r.Ok? ==> Position == old(Position) + size
    {
      if Position + size > |Data| {
        return Err(EndOfStream);
      }
      r := Ok(LE(Data[Position..Position + size]));
      Position := Position + size;
    }

    /** `BaseStream.Seek(offset, SeekOrigin.Begin)`: a position before the
        start is refused, one beyond the end is accepted. */
    method Seek(offset: int) returns (r: Result<(), IoError>)
      modifies this
      ensures offset < 0 ==> r == Err(SeekBeforeBegin) && Position == old(Position)
      ensures offset >= 0 ==> r.Ok? && Position == offset
    {
      if offset < 0 {
        return Err(SeekBeforeBegin);
      }
      Position := offset;
      return Ok(());
    }
  }
}
