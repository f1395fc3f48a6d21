// Bytes, fixed-width integers and their big-endian form, plus a reader and a
// writer over a byte stream.
module Bytes {

  type byte = x: int | 0 <= x < 0x100
  type u32 = x: int | 0 <= x < 0x1_0000_0000
  type u64 = x: int | 0 <= x < 0x1_0000_0000_0000_0000

  const TWO32: int := 0x1_0000_0000
  const TWO64: int := 0x1_0000_0000_0000_0000

  datatype Option<+T> = None | Some(value: T)

  // binary.BigEndian.PutUint32
  function Be32(v: u32): (b: seq<byte>)
    ensures |b| == 4
  {
    [v / 0x100_0000, v / 0x1_0000 % 0x100, v / 0x100 % 0x100, v % 0x100]
  }

  // binary.BigEndian.Uint32
  function Val32(b: seq<byte>): u32
    requires |b| == 4
  {
    var b0: int, b1: int, b2: int := b[0], b[1], b[2];
    b0 * 0x100_0000 + b1 * 0x1_0000 + b2 * 0x100 + b[3]
  }

  function Be64(v: u64): (b: seq<byte>)
    ensures |b| == 8
  {
    Be32(v / TWO32) + Be32(v % TWO32)
  }

  function Val64(b: seq<byte>): u64
    requires |b| == 8
  {
    Val32(b[..4]) * TWO32 + Val32(b[4..])
  }

  lemma Be32Inverse(v: u32, b: seq<byte>)
    requires |b| == 4
    ensures Val32(Be32(v)) == v
    ensures Be32(Val32(b)) == b
  {
    ValOfBe(v);
    Digits(b[0], b[1], b[2], b[3]);
    assert b == [b[0], b[1], b[2], b[3]];
  }

  // Dividing byte by byte.
  lemma Nested(x: nat)
    ensures x / 0x1_0000 == x / 0x100 / 0x100 && x / 0x100_0000 == x / 0x1_0000 / 0x100
  {
  }

  lemma LowByte(high: nat, low: byte)
    ensures (high * 0x100 + low) / 0x100 == high && (high * 0x100 + low) % 0x100 == low
  {
  }

  lemma ValOfBe(v: u32)
    ensures Val32(Be32(v)) == v
  {
    var a, b, c := v / 0x100, v / 0x1_0000, v / 0x100_0000;
    Nested(v);
    assert v == a * 0x100 + v % 0x100 && a == b * 0x100 + a % 0x100 && b == c * 0x100 + b % 0x100;
  }

  lemma Digits(b0: byte, b1: byte, b2: byte, b3: byte)
    ensures Be32(Val32([b0, b1, b2, b3])) == [b0, b1, b2, b3]
  {
    var w: nat := Val32([b0, b1, b2, b3]);
    var h1: nat := b0 * 0x100 + b1;
    var h2: nat := h1 * 0x100 + b2;
    assert w == h2 * 0x100 + b3;
    LowByte(h2, b3);
    LowByte(h1, b2);
    LowByte(b0, b1);
    Nested(w);
  }

  lemma Be64Inverse(v: u64, b: seq<byte>)
    requires |b| == 8
    ensures Val64(Be64(v)) == v
    ensures Be64(Val64(b)) == b
  {
    var hi, lo := Be32(v / TWO32), Be32(v % TWO32);
    assert (hi + lo)[..4] == hi && (hi + lo)[4..] == lo;
    Be32Inverse(v / TWO32, b[..4]);
    Be32Inverse(v % TWO32, b[4..]);
    assert Val64(b) / TWO32 == Val32(b[..4]) && Val64(b) % TWO32 == Val32(b[4..]);
    assert b == b[..4] + b[4..];
  }

  lemma Be64Bytes(v: u64)
    ensures var b := Be64(v);
      && b[0] == v / 0x100_0000_0000_0000 && b[1] == v / 0x1_0000_0000_0000 % 0x100
      && b[2] == v / 0x100_0000_0000 % 0x100 && b[3] == v / 0x1_0000_0000 % 0x100
      && b[4] == v / 0x100_0000 % 0x100 && b[5] == v / 0x1_0000 % 0x100
      && b[6] == v / 0x100 % 0x100 && b[7] == v % 0x100
  {
    var hi, lo := v / 0x1_0000_0000, v % 0x1_0000_0000;
    assert v == hi * 0x1_0000_0000 + lo;
    Shifted(hi, lo);
  }

  // The bytes of the high half and of the low one.
  lemma Shifted(hi: u32, lo: u32)
    ensures var v := hi * 0x1_0000_0000 + lo;
      && v / 0x100_0000_0000_0000 == hi / 0x100_0000 && v / 0x1_0000_0000_0000 == hi / 0x1_0000
      && v / 0x100_0000_0000 == hi / 0x100 && v / 0x1_0000_0000 == hi
      && v / 0x100_0000 % 0x100 == lo / 0x100_0000 && v / 0x1_0000 % 0x100 == lo / 0x1_0000 % 0x100
      && v / 0x100 % 0x100 == lo / 0x100 % 0x100 && v % 0x100 == lo % 0x100
  {
    HighBytes(hi, lo);
    LowBytes(hi, lo);
  }

  lemma HighBytes(hi: u32, lo: u32)
    ensures var v := hi * 0x1_0000_0000 + lo;
      && v / 0x1_0000_0000 == hi && v / 0x100_0000_0000 == hi / 0x100
      && v / 0x1_0000_0000_0000 == hi / 0x1_0000 && v / 0x100_0000_0000_0000 == hi / 0x100_0000
  {
    var v := hi * 0x1_0000_0000 + lo;
    assert v / 0x1_0000_0000 == hi;
    assert v / 0x100_0000_0000 == v / 0x1_0000_0000 / 0x100;
    assert v / 0x1_0000_0000_0000 == v / 0x1_0000_0000 / 0x1_0000;
    assert v / 0x100_0000_0000_0000 == v / 0x1_0000_0000 / 0x100_0000;
  }

  lemma LowBytes(hi: u32, lo: u32)
    ensures var v := hi * 0x1_0000_0000 + lo;
      && v / 0x100_0000 % 0x100 == lo / 0x100_0000 && v / 0x1_0000 % 0x100 == lo / 0x1_0000 % 0x100
      && v / 0x100 % 0x100 == lo / 0x100 % 0x100 && v % 0x100 == lo % 0x100
  {
    Down0(hi, lo);
    Down8(hi, lo);
    Down16(hi, lo);
    Down24(hi, lo);
  }

  lemma Multiple(high: nat, low: nat)
    ensures (high * 0x100 + low) % 0x100 == low % 0x100
  {
  }

  lemma Down0(hi: u32, lo: u32)
    ensures (hi * 0x1_0000_0000 + lo) % 0x100 == lo % 0x100
  {
    Multiple(hi * 0x100_0000, lo);
  }

  lemma Down8(hi: u32, lo: u32)
    ensures (hi * 0x1_0000_0000 + lo) / 0x100 % 0x100 == lo / 0x100 % 0x100
  {
    assert (hi * 0x1_0000_0000 + lo) / 0x100 == hi * 0x100_0000 + lo / 0x100;
    Multiple(hi * 0x1_0000, lo / 0x100);
  }

  lemma Down16(hi: u32, lo: u32)
    ensures (hi * 0x1_0000_0000 + lo) / 0x1_0000 % 0x100 == lo / 0x1_0000 % 0x100
  {
    assert (hi * 0x1_0000_0000 + lo) / 0x1_0000 == hi * 0x1_0000 + lo / 0x1_0000;
    Multiple(hi * 0x100, lo / 0x1_0000);
  }

  lemma Down24(hi: u32, lo: u32)
    ensures (hi * 0x1_0000_0000 + lo) / 0x100_0000 % 0x100 == lo / 0x100_0000
  {
    assert (hi * 0x1_0000_0000 + lo) / 0x100_0000 == hi * 0x100 + lo / 0x100_0000;
    Multiple(hi, lo / 0x100_0000);
  }

  // An atomic.Uint64 used as a byte counter.
  function Add64(c: u64, n: nat): u64 {
    (c + n) % TWO64
  }

  // make and copy.
  method CopyOut(buf: array<byte>, n: nat) returns (data: array<byte>)
    requires n <= buf.Length
    ensures fresh(data) && data[..] == buf[..n]
  {
    data := new byte[n];
    forall k | 0 <= k < n { data[k] := buf[k]; }
  }

  // The receiving end of a stream: the bytes still to be read before it ends.
  class ByteReader {
    var data: seq<byte>

    constructor (bytes: seq<byte>)
      ensures data == bytes
    {
      data := bytes;
    }

    // io.ReadFull: n bytes, or an error once the stream ends short of them,
    // after eating what was left.
    method ReadFull(n: nat) returns (ok: bool, b: seq<byte>)
      modifies this
      ensures ok == (n <= |old(data)|)
      ensures ok ==> b == old(data)[..n] && data == old(data)[n..]
      ensures !ok ==> b == [] && data == []
    {
      if n <= |data| {
        ok, b, data := true, data[..n], data[n..];
      } else {
        ok, b, data := false, [], [];
      }
    }
  }

  // The sending end of a stream, which dies once it has taken `room` more bytes
  // (None: it never dies) and then stays dead.
  class ByteWriter {
    var sent: seq<byte>
    var room: Option<nat>

    constructor (room: Option<nat>)
      ensures sent == [] && this.room == room
    {
      sent, this.room := [], room;
    }

    predicate Takes(n: nat)
      reads this
    {
      room.None? || n <= room.value
    }

    method Write(b: seq<byte>) returns (ok: bool)
      modifies this
      ensures ok == old(Takes(|b|))
      ensures ok ==> sent == old(sent) + b
      ensures ok && old(room).None? ==> room.None?
      ensures ok && old(room).Some? ==> room == Some(old(room).value - |b|)
      ensures !ok ==> room == Some(0) && sent == old(sent) + b[..old(room).value]
    {
      if Takes(|b|) {
        sent := sent + b;
        if room.Some? { room := Some(room.value - |b|); }
        return true;
      }
      sent, room := sent + b[..room.value], Some(0);
      return false;
    }
  }
}
