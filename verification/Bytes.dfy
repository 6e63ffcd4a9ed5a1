/** Bytes, big-endian 32-bit words, and the growable byte buffer the codec works on. */
module Bytes {

  type byte = x: int | 0 <= x < 0x100

  type word = x: int | 0 <= x < 0x1_0000_0000

  function ToBytes(x: word): (b: seq<byte>)
    ensures |b| == 4
  {
    [x / 0x100_0000, x / 0x1_0000 % 0x100, x / 0x100 % 0x100, x % 0x100]
  }

  function FromBytes(b: seq<byte>): word
    requires |b| == 4
  {
    b[0] as int * 0x100_0000 + b[1] as int * 0x1_0000 + b[2] as int * 0x100 + b[3] as int
  }

  lemma WordRoundTrip(x: word)
    ensures FromBytes(ToBytes(x)) == x
  {
    assert x / 0x1_0000 == x / 0x100_0000 * 0x100 + x / 0x1_0000 % 0x100;
    assert x / 0x100 == x / 0x1_0000 * 0x100 + x / 0x100 % 0x100;
  }

  lemma BytesRoundTrip(b: seq<byte>)
    requires |b| == 4
    ensures ToBytes(FromBytes(b)) == b
  {
    var x := FromBytes(b);
    assert x / 0x100 == b[0] as int * 0x1_0000 + b[1] as int * 0x100 + b[2] as int;
    assert x / 0x1_0000 == b[0] as int * 0x100 + b[1] as int;
    assert x / 0x100_0000 == b[0];
  }

  class Buffer {
    var data: seq<byte>

    constructor (data: seq<byte>)
      ensures this.data == data
    {
      this.data := data;
    }

    method Advance(n: nat)
      requires n <= |data|
      modifies this
      ensures data == old(data)[n..]
    {
      data := data[n..];
    }

    /** Takes the first `n` bytes out into a buffer of their own. */
    method SplitTo(n: nat) returns (head: Buffer)
      requires n <= |data|
      modifies this
      ensures fresh(head) && head.data == old(data)[..n] && data == old(data)[n..]
    {
      head := new Buffer(data[..n]);
      data := data[n..];
    }

    method GetByte() returns (b: byte)
      requires data != []
      modifies this
      ensures b == old(data)[0] && data == old(data)[1..]
    {
      b := data[0];
      data := data[1..];
    }

    method GetWord() returns (x: word)
      requires |data| >= 4
      modifies this
      ensures x == FromBytes(old(data)[..4]) && data == old(data)[4..]
    {
      x := FromBytes(data[..4]);
      data := data[4..];
    }

    method PutByte(b: byte)
      modifies this
      ensures data == old(data) + [b]
    {
      data := data + [b];
    }

    method PutWord(x: word)
      modifies this
      ensures data == old(data) + ToBytes(x)
    {
      data := data + ToBytes(x);
    }

    method PutSlice(b: seq<byte>)
      modifies this
      ensures data == old(data) + b
    {
      data := data + b;
    }
  }
}
