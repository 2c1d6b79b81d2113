/** Bytes, 32-bit words and the little-endian two's-complement layout in which
    the host hands 32-bit values to the device and reads them back. */
module LittleEndian {

  newtype uint8 = x: int | 0 <= x < 0x100

  const Int32Min: int := -0x8000_0000
  const Int32Max: int := 0x7fff_ffff

  /** C#'s int: the values the mask elements and status codes range over. */
  type int32 = x: int | Int32Min <= x <= Int32Max

  /** Four bytes, least significant first: one 32-bit element of a structured buffer. */
  datatype Word = Word(b0: uint8, b1: uint8, b2: uint8, b3: uint8) {
    function Bytes(): seq<uint8> {
      [b0, b1, b2, b3]
    }
  }

  /** The int32 that BitConverter.ToInt32 reads at `offset` on a little-endian machine. */
  function DecodeInt32At(bytes: seq<uint8>, offset: nat): (x: int32)
    requires offset + 4 <= |bytes|
    ensures x < 0 <==> bytes[offset + 3] >= 0x80
  {
    var u := bytes[offset] as int + 0x100 * bytes[offset + 1] as int
             + 0x1_0000 * bytes[offset + 2] as int + 0x100_0000 * bytes[offset + 3] as int;
    if u <= Int32Max then u else u - 0x1_0000_0000
  }

  /** The four bytes an int32 occupies in memory on a little-endian machine. */
  function EncodeInt32(x: int32): Word {
    var u := if x < 0 then x + 0x1_0000_0000 else x;
    Word((u % 0x100) as uint8, (u / 0x100 % 0x100) as uint8,
         (u / 0x1_0000 % 0x100) as uint8, (u / 0x100_0000) as uint8)
  }

  /** Decoding the bytes of an encoded int32 gives the int32 back. */
  lemma DecodeEncode(x: int32)
    ensures DecodeInt32At(EncodeInt32(x).Bytes(), 0) == x
  {
    var u := if x < 0 then x + 0x1_0000_0000 else x;
    assert u == u % 0x100 + 0x100 * (u / 0x100);
    assert u / 0x100 == u / 0x100 % 0x100 + 0x100 * (u / 0x1_0000);
    assert u / 0x1_0000 == u / 0x1_0000 % 0x100 + 0x100 * (u / 0x100_0000);
  }

  /** Encoding the int32 decoded from four bytes gives the same four bytes. */
  lemma EncodeDecode(bytes: seq<uint8>, offset: nat)
    requires offset + 4 <= |bytes|
    ensures EncodeInt32(DecodeInt32At(bytes, offset)).Bytes() == bytes[offset..offset + 4]
  {
    var b0, b1, b2, b3 := bytes[offset] as int, bytes[offset + 1] as int, bytes[offset + 2] as int, bytes[offset + 3] as int;
    var u := b0 + 0x100 * b1 + 0x1_0000 * b2 + 0x100_0000 * b3;
    assert u / 0x100 == b1 + 0x100 * b2 + 0x1_0000 * b3;
    assert u / 0x1_0000 == b2 + 0x100 * b3;
    assert u / 0x100_0000 == b3;
  }

  /** The bytes of a sequence of words laid out one after another, as
      Buffer.BlockCopy lays out a float[] and as a structured buffer holds its elements. */
  function Serialize<T>(encode: T -> Word, xs: seq<T>): seq<uint8> {
    if xs == [] then [] else Serialize(encode, xs[..|xs| - 1]) + encode(xs[|xs| - 1]).Bytes()
  }

  /** Element k of the input occupies bytes 4k .. 4k+3 of the layout, and nothing else is there. */
  lemma {:induction false} SerializeAt<T>(encode: T -> Word, xs: seq<T>, k: nat)
    requires k < |xs|
    ensures |Serialize(encode, xs)| == 4 * |xs|
    ensures Serialize(encode, xs)[4 * k..4 * k + 4] == encode(xs[k]).Bytes()
  {
    SerializeLength(encode, xs);
    var n := |xs| - 1;
    SerializeLength(encode, xs[..n]);
    if k < n {
      SerializeAt(encode, xs[..n], k);
      assert Serialize(encode, xs)[4 * k..4 * k + 4] == Serialize(encode, xs[..n])[4 * k..4 * k + 4];
    }
  }

  lemma {:induction false} SerializeLength<T>(encode: T -> Word, xs: seq<T>)
    ensures |Serialize(encode, xs)| == 4 * |xs|
  {
    if xs != [] {
      SerializeLength(encode, xs[..|xs| - 1]);
    }
  }

  /** The first `count` int32s of a byte buffer, read at offsets 0, 4, 8, ... */
  function DecodeInt32s(bytes: seq<uint8>, count: nat): (xs: seq<int32>)
    requires 4 * count <= |bytes|
    ensures |xs| == count
  {
    seq(count, i requires 0 <= i < count => DecodeInt32At(bytes, 4 * i))
  }

  /** Reading back int32s that were laid out little-endian returns exactly those int32s. */
  lemma DecodeSerializedInt32s(xs: seq<int32>)
    ensures |Serialize(EncodeInt32, xs)| == 4 * |xs|
    ensures DecodeInt32s(Serialize(EncodeInt32, xs), |xs|) == xs
  {
    var bytes := Serialize(EncodeInt32, xs);
    SerializeLength(EncodeInt32, xs);
    forall i | 0 <= i < |xs|
      ensures DecodeInt32At(bytes, 4 * i) == xs[i]
    {
      SerializeAt(EncodeInt32, xs, i);
      DecodeEncode(xs[i]);
      assert bytes[4 * i..4 * i + 4] == EncodeInt32(xs[i]).Bytes();
    }
  }
}
