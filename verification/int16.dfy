/**
 `to_int16`: two report bytes, low then high, read as one little-endian
 signed 16-bit integer. The bytes are joined with `y1 | (y2 << 8)`, and the upper half
 of the unsigned range is then folded onto the negatives.
 */
module Int16 {
  import opened Bits

  const Min: int := -32768
  const Max: int := 32767

  predicate InRange(v: int)
  {
    Min <= v <= Max
  }

  lemma Pow2Eight()
    ensures Pow2(8) == 256
  {
    assert Pow2(2) == 4;
    assert Pow2(4) == 16;
    assert Pow2(6) == 64;
  }

  /**
   The signed value of the byte pair. The result is the little-endian two's
   complement reading: low byte plus 256 times high byte, less 65536 exactly
   when the high byte carries the sign bit.
   */
  function ToInt16(y1: Byte, y2: Byte): (x: int)
    ensures InRange(x)
    ensures x < 0 <==> y2 >= 128
    ensures x == y1 + 256 * y2 - (if y2 >= 128 then 65536 else 0)
  {
    Pow2Eight();
    OrDisjointIsAdd(y1, y2, 8);
    var u := Or(y1, Shl(y2, 8));
    if u >= 32768 then -(65536 - u) else u
  }

  /** The inverse: a signed 16-bit value split into its low and high byte. */
  function FromInt16(v: int): (bytes: (Byte, Byte))
    requires InRange(v)
  {
    var u := v % 65536;
    (u % 256, u / 256)
  }

  /** Decoding the bytes of an encoded value gives the value back. */
  lemma DecodeEncode(v: int)
    requires InRange(v)
    ensures ToInt16(FromInt16(v).0, FromInt16(v).1) == v
  {
    var u := v % 65536;
    var q := if v < 0 then -1 else 0;
    DivUnique(v, 65536, q, v - 65536 * q);
    assert u == v - 65536 * q;
    DivUnique(u, 256, u / 256, u % 256);
    assert u == 256 * (u / 256) + u % 256;
    assert u / 256 >= 128 <==> v < 0 by {
      if u / 256 >= 128 {
        assert u >= 256 * 128;
      } else {
        assert u < 256 * 128;
      }
    }
  }

  /** Encoding a decoded pair gives the original bytes back. */
  lemma EncodeDecode(y1: Byte, y2: Byte)
    ensures FromInt16(ToInt16(y1, y2)) == (y1, y2)
  {
    var v := ToInt16(y1, y2);
    var u := y1 + 256 * y2;
    var q := if y2 >= 128 then -1 else 0;
    assert v == 65536 * q + u;
    DivUnique(v, 65536, q, u);
    assert v % 65536 == u;
    DivUnique(u, 256, y2, y1);
    assert u % 256 == y1;
  }

  /** Reference points of the 16-bit two's-complement range. */
  lemma Examples()
    ensures ToInt16(0x00, 0x00) == 0
    ensures ToInt16(0xFF, 0x7F) == 32767
    ensures ToInt16(0x00, 0x80) == -32768
    ensures ToInt16(0xFF, 0xFF) == -1
    ensures ToInt16(0x64, 0x00) == 100
  {
  }
}
