/** Decoding of the accelerometer's output registers.

    The sensor reports each axis as a big-endian, two's-complement 16-bit
    value spread over two consecutive 8-bit registers, high byte first.
    `I16` is the decoder as written, with shift, or and a sign-bit mask;
    `SplitWord` is its inverse, and `ReadAccel` applies the +/-2 g scale
    factor to the first six bytes of a register block read. The bus read
    itself is not part of this model: the block arrives as a parameter. */
module Register {
  import opened Bits

  /** One register value as delivered by the bus. */
  type byte = b: int | 0 <= b < 256

  /** Lowest and highest value a signed 16-bit register pair can hold. */
  const MinWord: int := -32768
  const MaxWord: int := 32767

  /** Least significant bits per g in the +/-2 g range. */
  const AccelScale: real := 16384.0

  /** Value of one g-scaled axis reading. */
  datatype Accel = Accel(ax: real, ay: real, az: real)

  predicate InWordRange(v: int) {
    MinWord <= v <= MaxWord
  }

  /** Decodes a (high, low) register pair: the unsigned word is
      `hi << 8 | lo`, and when its bit 15 is set 65536 is subtracted. */
  function I16(hi: byte, lo: byte): (v: int)
    ensures InWordRange(v)
    ensures hi < 128 ==> v == hi * 256 + lo
    ensures hi >= 128 ==> v == hi * 256 + lo - 65536
  {
    var w := BitOr(ShiftLeft(hi, 8), lo);
    WordIsSum(hi, lo);
    SignBit(w);
    if BitAnd(w, 0x8000) != 0 then w - 65536 else w
  }

  /** `hi << 8 | lo` is `hi * 256 + lo`, because lo fits in eight bits. */
  lemma WordIsSum(hi: byte, lo: byte)
    ensures BitOr(ShiftLeft(hi, 8), lo) == hi * 256 + lo
  {
    assert Pow2(8) == 256;
    OrDisjoint(hi, lo, 8);
  }

  /** For an unsigned 16-bit word, `w & 0x8000` is non-zero exactly when
      w is at least 32768. */
  lemma SignBit(w: nat)
    requires w < 65536
    ensures BitAnd(w, 0x8000) != 0 <==> w >= 32768
  {
    assert Pow2(15) == 0x8000 && Pow2(16) == 65536;
    AndSingleBit(w, 15);
    TopBit(w, 15);
  }

  /** Splits a signed 16-bit value into its (high, low) register bytes:
      a negative value wraps to its unsigned word by adding 65536, which
      is then cut at bit 8. */
  function SplitWord(v: int): (pair: (byte, byte))
    requires InWordRange(v)
  {
    var u := if v < 0 then v + 65536 else v;
    (u / 256, u % 256)
  }

  /** Decoding a split value gives the value back. */
  lemma SplitThenDecode(v: int)
    requires InWordRange(v)
    ensures I16(SplitWord(v).0, SplitWord(v).1) == v
  {
    var u := if v < 0 then v + 65536 else v;
    assert u == (u / 256) * 256 + u % 256;
    assert v >= 0 <==> u / 256 < 128;
  }

  /** Splitting a decoded pair gives the pair back, so together with
      `SplitThenDecode`, `I16` is a bijection from byte pairs onto the
      signed 16-bit range. */
  lemma DecodeThenSplit(hi: byte, lo: byte)
    ensures SplitWord(I16(hi, lo)) == (hi, lo)
  {
    var v := I16(hi, lo);
    assert (if v < 0 then v + 65536 else v) == hi * 256 + lo;
    ByteSplit(hi, lo);
  }

  /** Cutting `hi * 256 + lo` at bit 8 gives hi and lo back. */
  lemma ByteSplit(hi: byte, lo: byte)
    ensures (hi * 256 + lo) / 256 == hi && (hi * 256 + lo) % 256 == lo
  {
  }

  /** Distinct register pairs decode to distinct values. */
  lemma I16Injective(hi: byte, lo: byte, hi': byte, lo': byte)
    requires I16(hi, lo) == I16(hi', lo')
    ensures hi == hi' && lo == lo'
  {
    DecodeThenSplit(hi, lo);
    DecodeThenSplit(hi', lo');
  }

  /** Every signed 16-bit value is the decoding of some register pair. */
  lemma I16Surjective(v: int)
    requires InWordRange(v)
    ensures exists hi: byte, lo: byte :: I16(hi, lo) == v
  {
    SplitThenDecode(v);
  }

  /** Reads the three axes from a register block (X, Y, Z high/low pairs
      in its first six bytes) and scales each to g. */
  function ReadAccel(data: seq<byte>): (a: Accel)
    requires |data| >= 6
    ensures -2.0 <= a.ax < 2.0 && -2.0 <= a.ay < 2.0 && -2.0 <= a.az < 2.0
    ensures a.ax * AccelScale == I16(data[0], data[1]) as real
    ensures a.ay * AccelScale == I16(data[2], data[3]) as real
    ensures a.az * AccelScale == I16(data[4], data[5]) as real
  {
    Accel(ToG(I16(data[0], data[1])), ToG(I16(data[2], data[3])), ToG(I16(data[4], data[5])))
  }

  /** Scales one raw reading to g. */
  function ToG(v: int): real {
    v as real / AccelScale
  }

  /** Scaling loses nothing: equal readings in g come from equal raw
      words, and the raw word is recovered by multiplying back. */
  lemma ToGInjective(v: int, w: int)
    ensures ToG(v) == ToG(w) <==> v == w
    ensures ToG(v) * AccelScale == v as real
  {
  }

  /** Register blocks that agree on their first six bytes give the same
      reading, and differing bytes give a differing reading: the rest of
      the 14-byte block (temperature and gyroscope) plays no part. */
  lemma ReadAccelUsesSixBytes(data: seq<byte>, data': seq<byte>)
    requires |data| >= 6 && |data'| >= 6
    ensures ReadAccel(data) == ReadAccel(data') <==> data[..6] == data'[..6]
  {
    if ReadAccel(data) == ReadAccel(data') {
      ToGInjective(I16(data[0], data[1]), I16(data'[0], data'[1]));
      ToGInjective(I16(data[2], data[3]), I16(data'[2], data'[3]));
      ToGInjective(I16(data[4], data[5]), I16(data'[4], data'[5]));
      I16Injective(data[0], data[1], data'[0], data'[1]);
      I16Injective(data[2], data[3], data'[2], data'[3]);
      I16Injective(data[4], data[5], data'[4], data'[5]);
      assert data[..6] == [data[0], data[1], data[2], data[3], data[4], data[5]];
      assert data'[..6] == [data'[0], data'[1], data'[2], data'[3], data'[4], data'[5]];
    } else {
      if data[..6] == data'[..6] {
        assert forall i :: 0 <= i < 6 ==> data[i] == data[..6][i] == data'[i];
      }
    }
  }
}
