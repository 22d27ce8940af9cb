/** The per-word checksum (MessageComIR.cpp, calcCrc) and the byte step it folds, avr-libc's
    `_crc_ccitt_update` from util/crc16.h.

    That step is the reflected CRC-CCITT division by x^16 + x^12 + x^5 + 1, the byte step of
    the 16-bit frame check sequence of RFC 1662, Appendix C. Like that FCS, calcCrc starts
    from 0xFFFF; unlike it, calcCrc does not complement the result. */
module Crc {

  /** x^16 + x^12 + x^5 + 1 with its bits reversed, for a register that shifts right. */
  const Poly: bv16 := 0x8408

  /** Register value calcCrc starts from. */
  const CrcInit: bv16 := 0xFFFF

  /** avr-libc's `_crc_ccitt_update`, in the form its header gives: the byte is xored with
      the low byte of the register, mixed with itself, and combined with the high byte. */
  function CcittUpdate(crc: bv16, data: bv8): bv16
  {
    Mix(crc >> 8, data ^ ((crc & 0xFF) as bv8))
  }

  function Mix(hi: bv16, d0: bv8): bv16
  {
    var d1 := d0 ^ (d0 << 4);
    (((d1 as bv16) << 8) | hi) ^ ((d1 >> 4) as bv16) ^ ((d1 as bv16) << 3)
  }

  // The same step by definition: the byte enters the low end of the register, which then
  // shifts right eight times, subtracting (xor) the polynomial whenever a one drops out.

  function ShiftBit(x: bv16): bv16
  {
    if x & 1 == 1 then (x >> 1) ^ Poly else x >> 1
  }

  function ShiftByte(x: bv16): bv16
  {
    ShiftBit(ShiftBit(ShiftBit(ShiftBit(ShiftBit(ShiftBit(ShiftBit(ShiftBit(x))))))))
  }

  /** avr-libc's expression computes the polynomial division step. */
  lemma {:induction false} CcittUpdateIsPolynomialStep(crc: bv16, data: bv8)
    ensures CcittUpdate(crc, data) == ShiftByte(crc ^ (data as bv16))
  {
    var x := crc ^ (data as bv16);
    HighByteShiftsThrough(x);
    LowByteTable(x);
    SplitRegister(crc, data);
    MixIsTable(crc >> 8, data ^ ((crc & 0xFF) as bv8));
  }

  /** What eight shifts make of a register holding one byte, in avr-libc's terms. */
  function Table(d: bv8): bv16
  {
    var d1 := d ^ (d << 4);
    ((d1 as bv16) << 8) ^ ((d1 >> 4) as bv16) ^ ((d1 as bv16) << 3)
  }

  /** The high byte never decides a subtraction during the eight shifts: it comes out
      shifted down, added to what the low byte alone produces. */
  lemma HighByteShiftsThrough(x: bv16)
    ensures ShiftByte(x) == (x >> 8) ^ ShiftByte(x & 0xFF)
  {
  }

  lemma LowByteTable(x: bv16)
    ensures ShiftByte(x & 0xFF) == Table((x & 0xFF) as bv8)
  {
  }

  lemma SplitRegister(crc: bv16, data: bv8)
    ensures ((crc ^ (data as bv16)) & 0xFF) as bv8 == data ^ ((crc & 0xFF) as bv8)
    ensures (crc ^ (data as bv16)) >> 8 == crc >> 8
    ensures crc >> 8 < 0x100
  {
  }

  lemma MixIsTable(hi: bv16, d0: bv8)
    requires hi < 0x100
    ensures Mix(hi, d0) == hi ^ Table(d0)
  {
  }

  /** Byte `k` of a word, counting from the least significant: bits 8k to 8k+7. */
  function ByteOf(w: bv32, k: bv8): bv8
    requires k < 4
  {
    ((w >> (8 * k)) & 0xFF) as bv8
  }

  /** The bytes of a word, most significant first. */
  function WordBytes(w: bv32): seq<bv8>
  {
    [ByteOf(w, 3), ByteOf(w, 2), ByteOf(w, 1), ByteOf(w, 0)]
  }

  /** `CcittUpdate` folded over `bytes`, first byte first. */
  function CrcFold(crc: bv16, bytes: seq<bv8>): bv16
    decreases |bytes|
  {
    if bytes == [] then crc else CcittUpdate(CrcFold(crc, bytes[..|bytes| - 1]), bytes[|bytes| - 1])
  }

  /** The checksum sent after a data word: the CRC of its four bytes, most significant
      first, from 0xFFFF. */
  function CrcWord(w: bv32): bv16
  {
    CrcFold(CrcInit, WordBytes(w))
  }

  /** The checksum of a word is four update steps, taking its bytes from the most
      significant down. */
  lemma CrcWordBigEndian(w: bv32)
    ensures CrcWord(w) == CcittUpdate(CcittUpdate(CcittUpdate(CcittUpdate(CrcInit,
                     (w >> 24) as bv8), ((w >> 16) & 0xFF) as bv8), ((w >> 8) & 0xFF) as bv8),
                     (w & 0xFF) as bv8)
  {
    FoldFour(CrcInit, WordBytes(w));
    WordBytesValues(w);
  }

  lemma FoldFour(crc: bv16, b: seq<bv8>)
    requires |b| == 4
    ensures CrcFold(crc, b) == CcittUpdate(CcittUpdate(CcittUpdate(CcittUpdate(crc, b[0]), b[1]), b[2]), b[3])
  {
    assert b[..3][..2] == b[..2];
    assert b[..2][..1] == b[..1];
    assert b[..1][..0] == [];
    assert CrcFold(crc, b[..1]) == CcittUpdate(crc, b[0]);
    assert CrcFold(crc, b[..2]) == CcittUpdate(CrcFold(crc, b[..1]), b[1]);
    assert CrcFold(crc, b[..3]) == CcittUpdate(CrcFold(crc, b[..2]), b[2]);
  }

  lemma WordBytesValues(w: bv32)
    ensures WordBytes(w) == [(w >> 24) as bv8, ((w >> 16) & 0xFF) as bv8, ((w >> 8) & 0xFF) as bv8, (w & 0xFF) as bv8]
  {
  }

  lemma WordBytesAt(w: bv32, n: bv8)
    requires n < 4
    ensures WordBytes(w)[3 - n as int] == ByteOf(w, n)
  {
    if n == 0 {} else if n == 1 {} else if n == 2 {} else {}
  }

  // Arduino's bitRead and bitWrite macros, at the widths calcCrc uses them.

  predicate BitRead(w: bv32, i: bv8)
    requires i < 32
  {
    (w >> i) & 1 == 1
  }

  function BitWrite(x: bv8, i: bv8, b: bool): bv8
    requires i < 8
  {
    if b then x | (1 << i) else x & !(1 << i)
  }

  /** The low `n` bits of a byte. */
  function LowBits(x: bv8, n: bv8): bv8
    requires n <= 8
  {
    x & (0xFF >> (8 - n))
  }

  /** Copying bit `i` of byte `k` of `w` into bit `i` of `x` extends by one the low bits that
      `x` shares with that byte. */
  lemma CopyBit(x: bv8, w: bv32, k: bv8, i: bv8)
    requires k < 4 && i < 8
    requires LowBits(x, i) == LowBits(ByteOf(w, k), i)
    ensures LowBits(BitWrite(x, i, BitRead(w, 8 * k + i)), i + 1) == LowBits(ByteOf(w, k), i + 1)
  {
  }

  lemma AllBits(x: bv8)
    ensures LowBits(x, 8) == x
  {
  }

  /** calcCrc: the word is split into `tmp[0..4]` bit by bit, `tmp[k]` receiving bits 8k to
      8k+7, and the bytes are folded from `tmp[3]` down to `tmp[0]`, which is the checksum
      of the word's bytes in big-endian order. */
  method CalcCrc(data: bv32) returns (crc: bv16)
    ensures crc == CrcWord(data)
  {
    var tmp := new bv8[4];
    var cnt: bv8 := 0;
    var byteI: bv8 := 0;
    while byteI < 4
      invariant byteI <= 4 && cnt == 8 * byteI
      invariant forall k: bv8 :: k < byteI ==> tmp[k] == ByteOf(data, k)
    {
      var bitI: bv8 := 0;
      while bitI < 8
        invariant bitI <= 8 && cnt == 8 * byteI + bitI
        invariant forall k: bv8 :: k < byteI ==> tmp[k] == ByteOf(data, k)
        invariant LowBits(tmp[byteI], bitI) == LowBits(ByteOf(data, byteI), bitI)
      {
        CopyBit(tmp[byteI], data, byteI, bitI);
        tmp[byteI] := BitWrite(tmp[byteI], bitI, BitRead(data, cnt));
        cnt := cnt + 1;
        bitI := bitI + 1;
      }
      AllBits(tmp[byteI]);
      AllBits(ByteOf(data, byteI));
      byteI := byteI + 1;
    }

    crc := CrcInit;
    var n: bv8 := 4;
    while n > 0
      invariant n <= 4
      invariant forall k: bv8 :: k < 4 ==> tmp[k] == ByteOf(data, k)
      invariant crc == CrcFold(CrcInit, WordBytes(data)[..4 - n as int])
    {
      n := n - 1;
      WordBytesAt(data, n);
      assert WordBytes(data)[..4 - n as int][..3 - n as int] == WordBytes(data)[..3 - n as int];
      crc := CcittUpdate(crc, tmp[n]);
    }
    assert WordBytes(data)[..4] == WordBytes(data);
  }
}
