/**
 * The Modbus RTU CRC-16 (section 2.5.1.2 of the MODBUS over Serial Line
 * Specification V1.02): reflected polynomial 0xA001, initial value 0xFFFF,
 * no final XOR, low byte transmitted first.
 *
 * This module is the specification that every copy of `crc16_modbus` in the
 * repository is proved against.
 */
module Crc {
  import opened Bytes

  /** The initial value of the accumulator. */
  const Init: bv16 := 0xFFFF
  /** The reflected generator polynomial. */
  const Poly: bv16 := 0xA001

  /** One bit step: shift right, and XOR the polynomial when the bit shifted out was set. */
  function Step(c: bv16): bv16 {
    if c & 0x0001 != 0 then (c >> 1) ^ Poly else c >> 1
  }

  /** `k` bit steps applied to `c`. */
  function Steps(c: bv16, k: nat): bv16
    decreases k, c
  {
    if k == 0 then c else Step(Steps(c, k - 1))
  }

  /** What the accumulator becomes after one input byte: XOR into the low byte, then 8 bit steps. */
  function UpdateByte(c: bv16, b: u8): bv16 {
    Steps(c ^ (b as bv16), 8)
  }

  /** The CRC of a byte sequence: the fold of `UpdateByte` from `Init`, first byte first. */
  function Crc16(data: seq<u8>): bv16
    decreases |data|
  {
    if |data| == 0 then Init else UpdateByte(Crc16(data[..|data| - 1]), data[|data| - 1])
  }

  /** The byte of a CRC that is sent first on the wire. */
  function Low(c: bv16): u8 {
    (c & 0xFF) as u8
  }

  /** The byte of a CRC that is sent second on the wire. */
  function High(c: bv16): u8 {
    (c >> 8) as u8
  }

  /** The two transmitted bytes of a CRC, low byte first. */
  function CrcBytes(c: bv16): seq<u8> {
    [Low(c), High(c)]
  }

  /** Widened back to 16 bits, the two bytes are the low and the high half of the value, and together they rebuild it. */
  lemma Halves(c: bv16)
    ensures Low(c) as bv16 == c & 0xFF && High(c) as bv16 == c >> 8
  {
    Widen(c & 0xFF);
    Widen(c >> 8);
  }

  /** The two transmitted bytes, widened and put back together high over low, rebuild the CRC. */
  lemma Rebuild(c: bv16)
    ensures ((CrcBytes(c)[1] as bv16) << 8) | (CrcBytes(c)[0] as bv16) == c
  {
    Halves(c);
    Rejoin(c);
  }

  /** The high half shifted back up, OR the low half, is the value. */
  lemma Rejoin(c: bv16)
    ensures ((c >> 8) << 8) | (c & 0xFF) == c
  {
  }

  /** A 16-bit value below 256 survives the trip through a byte. */
  lemma Widen(x: bv16)
    requires x < 0x100
    ensures (x as u8) as bv16 == x
  {
  }

  /** The empty message has the initial value as its CRC. */
  lemma EmptyIsInit()
    ensures Crc16([]) == 0xFFFF
  {
  }

  /** Eight bit steps written out. */
  lemma StepsEight(c: bv16)
    ensures Steps(c, 8) == Step(Step(Step(Step(Step(Step(Step(Step(c))))))))
  {
    assert Steps(c, 1) == Step(c);
    assert Steps(c, 2) == Step(Steps(c, 1));
    assert Steps(c, 3) == Step(Steps(c, 2));
    assert Steps(c, 4) == Step(Steps(c, 3));
    assert Steps(c, 5) == Step(Steps(c, 4));
    assert Steps(c, 6) == Step(Steps(c, 5));
    assert Steps(c, 7) == Step(Steps(c, 6));
  }

  /** Extending a message by one byte extends the fold by one `UpdateByte`. */
  lemma {:induction false} Crc16Snoc(data: seq<u8>, b: u8)
    ensures Crc16(data + [b]) == UpdateByte(Crc16(data), b)
  {
    assert (data + [b])[..|data|] == data;
  }

  /** With its low byte clear, a value goes through the eight steps of a byte by shifting alone. */
  lemma ClearLowSteps(x: bv16)
    requires x & 0xFF == 0
    ensures Steps(x, 8) == x >> 8
  {
    StepsEight(x);
    assert Step(x) == x >> 1;
    assert Step(x >> 1) == x >> 2;
    assert Step(x >> 2) == x >> 3;
    assert Step(x >> 3) == x >> 4;
    assert Step(x >> 4) == x >> 5;
    assert Step(x >> 5) == x >> 6;
    assert Step(x >> 6) == x >> 7;
    assert Step(x >> 7) == x >> 8;
  }

  /** The low CRC byte clears the low half of the accumulator, which then shifts down whole. */
  lemma LowByteStep(c: bv16)
    ensures UpdateByte(c, Low(c)) == c >> 8
  {
    Halves(c);
    var x := c ^ (c & 0xFF);
    DropLow(c);
    ClearLowSteps(x);
  }

  /** XOR-ing a value with its own low half clears that half and keeps the high one. */
  lemma DropLow(c: bv16)
    ensures (c ^ (c & 0xFF)) & 0xFF == 0 && (c ^ (c & 0xFF)) >> 8 == c >> 8
  {
  }

  /** The high CRC byte then cancels what is left. */
  lemma HighByteStep(c: bv16)
    ensures UpdateByte(c >> 8, High(c)) == 0
  {
    Halves(c);
    assert (c >> 8) ^ (c >> 8) == 0;
    ClearLowSteps(0);
  }

  /**
   * Feeding the two CRC bytes of any accumulator value, low byte first,
   * brings the accumulator to zero.
   */
  lemma ResidueStep(c: bv16)
    ensures UpdateByte(UpdateByte(c, Low(c)), High(c)) == 0
  {
    LowByteStep(c);
    HighByteStep(c);
  }

  /**
   * A message followed by its own CRC, low byte first, has CRC zero: the
   * check a Modbus receiver performs over a whole frame.
   */
  lemma {:induction false} FrameResidue(m: seq<u8>)
    ensures Crc16(m + CrcBytes(Crc16(m))) == 0
  {
    var c := Crc16(m);
    Crc16Snoc(m, Low(c));
    Crc16Snoc(m + [Low(c)], High(c));
    assert m + CrcBytes(c) == m + [Low(c)] + [High(c)];
    ResidueStep(c);
  }

  /** The CRC of one byte more of `data`: XOR the byte into the CRC so far, then eight bit steps. */
  lemma Crc16Next(data: seq<u8>, i: nat)
    requires i < |data|
    ensures Crc16(data[..i + 1]) == Steps(Crc16(data[..i]) ^ data[i] as bv16, 8)
  {
    assert data[..i + 1] == data[..i] + [data[i]];
    Crc16Snoc(data[..i], data[i]);
  }

  /** One more byte of a message whose CRC is known. */
  lemma Crc16Extend(data: seq<u8>, b: u8, c: bv16, d: bv16)
    requires Crc16(data) == c && UpdateByte(c, b) == d
    ensures Crc16(data + [b]) == d
  {
    Crc16Snoc(data, b);
  }

  /** The accumulator values along the check string "123456789", first three bytes. */
  lemma CheckStepsA()
    ensures UpdateByte(0xFFFF, 0x31) == 0x947E && UpdateByte(0x947E, 0x32) == 0xF595
    ensures UpdateByte(0xF595, 0x33) == 0x7A75
  {
    StepsEight(0xFFFF ^ 0x31); StepsEight(0x947E ^ 0x32); StepsEight(0xF595 ^ 0x33);
  }

  /** The accumulator values along the check string "123456789", middle three bytes. */
  lemma CheckStepsB()
    ensures UpdateByte(0x7A75, 0x34) == 0x30BA && UpdateByte(0x30BA, 0x35) == 0xA471
    ensures UpdateByte(0xA471, 0x36) == 0x32E4
  {
    StepsEight(0x7A75 ^ 0x34); StepsEight(0x30BA ^ 0x35); StepsEight(0xA471 ^ 0x36);
  }

  /** The accumulator values along the check string "123456789", last three bytes. */
  lemma CheckStepsC()
    ensures UpdateByte(0x32E4, 0x37) == 0x9D73 && UpdateByte(0x9D73, 0x38) == 0x37DD
    ensures UpdateByte(0x37DD, 0x39) == 0x4B37
  {
    StepsEight(0x32E4 ^ 0x37); StepsEight(0x9D73 ^ 0x38); StepsEight(0x37DD ^ 0x39);
  }

  /** The CRC of "1234", the first four bytes of the check string. */
  lemma {:induction false} CheckPrefix()
    ensures Crc16([0x31, 0x32, 0x33, 0x34]) == 0x30BA
  {
    CheckStepsA();
    CheckStepsB();
    var s: seq<u8> := [0x31, 0x32, 0x33, 0x34];
    Crc16Extend([], s[0], 0xFFFF, 0x947E);
    assert [] + [s[0]] == s[..1];
    Crc16Extend(s[..1], s[1], 0x947E, 0xF595);
    assert s[..1] + [s[1]] == s[..2];
    Crc16Extend(s[..2], s[2], 0xF595, 0x7A75);
    assert s[..2] + [s[2]] == s[..3];
    Crc16Extend(s[..3], s[3], 0x7A75, 0x30BA);
    assert s[..3] + [s[3]] == s;
  }

  /** The published check value of CRC-16/MODBUS: ASCII "123456789" gives 0x4B37. */
  lemma {:induction false} CheckValue()
    ensures Crc16([0x31, 0x32, 0x33, 0x34, 0x35, 0x36, 0x37, 0x38, 0x39]) == 0x4B37
  {
    CheckPrefix();
    CheckStepsB();
    CheckStepsC();
    var s: seq<u8> := [0x31, 0x32, 0x33, 0x34, 0x35, 0x36, 0x37, 0x38, 0x39];
    assert s[..4] == [0x31, 0x32, 0x33, 0x34];
    Crc16Extend(s[..4], s[4], 0x30BA, 0xA471);
    assert s[..4] + [s[4]] == s[..5];
    Crc16Extend(s[..5], s[5], 0xA471, 0x32E4);
    assert s[..5] + [s[5]] == s[..6];
    Crc16Extend(s[..6], s[6], 0x32E4, 0x9D73);
    assert s[..6] + [s[6]] == s[..7];
    Crc16Extend(s[..7], s[7], 0x9D73, 0x37DD);
    assert s[..7] + [s[7]] == s[..8];
    Crc16Extend(s[..8], s[8], 0x37DD, 0x4B37);
    assert s[..8] + [s[8]] == s;
  }
}
