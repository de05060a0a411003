/** The firmware-update checksum of auth.py dfuUpdate: a table-free,
    byte-at-a-time CRC-16 with polynomial x^16 + x^12 + x^5 + 1 (0x1021),
    initial value 0xFFFF, no reflection and no final XOR (the variant
    catalogued as CRC-16/CCITT-FALSE, whose catalogue check value is proved
    below). Python's unbounded integers are held
    in bv32: every intermediate value of the update stays below 2^28, so no
    bit is lost. */
module Crc16 {
  import opened Wire

  const INITIAL: bv32 := 0xFFFF

  /** crc = ((crc >> 8) | (crc << 8)) & 0xFFFF: exchange the two bytes. */
  function Swap(crc: bv32): (r: bv32)
    requires crc <= 0xFFFF
    ensures r <= 0xFFFF
    ensures r & 0xFF == crc >> 8 && r >> 8 == crc & 0xFF
  {
    ((crc >> 8) | (crc << 8)) & 0xFFFF
  }

  /** Swapping twice gives the value back, so the swap permutes 0..0xFFFF. */
  lemma SwapInvolution(crc: bv32)
    requires crc <= 0xFFFF
    ensures Swap(Swap(crc)) == crc
  {
  }

  /** crc ^= (cInt & 0xff): fold the input byte into the low byte. */
  function XorIn(crc: bv32, c: bv32): (r: bv32)
    requires crc <= 0xFFFF
    ensures r <= 0xFFFF
    ensures r >> 8 == crc >> 8 && r & 0xFF == (crc & 0xFF) ^ (c & 0xFF)
  {
    crc ^ (c & 0xFF)
  }

  /** crc ^= ((crc & 0xff) >> 4): only the low nibble changes. */
  function Fold4(crc: bv32): (r: bv32)
    requires crc <= 0xFFFF
    ensures r <= 0xFFFF
    ensures r & 0xFFF0 == crc & 0xFFF0
  {
    crc ^ ((crc & 0xFF) >> 4)
  }

  /** crc ^= (crc << 12) & 0xFFFF: only the top nibble changes. */
  function Fold12(crc: bv32): (r: bv32)
    requires crc <= 0xFFFF
    ensures r <= 0xFFFF
    ensures r & 0x0FFF == crc & 0x0FFF
  {
    crc ^ ((crc << 12) & 0xFFFF)
  }

  /** crc ^= ((crc & 0xFF) << 5) & 0xFFFFFF: the shifted low byte is at most
      0x1FE0, so the wide mask keeps the value within 16 bits. */
  function Fold5(crc: bv32): (r: bv32)
    requires crc <= 0xFFFF
    ensures r <= 0xFFFF
    ensures r & 0x1F == crc & 0x1F
  {
    crc ^ (((crc & 0xFF) << 5) & 0xFF_FFFF)
  }

  /** The five statements of one loop iteration of auth.py dfuUpdate. */
  function Step(crc: bv32, c: bv32): (r: bv32)
    requires crc <= 0xFFFF
    ensures r <= 0xFFFF
  {
    Fold5(Fold12(Fold4(XorIn(Swap(crc), c))))
  }

  /** The checksum of data, bytes consumed in order starting from 0xFFFF. */
  function Crc(data: Bytes): (r: bv32)
    ensures r <= 0xFFFF
    decreases |data|
  {
    if data == [] then INITIAL
    else Step(Crc(data[..|data| - 1]), data[|data| - 1] as bv32)
  }

  /** The CRC loop of auth.py dfuUpdate: one byte per iteration, in file
      order, each iteration running the five update statements in turn. */
  method Compute(data: Bytes) returns (crc: bv32)
    ensures crc <= 0xFFFF
    ensures crc == Crc(data)
  {
    crc := 0xFFFF;
    var i := 0;
    while i < |data|
      invariant 0 <= i <= |data|
      invariant crc == Crc(data[..i])
    {
      var cInt := data[i] as bv32;
      crc := Swap(crc);
      crc := XorIn(crc, cInt);
      crc := Fold4(crc);
      crc := Fold12(crc);
      crc := Fold5(crc);
      CrcSnoc(data, i);
      i := i + 1;
    }
    assert data[..i] == data;
    crc := crc & 0xFFFF;
  }

  /** Extending the input by one byte applies one more step. */
  lemma CrcSnoc(data: Bytes, i: nat)
    requires i < |data|
    ensures Crc(data[..i + 1]) == Step(Crc(data[..i]), data[i] as bv32)
  {
    assert data[..i + 1][..i] == data[..i];
  }

  // ------------------------------------------------- output bytes

  /** crc & 0xFF, the first byte of the checksum frame. */
  function Low(crc: bv32): (b: uint8)
  {
    (crc & 0xFF) as int
  }

  /** (crc >> 8) & 0xFF, the second byte of the checksum frame. */
  function High(crc: bv32): (b: uint8)
  {
    ((crc >> 8) & 0xFF) as int
  }

  /** The two transmitted bytes determine the checksum. */
  lemma LowHighReconstruct(crc: bv32)
    requires crc <= 0xFFFF
    ensures crc as int == Low(crc) + 0x100 * High(crc)
  {
  }

  /** No input leaves the initial value untouched. */
  lemma EmptyCrc()
    ensures Crc([]) == 0xFFFF
  {
  }

  /** Appending one byte applies one more step to the checksum so far. */
  lemma CrcExtend(data: Bytes, b: uint8, r: bv32, r': bv32)
    requires Crc(data) == r && r <= 0xFFFF && Step(r, b as bv32) == r'
    ensures Crc(data + [b]) == r'
  {
    assert (data + [b])[..|data|] == data;
  }

  /** The catalogue check value of CRC-16/CCITT-FALSE over "123456789". */
  lemma CheckValue()
    ensures Crc([0x31, 0x32, 0x33, 0x34, 0x35, 0x36, 0x37, 0x38, 0x39]) == 0x29B1
  {
    var s1: Bytes := [0x31];
    var s2, s3, s4 := s1 + [0x32], s1 + [0x32] + [0x33], s1 + [0x32] + [0x33] + [0x34];
    var s5, s6 := s4 + [0x35], s4 + [0x35] + [0x36];
    var s7, s8 := s6 + [0x37], s6 + [0x37] + [0x38];
    CrcExtend([], 0x31, 0xFFFF, 0xC782);
    assert [] + [0x31] == s1;
    CrcExtend(s1, 0x32, 0xC782, 0x3DBA);
    CrcExtend(s2, 0x33, 0x3DBA, 0x5BCE);
    CrcExtend(s3, 0x34, 0x5BCE, 0x5349);
    CrcExtend(s4, 0x35, 0x5349, 0x4560);
    CrcExtend(s5, 0x36, 0x4560, 0x2EF4);
    CrcExtend(s6, 0x37, 0x2EF4, 0x7718);
    CrcExtend(s7, 0x38, 0x7718, 0xA12B);
    CrcExtend(s8, 0x39, 0xA12B, 0x29B1);
    assert s8 + [0x39] == [0x31, 0x32, 0x33, 0x34, 0x35, 0x36, 0x37, 0x38, 0x39];
  }

  /** The checksum depends on the order of the bytes. */
  lemma OrderMatters()
    ensures Crc([0, 1]) != Crc([1, 0])
  {
    CrcExtend([], 0, 0xFFFF, 0xE1F0);
    CrcExtend([], 1, 0xFFFF, 0xF1D1);
    assert [] + [0] == [0] && [] + [1] == [1];
    CrcExtend([0], 1, 0xE1F0, 0x0D2E);
    CrcExtend([1], 0, 0xF1D1, 0x2E3E);
    assert [0] + [1] == [0, 1] && [1] + [0] == [1, 0];
  }
}
