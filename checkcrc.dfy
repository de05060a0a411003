/** checkcrc.py: a stand-alone copy of the firmware checksum loop that reads
    a file one byte at a time, then prints the checksum and its two bytes.
    The file is given as its bytes; the printing becomes out-parameters. */
module CheckCrc {
  import opened Wire
  import Crc16

  /** crc ^= ((crc & 0xFF) << 5) & 0xffff: the script masks with 16 bits
      where auth.py masks with 24. The shifted low byte is at most 0x1FE0,
      so both masks keep every bit and the two statements agree. */
  function Fold5Narrow(crc: bv32): (r: bv32)
    requires crc <= 0xFFFF
    ensures r == Crc16.Fold5(crc)
  {
    crc ^ (((crc & 0xFF) << 5) & 0xFFFF)
  }

  /** The five statements of one iteration of the script's loop. */
  function ScriptStep(crc: bv32, c: bv32): (r: bv32)
    requires crc <= 0xFFFF
    ensures r <= 0xFFFF
    ensures r == Crc16.Step(crc, c)
  {
    Fold5Narrow(Crc16.Fold12(Crc16.Fold4(Crc16.XorIn(Crc16.Swap(crc), c))))
  }

  /** The whole script on the bytes of a file: the checksum after the final
      crc &= 0xffff and the two bytes it prints, low byte first. */
  method Run(file: Bytes) returns (crc: bv32, lo: uint8, hi: uint8)
    ensures crc == Crc16.Crc(file)
    ensures crc <= 0xFFFF
    ensures lo == Crc16.Low(crc) && hi == Crc16.High(crc)
    ensures crc as int == lo + 0x100 * hi
  {
    crc := 0xFFFF;
    var i := 0;
    while i < |file|
      invariant 0 <= i <= |file|
      invariant crc == Crc16.Crc(file[..i])
    {
      var cInt := file[i] as bv32;
      crc := Crc16.Swap(crc);
      crc := Crc16.XorIn(crc, cInt);
      crc := Crc16.Fold4(crc);
      crc := Crc16.Fold12(crc);
      crc := Fold5Narrow(crc);
      Crc16.CrcSnoc(file, i);
      i := i + 1;
    }
    assert file[..i] == file;
    crc := crc & 0xFFFF;
    lo, hi := Crc16.Low(crc), Crc16.High(crc);
    Crc16.LowHighReconstruct(crc);
  }

  /** An empty file prints the initial value 0xFFFF, as bytes FF FF. */
  lemma EmptyFile()
    ensures Crc16.Crc([]) == 0xFFFF
    ensures Crc16.Low(0xFFFF) == 0xFF && Crc16.High(0xFFFF) == 0xFF
  {
  }
}
