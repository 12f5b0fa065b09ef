/*
 * READ CAPACITY(10) and READ CAPACITY(16) (SBC-3 sections 5.15 and 5.16):
 * the last logical block address the backend reports and the configured
 * logical block length, written big-endian into the zeroed data-in buffer.
 */
module ReadCapacity {
  import opened Common
  import opened TargetTypes

  /** RETURNED LOGICAL BLOCK ADDRESS of READ CAPACITY(10): FFFFFFFFh when the last LBA does not fit. */
  function ReturnedLba10(blocks: u64): (lba: u32)
    ensures blocks < 0xffffffff ==> lba == blocks
    ensures blocks >= 0xffffffff ==> lba == 0xffffffff
  {
    if blocks >= 0x00000000ffffffff then 0xffffffff else blocks
  }

  /**
   * READ CAPACITY(10): with PMI clear a nonzero LOGICAL BLOCK ADDRESS field
   * is INVALID FIELD IN CDB; otherwise the eight-byte parameter data.
   */
  function ReadCapacity10(dev: Device, cdb: seq<byte>): (r: Result<seq<byte>>)
    requires |cdb| >= 10
    ensures r.Err? <==> !Bit(cdb[8], 0) && cdb[2..6] != [0, 0, 0, 0]
    ensures r.Err? ==> r == Err(-EINVAL, InvalidCdbField)
    ensures r.Ok? ==> |r.value| == 8
  {
    if !Bit(cdb[8], 0) && (cdb[2] != 0 || cdb[3] != 0 || cdb[4] != 0 || cdb[5] != 0) then
      Err(-EINVAL, InvalidCdbField)
    else
      Ok(BE(ReturnedLba10(dev.blocks), 4) + BE(dev.attrib.blockSize, 4))
  }

  /**
   * READ CAPACITY(16) parameter data: the 64-bit last LBA, the block
   * length, and TPE with LBPRZ (C0h in byte 14) when thin provisioning is
   * emulated through UNMAP or WRITE SAME.
   */
  function ReadCapacity16(dev: Device): (d: seq<byte>)
    ensures |d| == 32
  {
    var tp := dev.attrib.emulateTpu != 0 || dev.attrib.emulateTpws != 0;
    BE(dev.blocks, 8) + BE(dev.attrib.blockSize, 4) + [0, 0] + [if tp then 0xC0 else 0x00] + Zeros(17)
  }

  /**
   * The READ CAPACITY(10) reply decodes to the saturated last LBA and the
   * block length; the command fails exactly when PMI is clear and the LBA
   * field is not zero.
   */
  lemma ReadCapacity10Decodes(dev: Device, cdb: seq<byte>)
    requires |cdb| >= 10
    ensures ReadCapacity10(dev, cdb).Err? <==> !Bit(cdb[8], 0) && BEValue(cdb[2..6]) != 0
    ensures ReadCapacity10(dev, cdb).Ok? ==>
      var d := ReadCapacity10(dev, cdb).value;
      |d| == 8 && BEValue(d[..4]) == ReturnedLba10(dev.blocks) && BEValue(d[4..]) == dev.attrib.blockSize
  {
    BEOfValue(cdb[2..6]);
    assert BEValue(cdb[2..6]) == 0 <==> cdb[2..6] == [0, 0, 0, 0] by {
      BE0(4);
      BEExact(0, 4);
      assert Zeros(4) == [0, 0, 0, 0];
    }
    if ReadCapacity10(dev, cdb).Ok? {
      var d := ReadCapacity10(dev, cdb).value;
      assert d[..4] == BE(ReturnedLba10(dev.blocks), 4);
      assert d[4..] == BE(dev.attrib.blockSize, 4);
      assert Pow256(4) == 0x1_0000_0000;
      BEExact(ReturnedLba10(dev.blocks), 4);
      BEExact(dev.attrib.blockSize, 4);
    }
  }

  /** Zero encodes as all-zero bytes. */
  lemma {:induction false} BE0(n: nat)
    ensures BE(0, n) == Zeros(n)
  {
    if n > 0 {
      BE0(n - 1);
    }
  }

  /**
   * The READ CAPACITY(16) reply decodes to the full 64-bit last LBA and the
   * block length, and sets TPE and LBPRZ together, exactly when UNMAP or
   * WRITE SAME thin provisioning is emulated.
   */
  lemma ReadCapacity16Decodes(dev: Device)
    ensures var d := ReadCapacity16(dev);
      BEValue(d[..8]) == dev.blocks && BEValue(d[8..12]) == dev.attrib.blockSize
      && (Bit(d[14], 7) <==> dev.attrib.emulateTpu != 0 || dev.attrib.emulateTpws != 0)
      && (Bit(d[14], 6) <==> dev.attrib.emulateTpu != 0 || dev.attrib.emulateTpws != 0)
  {
    var d := ReadCapacity16(dev);
    assert d[..8] == BE(dev.blocks, 8);
    assert d[8..12] == BE(dev.attrib.blockSize, 4);
    assert Pow256(4) == 0x1_0000_0000;
    assert Pow256(8) == 0x1_0000_0000_0000_0000;
    BEExact(dev.blocks, 8);
    BEExact(dev.attrib.blockSize, 4);
    assert Pow2(6) == 64 && Pow2(7) == 128;
  }

  /** target_emulate_readcapacity. */
  method EmulateReadCapacity(dev: Device, cdb: seq<byte>, buf: array<byte>) returns (r: Result<nat>)
    requires |cdb| >= 10 && buf.Length >= 8
    modifies buf
    ensures ReadCapacity10(dev, cdb).Err? ==>
      r == Err(-EINVAL, InvalidCdbField) && buf[..] == old(buf[..])
    ensures ReadCapacity10(dev, cdb).Ok? ==>
      r == Ok(8) && buf[..] == Splice(old(buf[..]), 0, ReadCapacity10(dev, cdb).value)
  {
    if !Bit(cdb[8], 0) && (cdb[2] != 0 || cdb[3] != 0 || cdb[4] != 0 || cdb[5] != 0) {
      return Err(-EINVAL, InvalidCdbField);
    }
    var blocks: u32;
    if dev.blocks >= 0x00000000ffffffff {
      blocks := 0xffffffff;
    } else {
      blocks := dev.blocks;
    }
    PutBE(buf, 0, blocks, 4);
    PutBE(buf, 4, dev.attrib.blockSize, 4);
    assert buf[..8] == BE(blocks, 4) + BE(dev.attrib.blockSize, 4);
    return Ok(8);
  }

  /** target_emulate_readcapacity_16, into a zeroed buffer that reaches at least byte 14. */
  method EmulateReadCapacity16(dev: Device, buf: array<byte>) returns (n: nat)
    requires buf.Length >= 15
    requires forall i :: 0 <= i < buf.Length ==> buf[i] == 0
    modifies buf
    ensures n == 32
    ensures forall i :: 0 <= i < buf.Length ==> buf[i] == if i < 32 then ReadCapacity16(dev)[i] else 0
  {
    PutBE(buf, 0, dev.blocks, 8);
    PutBE(buf, 8, dev.attrib.blockSize, 4);
    if dev.attrib.emulateTpu != 0 || dev.attrib.emulateTpws != 0 {
      buf[14] := 0xC0;
    }
    return 32;
  }
}
