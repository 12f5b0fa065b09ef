/*
 * The emulated commands that hand the work to an optional backend
 * operation: WRITE SAME (falling back to a discard when UNMAP is set),
 * COMPARE AND WRITE and SYNCHRONIZE CACHE, each refused with UNSUPPORTED
 * SCSI OPCODE when the backend lacks what it needs, and the no-op
 * emulation that completes a command at once.
 *
 * A backend operation's return code is a parameter (`rc`); the call the
 * emulator makes is returned with the outcome.
 */
module BackendCommands {
  import opened Common
  import opened TargetTypes

  const WRITE_SAME: byte := 0x41
  const WRITE_SAME_16: byte := 0x93

  /** The CDB is long enough for its WRITE SAME variant (10, 16 or 32 bytes). */
  predicate WriteSameCdb(cdb: seq<byte>)
  {
    |cdb| >= 1 &&
    |cdb| >= (if cdb[0] == WRITE_SAME then 10 else if cdb[0] == WRITE_SAME_16 then 16 else 32)
  }

  /** NUMBER OF LOGICAL BLOCKS: bytes 7-8, 10-13 or 28-31 by variant. */
  function WriteSameCount(cdb: seq<byte>): nat
    requires WriteSameCdb(cdb)
  {
    if cdb[0] == WRITE_SAME then BEValue(cdb[7..9])
    else if cdb[0] == WRITE_SAME_16 then BEValue(cdb[10..14])
    else BEValue(cdb[28..32])
  }

  /** The flags byte (RPROTECT, ANCHOR, UNMAP, PBDATA, LBDATA): byte 1, or byte 10 of WRITE SAME(32). */
  function WriteSameFlags(cdb: seq<byte>): byte
    requires WriteSameCdb(cdb)
  {
    if cdb[0] == WRITE_SAME || cdb[0] == WRITE_SAME_16 then cdb[1] else cdb[10]
  }

  /**
   * The range as written: a zero count becomes get_blocks() - lba, in
   * 64-bit sector_t arithmetic. get_blocks() is the last LBA, so this is
   * one block short of the end of the medium.
   */
  function WriteSameRangeAsWritten(blocks: u64, lba: u64, count: nat): nat
  {
    if count != 0 then count else (blocks - lba) % U64_LIMIT
  }

  /**
   * The range a zero count means in SBC-3 (section 5.42): every block from
   * lba through the last one, get_blocks() + 1 - lba.
   */
  function WriteSameRange(blocks: u64, lba: u64, count: nat): nat
  {
    if count != 0 then count else (blocks + 1 - lba) % U64_LIMIT
  }

  /**
   * An explicit count is the range; a zero count from an LBA on the medium
   * covers every block from lba through the last LBA, `blocks` (a medium
   * of 2^64 blocks has no 64-bit range).
   */
  lemma WriteSameRangeReachesEnd(blocks: u64, lba: u64, count: nat)
    requires blocks < U64_LIMIT - 1
    ensures count != 0 ==> WriteSameRange(blocks, lba, count) == count
    ensures count == 0 && lba <= blocks ==> lba + WriteSameRange(blocks, lba, count) == blocks + 1
  {
  }

  /**
   * As written, a zero count from an LBA on the medium stops one block
   * short: the last LBA is never written.
   */
  lemma WriteSameRangeAsWrittenShort(blocks: u64, lba: u64)
    requires lba <= blocks < U64_LIMIT - 1
    ensures lba + WriteSameRangeAsWritten(blocks, lba, 0) == blocks
    ensures WriteSameRangeAsWritten(blocks, lba, 0) + 1 == WriteSameRange(blocks, lba, 0)
  {
    WriteSameRangeReachesEnd(blocks, lba, 0);
  }

  /** The concrete case: a 100-block medium (last LBA 99) from LBA 0 gets 99 blocks, not 100. */
  lemma WriteSameRangeExample()
    ensures WriteSameRangeAsWritten(99, 0, 0) == 99
    ensures WriteSameRange(99, 0, 0) == 100
  {
  }

  /**
   * The range argument do_write_same and do_discard receive: the sector_t
   * range as written, narrowed to the u32 parameter of both operations.
   */
  function WriteSameArg(blocks: u64, lba: u64, count: nat): u32
  {
    WriteSameRangeAsWritten(blocks, lba, count) % U32_LIMIT
  }

  /**
   * target_emulate_write_same for the task's LBA, with `rc` the return code
   * of whichever backend operation it calls: do_write_same whenever the
   * backend has it (its return code is returned, the backend completes the
   * task), else a discard only when UNMAP is set.
   */
  function WriteSame(dev: Device, cdb: seq<byte>, lba: u64, rc: int): (r: (Disposition, seq<BackendCall>))
    requires WriteSameCdb(cdb)
    ensures r.0 == Failed(-ENOSYS, Some(UnsupportedScsiOpcode)) <==> !dev.caps.discard && !dev.caps.writeSame
    ensures |r.1| <= 1
    ensures forall c :: c in r.1 ==>
      ((c.WriteSameCall? && dev.caps.writeSame) || (c.DiscardCall? && dev.caps.discard && !dev.caps.writeSame))
      && c.lba == lba && c.range == WriteSameArg(dev.blocks, lba, WriteSameCount(cdb))
    ensures dev.caps.writeSame ==> r.0 == Returned(rc)
  {
    if !dev.caps.discard && !dev.caps.writeSame then
      (Failed(-ENOSYS, Some(UnsupportedScsiOpcode)), [])
    else
      var range := WriteSameArg(dev.blocks, lba, WriteSameCount(cdb));
      var unmap := Bit(WriteSameFlags(cdb), 3);
      if dev.caps.writeSame then (Returned(rc), [WriteSameCall(lba, range)])
      else if !unmap then (Failed(-ENOSYS, None), [])
      else if rc < 0 then (Failed(rc, None), [DiscardCall(lba, range)])
      else (Good, [DiscardCall(lba, range)])
  }

  /**
   * The fallback order: UNSUPPORTED SCSI OPCODE exactly when neither
   * operation exists; do_write_same is preferred whatever the UNMAP bit;
   * without it the blocks are discarded exactly when UNMAP is set, and
   * then GOOD exactly when the discard succeeds. Either call covers the
   * range the command asks for: its explicit count, or for a zero count
   * from an LBA on the medium the blocks up to (not including) the last
   * LBA, modulo 2^32.
   */
  lemma WriteSameFallback(dev: Device, cdb: seq<byte>, lba: u64, rc: int)
    requires WriteSameCdb(cdb)
    ensures var (d, calls) := WriteSame(dev, cdb, lba, rc);
      var count := WriteSameCount(cdb);
      var unmap := Bit(WriteSameFlags(cdb), 3);
      (d == Failed(-ENOSYS, Some(UnsupportedScsiOpcode)) <==> !dev.caps.discard && !dev.caps.writeSame)
      && (dev.caps.writeSame ==> |calls| == 1 && calls[0].WriteSameCall? && calls[0].lba == lba && d == Returned(rc))
      && (!dev.caps.writeSame && dev.caps.discard ==>
            (|calls| == 1 && calls[0].DiscardCall? && calls[0].lba == lba <==> unmap)
            && (calls == [] <==> !unmap)
            && (d == Good <==> unmap && rc >= 0))
      && (|calls| == 1 && count != 0 ==> calls[0].range == count)
      && (|calls| == 1 && count == 0 && lba <= dev.blocks ==> calls[0].range == (dev.blocks - lba) % U32_LIMIT)
  {
    var count := WriteSameCount(cdb);
    assert Pow256(4) == U32_LIMIT by {
      assert Pow256(2) == 0x1_0000;
      assert Pow256(4) == 256 * 256 * Pow256(2);
    }
    assert count < U32_LIMIT;
  }

  /**
   * The narrowing as written: a zero-count WRITE SAME from LBA 0 of a
   * device whose last LBA is 2^33 - 1 passes 2^32 - 1 blocks; the range
   * SBC-3 means, 2^33 blocks, has no u32 form at all (it narrows to 0).
   */
  lemma WriteSameArgNarrows()
    ensures WriteSameArg(0x1_FFFF_FFFF, 0, 0) == 0xFFFF_FFFF
    ensures WriteSameRange(0x1_FFFF_FFFF, 0, 0) == 0x2_0000_0000
    ensures WriteSameRange(0x1_FFFF_FFFF, 0, 0) % U32_LIMIT == 0
  {
  }

  /** target_emulate_compare_and_write: NUMBER OF LOGICAL BLOCKS is byte 13. */
  function CompareAndWrite(dev: Device, cdb: seq<byte>, rc: int): (r: (Disposition, seq<BackendCall>))
    requires |cdb| >= 14
    ensures !dev.caps.compareAndWrite <==> r.0 == Failed(-ENOSYS, Some(UnsupportedScsiOpcode))
    ensures !dev.caps.compareAndWrite <==> r.1 == []
    ensures dev.caps.compareAndWrite ==> r == (Returned(rc), [CompareAndWriteCall(cdb[13])])
  {
    if !dev.caps.compareAndWrite then (Failed(-ENOSYS, Some(UnsupportedScsiOpcode)), [])
    else (Returned(rc), [CompareAndWriteCall(cdb[13])])
  }

  /** target_emulate_synchronize_cache: the flush completes the task; the emulator returns 0. */
  function SynchronizeCache(dev: Device): (r: (Disposition, seq<BackendCall>))
    ensures !dev.caps.syncCache <==> r.0 == Failed(-ENOSYS, Some(UnsupportedScsiOpcode))
    ensures !dev.caps.syncCache <==> r.1 == []
    ensures dev.caps.syncCache ==> r == (Returned(0), [SyncCacheCall])
  {
    if !dev.caps.syncCache then (Failed(-ENOSYS, Some(UnsupportedScsiOpcode)), [])
    else (Returned(0), [SyncCacheCall])
  }

  /** target_emulate_noop: GOOD, no backend call. */
  function Noop(): (r: (Disposition, seq<BackendCall>))
    ensures r.0 == Good && r.1 == []
  {
    (Good, [])
  }
}
