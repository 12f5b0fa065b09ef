/*
 * The iblock backend's arithmetic and completion bookkeeping: converting a
 * SCSI LBA to 512-byte block-layer sectors, rescaling the reported
 * capacity between the backing device's and the configured block size,
 * choosing FUA writes, the pending-bio counter that completes a task
 * exactly once, the COMPARE AND WRITE result, and the completion callbacks
 * of the pass-through (ps_ioreq) path.
 *
 * Block-layer submission, the ps_ioreq calls and transport_complete_task
 * are outside the model: the completion a task receives is recorded in a
 * field, and return codes of foreign calls are parameters.
 */
module Iblock {
  import opened Common
  import opened TargetTypes

  /** Bytes per block-layer sector is 1 << IBLOCK_LBA_SHIFT (the header defining it is not part of this model). */
  const IBLOCK_LBA_SHIFT: nat := 9
  /** Bios submitted at a time while a task is being split. */
  const IBLOCK_MAX_BIO_PER_TASK: nat := 32

  /** The block sizes the backend converts: 512, 1024, 2048 and 4096 bytes. */
  predicate KnownBlockSize(bs: nat)
  {
    bs == 512 || bs == 1024 || bs == 2048 || bs == 4096
  }

  /** A sector_t (u64) left shift: the bits shifted past bit 63 are lost. */
  function Shl(x: u64, k: nat): u64
  {
    (x * Pow2(k)) % U64_LIMIT
  }

  /** A u64 right shift, one bit at a time. */
  function Shr(x: u64, k: nat): u64
  {
    if k == 0 then x else Shr(x / 2, k - 1)
  }

  /** The shifts the capacity rescaling uses divide by 2, 4 and 8. */
  lemma ShrSmall(x: u64)
    ensures Shr(x, 1) == x / 2 && Shr(x, 2) == x / 4 && Shr(x, 3) == x / 8
  {
    assert Shr(x, 2) == Shr(x / 2, 1) == x / 2 / 2;
    assert Shr(x, 3) == Shr(x / 2, 2) == x / 2 / 2 / 2;
  }

  // ---------------------------------------------------------------
  // LBA conversion (iblock_do_task, iblock_do_write_same,
  // iblock_do_compare_and_write)
  // ---------------------------------------------------------------

  /**
   * The starting sector of a task at SCSI block `lba`: the LBA shifted by
   * 3, 2, 1 or 0 for 4096-, 2048-, 1024- or 512-byte blocks; any other
   * block size is LOGICAL UNIT COMMUNICATION FAILURE with -ENOSYS.
   */
  function BlockLba(blockSize: nat, lba: u64): (r: Result<u64>)
    ensures r.Err? <==> !KnownBlockSize(blockSize)
    ensures r.Err? ==> r == Err(-ENOSYS, LogicalUnitCommunicationFailure)
  {
    if blockSize == 4096 then Ok(Shl(lba, 3))
    else if blockSize == 2048 then Ok(Shl(lba, 2))
    else if blockSize == 1024 then Ok(Shl(lba, 1))
    else if blockSize == 512 then Ok(lba)
    else Err(-ENOSYS, LogicalUnitCommunicationFailure)
  }

  /** A left shift that loses no bits multiplies. */
  lemma ShlExact(x: u64, k: nat)
    requires x * Pow2(k) < U64_LIMIT
    ensures Shl(x, k) == x * Pow2(k)
  {
  }

  /**
   * The conversion keeps the byte address: sector * 512 is lba times the
   * block size whenever that address fits in 64-bit sectors.
   */
  lemma BlockLbaKeepsAddress(blockSize: nat, lba: u64)
    requires KnownBlockSize(blockSize) && lba * blockSize < U64_LIMIT * 512
    ensures BlockLba(blockSize, lba).value * 512 == lba * blockSize
  {
    assert Pow2(1) == 2 && Pow2(2) == 4 && Pow2(3) == 8;
    var k := if blockSize == 4096 then 3 else if blockSize == 2048 then 2 else if blockSize == 1024 then 1 else 0;
    var m := Pow2(k);
    assert blockSize == 512 * m;
    assert lba * blockSize == (lba * m) * 512;
    if k > 0 {
      ShlExact(lba, k);
    }
  }

  /** What iblock_do_write_same and iblock_do_compare_and_write do once the LBA is converted. */
  datatype BackendStep =
    | PsExec(sector: u64, xparam: nat)      // the request goes to exec_ps_buf_fn
    | Submit(sector: u64, range: u32)       // the bio goes to write_same_fn / compare_and_write_fn
    | Refused(rc: int, reason: SenseReason) // returned without submitting

  /**
   * iblock_do_write_same: after the conversion, a pass-through request
   * carries the range shifted left by 9 in 32-bit arithmetic; without a
   * write_same_fn the command is UNSUPPORTED SCSI OPCODE with -EIO.
   */
  function DoWriteSame(blockSize: nat, lba: u64, range: u32, psIop: bool, hasWriteSameFn: bool): (r: BackendStep)
    ensures !KnownBlockSize(blockSize) <==> r == Refused(-ENOSYS, LogicalUnitCommunicationFailure)
    ensures KnownBlockSize(blockSize) && psIop ==> r == PsExec(BlockLba(blockSize, lba).value, (range * 512) % U32_LIMIT)
    ensures KnownBlockSize(blockSize) && !psIop ==>
      (r == Refused(-EIO, UnsupportedScsiOpcode) <==> !hasWriteSameFn)
    ensures r.Submit? ==> r.sector == BlockLba(blockSize, lba).value && r.range == range && hasWriteSameFn
  {
    match BlockLba(blockSize, lba)
    case Err(rc, reason) => Refused(rc, reason)
    case Ok(sector) =>
      if psIop then PsExec(sector, (range * 512) % U32_LIMIT)
      else if !hasWriteSameFn then Refused(-EIO, UnsupportedScsiOpcode)
      else Submit(sector, range)
  }

  /** iblock_do_compare_and_write: the same conversion, then the pass-through or compare_and_write_fn. */
  function DoCompareAndWrite(blockSize: nat, lba: u64, range: u32, psIop: bool, hasCawFn: bool): (r: BackendStep)
    ensures !KnownBlockSize(blockSize) <==> r == Refused(-ENOSYS, LogicalUnitCommunicationFailure)
    ensures KnownBlockSize(blockSize) && psIop ==> r == PsExec(BlockLba(blockSize, lba).value, 0)
    ensures KnownBlockSize(blockSize) && !psIop ==>
      (r == Refused(-EIO, UnsupportedScsiOpcode) <==> !hasCawFn)
    ensures r.Submit? ==> r.sector == BlockLba(blockSize, lba).value && r.range == range && hasCawFn
  {
    match BlockLba(blockSize, lba)
    case Err(rc, reason) => Refused(rc, reason)
    case Ok(sector) =>
      if psIop then PsExec(sector, 0)
      else if !hasCawFn then Refused(-EIO, UnsupportedScsiOpcode)
      else Submit(sector, range)
  }

  // ---------------------------------------------------------------
  // Write mode (iblock_do_task)
  // ---------------------------------------------------------------

  datatype Rw = Read | Write | WriteFua

  /**
   * A write forces unit access when the device pretends to have no
   * volatile write cache, or when FUA writes are emulated and the command
   * set FUA; a read is a READ.
   */
  function WriteMode(toDevice: bool, emulateWriteCache: u32, emulateFuaWrite: u32, fua: bool): (rw: Rw)
    ensures rw == Read <==> !toDevice
    ensures rw == WriteFua <==> toDevice && (emulateWriteCache == 0 || (emulateFuaWrite > 0 && fua))
  {
    if toDevice then
      if emulateWriteCache == 0 || (emulateFuaWrite > 0 && fua) then WriteFua else Write
    else Read
  }

  // ---------------------------------------------------------------
  // Capacity (iblock_emulate_read_cap_with_block_size)
  // ---------------------------------------------------------------

  /**
   * As written: the backing device's last LBA, size / backing - 1 in
   * 64-bit arithmetic, shifted by the ratio of the two block sizes. Equal
   * sizes, and any size outside the table, leave it unchanged.
   */
  function ReadCapWithBlockSize(size: u64, backing: nat, configured: nat): (r: u64)
    requires backing > 0
    ensures !KnownBlockSize(backing) || !KnownBlockSize(configured) ==> r == (size / backing - 1) % U64_LIMIT
    ensures KnownBlockSize(backing) && KnownBlockSize(configured) && backing < configured ==>
      r <= (size / backing - 1) % U64_LIMIT
  {
    var last: u64 := (size / backing - 1) % U64_LIMIT;
    ShrSmall(last);
    if backing == configured then last
    else if backing == 4096 then
      if configured == 2048 then Shl(last, 1)
      else if configured == 1024 then Shl(last, 2)
      else if configured == 512 then Shl(last, 3)
      else last
    else if backing == 2048 then
      if configured == 4096 then Shr(last, 1)
      else if configured == 1024 then Shl(last, 1)
      else if configured == 512 then Shl(last, 2)
      else last
    else if backing == 1024 then
      if configured == 4096 then Shr(last, 2)
      else if configured == 2048 then Shr(last, 1)
      else if configured == 512 then Shl(last, 1)
      else last
    else if backing == 512 then
      if configured == 4096 then Shr(last, 3)
      else if configured == 2048 then Shr(last, 2)
      else if configured == 1024 then Shr(last, 1)
      else last
    else last
  }

  /**
   * The rescaling, stated by the ratio of the two sizes: a smaller
   * configured block multiplies the last LBA by backing / configured, a
   * larger one divides it by configured / backing, and equal or unknown
   * sizes leave it unchanged.
   */
  lemma ReadCapRescales(size: u64, backing: nat, configured: nat)
    requires backing > 0
    ensures var last := (size / backing - 1) % U64_LIMIT;
      var r := ReadCapWithBlockSize(size, backing, configured);
      (backing == configured ==> r == last)
      && (!KnownBlockSize(backing) || !KnownBlockSize(configured) ==> r == last)
      && (KnownBlockSize(backing) && KnownBlockSize(configured) && backing > configured ==>
            r == (last * (backing / configured)) % U64_LIMIT)
      && (KnownBlockSize(backing) && KnownBlockSize(configured) && backing < configured ==>
            r == last / (configured / backing))
  {
    assert Pow2(1) == 2 && Pow2(2) == 4 && Pow2(3) == 8;
    ShrSmall((size / backing - 1) % U64_LIMIT);
  }

  /**
   * iblock_get_blocks as evidently intended (as written it returns
   * ReadCapWithBlockSize): the last whole configured block inside the
   * device, size / configured - 1, when the backend rescales; otherwise
   * the backing device's own last LBA.
   */
  function GetBlocks(size: u64, backing: nat, configured: nat): (r: u64)
    requires backing > 0
    ensures size >= backing && size >= configured ==> r < size
    ensures size < backing && size < configured ==> r == U64_LIMIT - 1
  {
    if backing == configured || !KnownBlockSize(backing) || !KnownBlockSize(configured) then
      DivBracket(size, backing);
      (size / backing - 1) % U64_LIMIT
    else
      DivBracket(size, configured);
      (size / configured - 1) % U64_LIMIT
  }

  /**
   * Every reported block lies inside the device and the block after the
   * last one does not fit: (r + 1) configured blocks are at most `size`
   * bytes and (r + 2) are more.
   */
  lemma GetBlocksWithinDevice(size: u64, backing: nat, configured: nat)
    requires KnownBlockSize(backing) && KnownBlockSize(configured) && size >= configured
    ensures var r := GetBlocks(size, backing, configured);
      (r + 1) * configured <= size < (r + 2) * configured
  {
    DivBracket(size, configured);
    assert GetBlocks(size, backing, configured) == size / configured - 1;
    LastWholeBlock(size, configured);
  }

  /** The last whole d-byte block of `size` bytes is number size / d - 1. */
  lemma LastWholeBlock(size: nat, d: nat)
    requires d > 0 && size >= d
    ensures var r := size / d - 1;
      r >= 0 && (r + 1) * d <= size < (r + 2) * d
  {
    var q := size / d;
    DivBracket(size, d);
    MulStep(q - 1, d);
    MulStep(q, d);
  }

  /** x lies between the multiples of d around it. */
  lemma DivBracket(x: nat, d: nat)
    requires d > 0
    ensures d * (x / d) <= x < d * (x / d) + d
    ensures x >= d ==> x / d >= 1
    ensures x / d <= x
    ensures x < d ==> x / d == 0
  {
    DivAtMost(x, d);
  }

  /** (k + 1) * d is d * k plus one more d. */
  lemma MulStep(k: nat, d: nat)
    ensures (k + 1) * d == d * k + d
  {
  }

  /**
   * As written, a 17-sector (8704-byte) device of 512-byte sectors exposed
   * with 4096-byte blocks reports last LBA 2: three blocks, 12288 bytes,
   * past the end of the device; the last whole block is LBA 1. A 10-block
   * 4096-byte device exposed with 512-byte blocks reports 72, leaving LBAs
   * 73 to 79 unreachable.
   */
  lemma ReadCapPastEnd()
    ensures ReadCapWithBlockSize(8704, 512, 4096) == 2 && (2 + 1) * 4096 > 8704
    ensures GetBlocks(8704, 512, 4096) == 1
    ensures ReadCapWithBlockSize(40960, 4096, 512) == 72 && GetBlocks(40960, 4096, 512) == 79
  {
    assert Pow2(3) == 8;
    ShrSmall(16);
  }

  // ---------------------------------------------------------------
  // COMPARE AND WRITE completion (iblock_caw_bio_done and the end of
  // iblock_do_compare_and_write)
  // ---------------------------------------------------------------

  /** How transport_complete_task is called, and the miscompare offset stashed in cmd->private. */
  datatype TaskEnd = TaskEnd(success: bool, miscompareAt: Option<nat>)

  /**
   * Any bio error fails the task; otherwise a match length below the bio
   * size is MISCOMPARE DURING VERIFY at that offset; otherwise GOOD.
   */
  function CawDecision(errCount: nat, retval: nat, bioSize: nat): (e: TaskEnd)
    ensures e.success <==> errCount == 0 && retval >= bioSize
    ensures e.miscompareAt.Some? <==> errCount == 0 && retval < bioSize
    ensures e.miscompareAt.Some? ==> e.miscompareAt.value == retval && !e.success
  {
    if errCount != 0 then TaskEnd(false, None)
    else if retval < bioSize then TaskEnd(false, Some(retval))
    else TaskEnd(true, None)
  }

  // ---------------------------------------------------------------
  // The pass-through request size (iblock_alloc_cmd_mem)
  // ---------------------------------------------------------------

  /** cmd->ps_opcode; PsNone is 0, a command that is not itself a pass-through request. */
  datatype PsOpcode = PsNone | PsWriteSame | PsCompareAndWrite | PsPrOffload | PsOther(code: nat)

  /** The completion handed to iblock_ps_alloc. */
  datatype PsEnd = Endio | Endpr

  /** The arguments of iblock_ps_alloc: buffer size, opcode and completion. */
  datatype PsAlloc = PsAlloc(size: nat, opcode: PsOpcode, end: PsEnd)

  /**
   * The request iblock_alloc_cmd_mem asks for: a buffer of data_length
   * bytes, raised to one 512-byte sector for WRITE SAME (an UNMAP turned
   * into WRITE SAME needs room for the sector it writes); a reservation
   * offloaded by a command with no opcode of its own becomes a
   * PR-offload request completed by iblock_ps_endpr, every other one
   * keeps its opcode and completes through iblock_ps_endio.
   */
  function CmdMemRequest(dataLength: u32, op: PsOpcode, offloadReservation: bool): (r: PsAlloc)
    ensures r.size >= dataLength
    ensures op == PsWriteSame ==> r.size >= Pow2(IBLOCK_LBA_SHIFT) && (dataLength >= 512 ==> r.size == dataLength)
    ensures op != PsWriteSame ==> r.size == dataLength
    ensures r.end == Endpr <==> offloadReservation && op == PsNone
    ensures r.opcode == (if r.end == Endpr then PsPrOffload else op)
  {
    var size := if op == PsWriteSame then Max(dataLength, 512) else dataLength;
    if offloadReservation && op == PsNone then PsAlloc(size, PsPrOffload, Endpr)
    else PsAlloc(size, op, Endio)
  }

  /**
   * iblock_alloc_cmd_mem: `allocErr` is iblock_ps_alloc's outcome (0, or
   * the negative errno IS_ERR carries). An error is returned and no
   * request is recorded; otherwise the request is recorded in
   * cmd->ps_iop and 0 is returned.
   */
  function AllocCmdMem(dataLength: u32, op: PsOpcode, offloadReservation: bool, allocErr: int): (r: (int, Option<PsAlloc>))
    requires allocErr <= 0
    ensures r.0 == allocErr
    ensures r.1.Some? <==> allocErr == 0
    ensures r.1.Some? ==> r.1.value == CmdMemRequest(dataLength, op, offloadReservation)
  {
    if allocErr < 0 then (allocErr, None)
    else (0, Some(CmdMemRequest(dataLength, op, offloadReservation)))
  }

  // ---------------------------------------------------------------
  // SYNCHRONIZE CACHE (iblock_emulate_sync_cache, iblock_end_io_flush)
  // ---------------------------------------------------------------

  /** What the flush path does, in order. */
  datatype SyncEvent =
    | CompleteSyncCache(good: bool)   // transport_complete_sync_cache(cmd, good)
    | SubmitFlush(carriesCmd: bool)   // submit_bio(WRITE_FLUSH), with bi_private = cmd or not

  /**
   * iblock_emulate_sync_cache: with the IMMED bit (0x02 of CDB byte 1)
   * GOOD is reported at once and the flush is submitted without the
   * command; without it the flush carries the command.
   */
  function EmulateSyncCache(cdb1: byte): (ev: seq<SyncEvent>)
    ensures |ev| == (if Bit(cdb1, 1) then 2 else 1)
    ensures ev[|ev| - 1].SubmitFlush?
    ensures ev[|ev| - 1].carriesCmd <==> !Bit(cdb1, 1)
    ensures |ev| == 2 ==> ev[0] == CompleteSyncCache(true)
  {
    if Bit(cdb1, 1) then [CompleteSyncCache(true), SubmitFlush(false)]
    else [SubmitFlush(true)]
  }

  /** iblock_end_io_flush: the command, when the bio carries one, completes good exactly when the flush succeeded. */
  function EndIoFlush(carriesCmd: bool, err: int): (ev: seq<SyncEvent>)
    ensures carriesCmd <==> ev == [CompleteSyncCache(err == 0)]
    ensures !carriesCmd <==> ev == []
  {
    if carriesCmd then [CompleteSyncCache(err == 0)] else []
  }

  /** The completions among the events. */
  function SyncCompletions(ev: seq<SyncEvent>): seq<bool>
  {
    if ev == [] then []
    else (if ev[0].CompleteSyncCache? then [ev[0].good] else []) + SyncCompletions(ev[1..])
  }

  /**
   * A SYNCHRONIZE CACHE is completed exactly once, whatever the flush
   * returns: GOOD when IMMED is set, otherwise GOOD exactly when the
   * flush succeeded.
   */
  lemma {:induction false} SyncCacheCompletesOnce(cdb1: byte, flushErr: int)
    ensures var ev := EmulateSyncCache(cdb1);
      SyncCompletions(ev + EndIoFlush(ev[|ev| - 1].carriesCmd, flushErr)) == [Bit(cdb1, 1) || flushErr == 0]
  {
    var ev := EmulateSyncCache(cdb1);
    var all := ev + EndIoFlush(ev[|ev| - 1].carriesCmd, flushErr);
    if Bit(cdb1, 1) {
      assert all == [CompleteSyncCache(true), SubmitFlush(false)];
      assert SyncCompletions(all[1..]) == [] by {
        assert all[1..][1..] == [];
      }
    } else {
      assert all == [SubmitFlush(true), CompleteSyncCache(flushErr == 0)];
      assert SyncCompletions(all[1..]) == [flushErr == 0] by {
        assert all[1..][1..] == [];
      }
    }
  }

  // ---------------------------------------------------------------
  // The pending counter (iblock_alloc_task, iblock_get_bio,
  // iblock_bio_done, iblock_caw_bio_done, the submitter's final step)
  // ---------------------------------------------------------------

  /**
   * struct iblock_req: `pending` starts at 1 for the submitter, each
   * allocated bio adds 1, each bio completion and the submitter's final
   * step take 1 away, and whoever takes it to 0 completes the task.
   * `inflight` and `held` are the references the count stands for.
   */
  class Request {
    var pending: int
    var errCount: nat
    var caw: bool
    var retval: nat
    var completion: Option<TaskEnd>
    var reason: Option<SenseReason>
    ghost var inflight: nat
    ghost var held: bool

    /**
     * The count is the live references; the task is completed exactly
     * when it has reached 0, and never successfully after a bio error.
     */
    ghost predicate Valid()
      reads this
    {
      pending == inflight + (if held then 1 else 0)
      && (completion.Some? <==> pending == 0)
      && (completion.Some? && errCount != 0 ==> !completion.value.success)
      && (reason.Some? ==> reason == Some(MiscompareDuringVerify) && caw)
    }

    /** iblock_alloc_task: a zeroed request whose pending count is 1, the submitter's. */
    constructor(caw: bool)
      ensures Valid() && held && inflight == 0
      ensures pending == 1 && errCount == 0 && this.caw == caw && retval == 0
      ensures completion == None && reason == None
    {
      pending := 1;
      errCount := 0;
      this.caw := caw;
      retval := 0;
      completion := None;
      reason := None;
      inflight := 0;
      held := true;
    }

    /** The outcome the task is completed with once the count reaches 0. */
    function Outcome(bioSize: nat): (e: TaskEnd)
      reads this
      ensures e.success ==> errCount == 0
    {
      if caw then CawDecision(errCount, retval, bioSize) else TaskEnd(errCount == 0, None)
    }

    /** atomic_dec_and_test, and the completion by whoever reaches 0. */
    method Release(bioSize: nat)
      requires pending > 0 && completion == None
      modifies this
      ensures pending == old(pending) - 1
      ensures completion == if pending == 0 then Some(old(Outcome(bioSize))) else None
      ensures reason == if pending == 0 && completion.value.miscompareAt.Some? then Some(MiscompareDuringVerify) else old(reason)
      ensures errCount == old(errCount) && caw == old(caw) && retval == old(retval)
      ensures inflight == old(inflight) && held == old(held)
    {
      pending := pending - 1;
      if pending == 0 {
        var e := Outcome(bioSize);
        completion := Some(e);
        if e.miscompareAt.Some? {
          reason := Some(MiscompareDuringVerify);
        }
      }
    }

    /** iblock_get_bio: a bio was allocated for the request. */
    method GetBio()
      requires Valid() && held
      modifies this
      ensures Valid() && held && inflight == old(inflight) + 1
      ensures pending == old(pending) + 1
      ensures errCount == old(errCount) && caw == old(caw) && retval == old(retval)
      ensures completion == old(completion) && reason == old(reason)
    {
      pending := pending + 1;
      inflight := inflight + 1;
    }

    /** The backend's compare_and_write_fn stores the matched length in cmd_retval. */
    method SetRetval(v: nat)
      requires Valid() && held
      modifies this
      ensures Valid() && retval == v
      ensures pending == old(pending) && errCount == old(errCount) && caw == old(caw)
      ensures completion == old(completion) && reason == old(reason)
      ensures inflight == old(inflight) && held == old(held)
    {
      retval := v;
    }

    /**
     * iblock_bio_done / iblock_caw_bio_done for one of the request's bios:
     * an error, or a bio not up to date, counts one error; then the
     * reference is dropped. The task had not been completed before, and is
     * completed now exactly when this was the last reference.
     */
    method BioDone(err: int, uptodate: bool, bioSize: nat)
      requires Valid() && inflight > 0
      modifies this
      ensures Valid() && inflight == old(inflight) - 1 && held == old(held)
      ensures old(completion) == None
      ensures errCount == old(errCount) + (if err != 0 || !uptodate then 1 else 0)
      ensures pending == old(pending) - 1
      ensures completion.Some? <==> inflight == 0 && !held
      ensures completion.Some? ==> completion.value == Outcome(bioSize)
    {
      var e := err;
      if !uptodate && e == 0 {
        e := -EIO;
      }
      if e != 0 {
        errCount := errCount + 1;
      }
      inflight := inflight - 1;
      Release(bioSize);
    }

    /**
     * The submitter's final atomic_dec_and_test in iblock_do_task,
     * iblock_do_write_same and iblock_do_compare_and_write.
     */
    method SubmitterDone(bioSize: nat)
      requires Valid() && held
      modifies this
      ensures Valid() && !held && inflight == old(inflight)
      ensures old(completion) == None
      ensures errCount == old(errCount) && pending == old(pending) - 1
      ensures completion.Some? <==> inflight == 0
      ensures completion.Some? ==> completion.value == Outcome(bioSize)
    {
      held := false;
      Release(bioSize);
    }
  }

  /**
   * Once every reference is dropped the task has been completed, and it
   * was completed successfully only if no bio failed.
   */
  lemma CompletesOnceDrained(req: Request)
    requires req.Valid() && req.inflight == 0 && !req.held
    ensures req.completion.Some?
    ensures req.errCount != 0 ==> !req.completion.value.success
  {
  }

  // ---------------------------------------------------------------
  // Pass-through completions (iblock_ps_endio, iblock_ps_endpr)
  // ---------------------------------------------------------------

  const SPC_ADD_SENSE_LEN_OFFSET: nat := 7
  const SAM_STAT_GOOD: byte := 0x00
  const SAM_STAT_CHECK_CONDITION: byte := 0x02
  const REQUEST_SENSE: byte := 0x03

  /**
   * The sense buffer after a miscompare at `offset`: a current error with
   * VALID set (F0h), ADDITIONAL SENSE LENGTH 10, sense key MISCOMPARE,
   * ASC 1Dh / ASCQ 0 (MISCOMPARE DURING VERIFY OPERATION) and the offset
   * big-endian in the INFORMATION field, bytes 3-6. Other bytes keep
   * their values.
   */
  function MiscompareSense(s: seq<byte>, offset: u32): (r: seq<byte>)
    requires |s| >= 18
    ensures |r| == |s|
  {
    var t := Splice(s, 3, BE(offset, 4));
    t[0 := 0xF0][SPC_ADD_SENSE_LEN_OFFSET := 10][SPC_SENSE_KEY_OFFSET := MISCOMPARE]
     [SPC_ASC_KEY_OFFSET := 0x1D][SPC_ASCQ_KEY_OFFSET := 0x00]
  }

  /** The miscompare sense decodes to the offset and the fixed fields. */
  lemma MiscompareSenseDecodes(s: seq<byte>, offset: u32)
    requires |s| >= 18
    ensures var r := MiscompareSense(s, offset);
      Bit(r[0], 7) && And(r[0], 0x7f) == 0x70
      && r[2] == MISCOMPARE && r[7] == 10 && r[12] == 0x1D && r[13] == 0
      && BEValue(r[3..7]) == offset
      && r[1] == s[1] && r[8..12] == s[8..12] && r[14..] == s[14..]
  {
    var r := MiscompareSense(s, offset);
    assert r[3..7] == BE(offset, 4);
    assert Pow256(4) == U32_LIMIT;
    BEExact(offset, 4);
    assert Pow2(7) == 128;
    assert And(0xF0, 0x7f) == 0x70 by {
      AndLowMask(0xF0, 7, 8);
      assert Pow2(7) - 1 == 0x7f;
    }
  }

  /**
   * The command state the pass-through completions touch: the sense
   * buffer and sense length, status, sense reason, the data length and
   * residual with the underflow flag, the task's ACTIVE and the command's
   * SENT bits, and how the task was ended.
   */
  class Command {
    const sense: array<byte>
    var senseLength: nat
    var scsiStatus: byte
    var reason: Option<SenseReason>
    var reservationConflict: bool
    var dataLength: nat
    var residualCount: nat
    var underflow: bool
    var taskActive: bool
    var sent: bool
    var taskStatusGood: bool
    var completion: Option<bool>
    var requestFailed: bool

    constructor(senseSize: nat, dataLength: nat)
      requires senseSize >= 18
      ensures sense.Length == senseSize && fresh(sense)
      ensures forall i :: 0 <= i < senseSize ==> sense[i] == 0
      ensures senseLength == 0 && scsiStatus == SAM_STAT_GOOD && reason == None && !reservationConflict
      ensures this.dataLength == dataLength && residualCount == 0 && !underflow
      ensures taskActive && sent && !taskStatusGood && completion == None && !requestFailed
    {
      sense := new byte[senseSize](_ => 0);
      senseLength := 0;
      scsiStatus := SAM_STAT_GOOD;
      reason := None;
      reservationConflict := false;
      this.dataLength := dataLength;
      residualCount := 0;
      underflow := false;
      taskActive := true;
      sent := true;
      taskStatusGood := false;
      completion := None;
      requestFailed := false;
    }

    /**
     * iblock_ps_endio: for COMPARE AND WRITE a non-negative result is the
     * matched length; one below the data length records the miscompare
     * sense with CHECK CONDITION, and either way the task completes
     * successfully at the transport level. Any other request completes
     * successfully exactly when its result is 0.
     */
    method PsEndio(compareAndWrite: bool, error: int)
      requires sense.Length >= 18 && completion == None
      modifies this, sense
      ensures var miscompare := compareAndWrite && 0 <= error < dataLength;
        (miscompare ==>
           sense[..] == MiscompareSense(old(sense[..]), error % U32_LIMIT)
           && reason == Some(MiscompareDuringVerify) && scsiStatus == SAM_STAT_CHECK_CONDITION
           && senseLength == 18)
        && (!miscompare ==>
           sense[..] == old(sense[..]) && reason == old(reason) && scsiStatus == old(scsiStatus)
           && senseLength == old(senseLength))
      ensures completion == Some(if compareAndWrite && error >= 0 then true else error == 0)
      ensures dataLength == old(dataLength) && residualCount == old(residualCount) && underflow == old(underflow)
      ensures taskActive == old(taskActive) && sent == old(sent) && taskStatusGood == old(taskStatusGood)
      ensures reservationConflict == old(reservationConflict) && requestFailed == old(requestFailed)
    {
      var e := error;
      if compareAndWrite && e >= 0 {
        if e < dataLength {
          reason := Some(MiscompareDuringVerify);
          scsiStatus := SAM_STAT_CHECK_CONDITION;
          senseLength := 18;
          WriteMiscompareSense(sense, e % U32_LIMIT);
        }
        e := 0;
      }
      completion := Some(e == 0);
    }

    /**
     * iblock_ps_endpr: any error is a RESERVATION CONFLICT, completed at
     * once. Otherwise a REQUEST SENSE copies the returned sense (or builds
     * NO SENSE) into the data buffer and counts 18 bytes; any other command
     * runs execute_task, whose result `executeRc` is (0 when it has none).
     * A negative count clears ACTIVE and SENT and fails the request; a
     * positive count below the data length is an underflow whose residual
     * is added to (or, on the first underflow, sets) the residual count,
     * and the data length shrinks to the count; the task then completes
     * with GOOD. A count of 0 ends nothing.
     */
    method PsEndpr(error: int, requestSense: bool, executeRc: int, data: array<byte>)
      requires sense.Length >= 18 && data.Length >= 18 && data != sense && completion == None
      modifies this, data
      ensures error != 0 ==>
        reservationConflict && reason == Some(ReservationConflict) && completion == Some(true)
        && data[..] == old(data[..]) && scsiStatus == old(scsiStatus)
        && dataLength == old(dataLength) && residualCount == old(residualCount) && underflow == old(underflow)
        && taskActive == old(taskActive) && sent == old(sent) && requestFailed == old(requestFailed)
      ensures error == 0 && requestSense ==>
        data[..] == (if old(scsiStatus) != 0 then Splice(old(data[..]), 0, old(sense[..18]))
                     else old(data[..])[0 := 0x70][SPC_SENSE_KEY_OFFSET := NO_SENSE]
                                       [SPC_ASC_KEY_OFFSET := 0x00][7 := 0x0A])
        && scsiStatus == SAM_STAT_GOOD
      ensures error == 0 && !requestSense ==> data[..] == old(data[..]) && scsiStatus == old(scsiStatus)
      ensures error == 0 ==>
        var n := if requestSense then 18 else executeRc;
        reservationConflict == old(reservationConflict) && reason == old(reason)
        && (n < 0 ==> !taskActive && !sent && requestFailed && completion == None)
        && (n > 0 ==> taskStatusGood && completion == Some(true) && taskActive == old(taskActive)
                      && sent == old(sent) && requestFailed == old(requestFailed) && dataLength == Min(old(dataLength), n))
        && (0 < n < old(dataLength) ==>
              underflow && residualCount == (if old(underflow) then old(residualCount) else 0) + (old(dataLength) - n))
        && (n <= 0 || n >= old(dataLength) ==> underflow == old(underflow) && residualCount == old(residualCount))
        && (n <= 0 ==> dataLength == old(dataLength))
        && (n == 0 ==> completion == None && requestFailed == old(requestFailed) && taskActive == old(taskActive) && sent == old(sent))
      ensures senseLength == old(senseLength) && sense[..] == old(sense[..])
      ensures error != 0 || (if requestSense then 18 else executeRc) <= 0 ==> taskStatusGood == old(taskStatusGood)
    {
      if error != 0 {
        reservationConflict := true;
        reason := Some(ReservationConflict);
        completion := Some(true);
        return;
      }
      var n: int;
      if requestSense {
        ReturnSense(data);
        n := 18;
      } else {
        n := executeRc;
      }
      EndWithCount(n);
    }

    /**
     * The REQUEST SENSE reply: the saved sense when the status was not
     * GOOD (which then becomes GOOD), else a fixed-format NO SENSE header.
     */
    method ReturnSense(data: array<byte>)
      requires sense.Length >= 18 && data.Length >= 18 && data != sense
      modifies this`scsiStatus, data
      ensures data[..] == (if old(scsiStatus) != 0 then Splice(old(data[..]), 0, old(sense[..18]))
                           else old(data[..])[0 := 0x70][SPC_SENSE_KEY_OFFSET := NO_SENSE]
                                             [SPC_ASC_KEY_OFFSET := 0x00][7 := 0x0A])
      ensures scsiStatus == SAM_STAT_GOOD && sense[..] == old(sense[..])
    {
      if scsiStatus != 0 {
        PutBytes(data, 0, sense[..18]);
        scsiStatus := SAM_STAT_GOOD;
      } else {
        data[0] := 0x70;
        data[SPC_SENSE_KEY_OFFSET] := NO_SENSE;
        data[SPC_ASC_KEY_OFFSET] := 0x00;
        data[7] := 0x0A;
      }
    }

    /**
     * The end of iblock_ps_endpr for a transferred count n: a negative
     * count fails the request, a positive one completes it with GOOD after
     * recording any underflow, and 0 ends nothing.
     */
    method EndWithCount(n: int)
      requires completion == None
      modifies this`taskActive, this`sent, this`requestFailed, this`dataLength, this`underflow,
               this`residualCount, this`taskStatusGood, this`completion
      ensures n < 0 ==> !taskActive && !sent && requestFailed && completion == None
      ensures n > 0 ==> taskStatusGood && completion == Some(true) && taskActive == old(taskActive)
                        && sent == old(sent) && requestFailed == old(requestFailed) && dataLength == Min(old(dataLength), n)
      ensures 0 < n < old(dataLength) ==>
        underflow && residualCount == (if old(underflow) then old(residualCount) else 0) + (old(dataLength) - n)
      ensures n <= 0 || n >= old(dataLength) ==> underflow == old(underflow) && residualCount == old(residualCount)
      ensures n <= 0 ==> dataLength == old(dataLength) && taskStatusGood == old(taskStatusGood)
      ensures n == 0 ==> completion == None && requestFailed == old(requestFailed) && taskActive == old(taskActive) && sent == old(sent)
    {
      if n < 0 {
        taskActive := false;
        sent := false;
        requestFailed := true;
      } else if n > 0 {
        if n < dataLength {
          if underflow {
            residualCount := residualCount + (dataLength - n);
          } else {
            underflow := true;
            residualCount := dataLength - n;
          }
          dataLength := n;
        }
        taskStatusGood := true;
        completion := Some(true);
      }
    }
  }

  /** The sense-buffer stores of iblock_ps_endio's miscompare branch. */
  method WriteMiscompareSense(buf: array<byte>, offset: u32)
    requires buf.Length >= 18
    modifies buf
    ensures buf[..] == MiscompareSense(old(buf[..]), offset)
  {
    buf[0] := 0xF0;
    buf[SPC_ADD_SENSE_LEN_OFFSET] := 10;
    buf[SPC_SENSE_KEY_OFFSET] := MISCOMPARE;
    buf[SPC_ASC_KEY_OFFSET] := 0x1D;
    buf[SPC_ASCQ_KEY_OFFSET] := 0x00;
    PutBE(buf, 3, offset, 4);
  }
}
