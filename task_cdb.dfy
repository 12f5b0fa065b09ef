/*
 * target_get_task_cdb: the CDB a backend task sends is the initiator's
 * CDB with the LOGICAL BLOCK ADDRESS and TRANSFER LENGTH fields rewritten
 * to cover only the task's sectors. Only data CDBs (SCF_SCSI_DATA_SG_IO_CDB)
 * are rewritten; the field positions and widths depend on the CDB length.
 *
 * The CDB length (scsi_command_size) is an input: that table is not part of
 * this model. A data CDB of any other length is a BUG() in the source,
 * which callers must not reach; here it is a precondition.
 */
module TaskCdb {
  import opened Common

  /** The CDB lengths whose data fields target_get_task_cdb knows. */
  predicate DataCdbLength(len: nat)
  {
    len == 6 || len == 10 || len == 12 || len == 16 || len == 32
  }

  /** Offset of the LOGICAL BLOCK ADDRESS field (for 6 bytes, the 21 bits in bytes 1-3). */
  function LbaOffset(len: nat): nat
  {
    if len == 6 then 1 else if len == 32 then 12 else 2
  }

  /** Width in bytes of the LOGICAL BLOCK ADDRESS field. */
  function LbaBytes(len: nat): nat
  {
    if len == 6 then 3 else if len == 16 || len == 32 then 8 else 4
  }

  /** The LBA values the field can hold: 2^21, 2^32 or 2^64. */
  function LbaModulus(len: nat): (m: nat)
    ensures m > 0
  {
    if len == 6 then 0x20_0000 else if len == 16 || len == 32 then U64_LIMIT else U32_LIMIT
  }

  /** Offset of the TRANSFER LENGTH field. */
  function CountOffset(len: nat): nat
  {
    if len == 6 then 4 else if len == 10 then 7 else if len == 12 then 6
    else if len == 16 then 10 else 28
  }

  /** Width in bytes of the TRANSFER LENGTH field: 8, 16 or 32 bits. */
  function CountBytes(len: nat): nat
  {
    if len == 6 then 1 else if len == 10 then 2 else 4
  }

  /**
   * The rewritten CDB: for a data CDB the LBA field holds the task's LBA
   * narrowed to the field and the transfer-length field the task's sector
   * count narrowed to its field; any other CDB is the initiator's CDB.
   */
  function TaskCdb(c: seq<byte>, dataCdb: bool, lba: u64, sectors: u32): (r: seq<byte>)
    requires dataCdb ==> DataCdbLength(|c|)
    ensures |r| == |c|
  {
    if !dataCdb then c
    else
      var len := |c|;
      Splice(Splice(c, LbaOffset(len), BE(lba % LbaModulus(len), LbaBytes(len))),
             CountOffset(len), BE(sectors, CountBytes(len)))
  }

  /**
   * The rewritten fields decode to the task's LBA and sector count, each
   * truncated to its field width (21-bit LBA and 8-bit count in a 6-byte
   * CDB, whose byte 1 keeps none of its upper three bits); every other byte,
   * and every byte of a non-data CDB, is the initiator's.
   */
  lemma TaskCdbFields(c: seq<byte>, dataCdb: bool, lba: u64, sectors: u32)
    requires dataCdb ==> DataCdbLength(|c|)
    ensures !dataCdb ==> TaskCdb(c, dataCdb, lba, sectors) == c
    ensures dataCdb ==>
      var r := TaskCdb(c, dataCdb, lba, sectors);
      var len := |c|;
      var lo, co := LbaOffset(len), CountOffset(len);
      var lw, cw := LbaBytes(len), CountBytes(len);
      BEValue(r[lo..lo + lw]) == lba % LbaModulus(len)
      && BEValue(r[co..co + cw]) == sectors % Pow256(cw)
      && (forall i :: 0 <= i < len && !(lo <= i < lo + lw) && !(co <= i < co + cw) ==> r[i] == c[i])
  {
    if dataCdb {
      var len := |c|;
      var lo, co := LbaOffset(len), CountOffset(len);
      var lw, cw := LbaBytes(len), CountBytes(len);
      var x := lba % LbaModulus(len);
      var r := TaskCdb(c, dataCdb, lba, sectors);
      var s1 := Splice(c, lo, BE(x, lw));
      assert r == Splice(s1, co, BE(sectors, cw));
      assert r[lo..lo + lw] == BE(x, lw);
      assert r[co..co + cw] == BE(sectors, cw);
      assert LbaModulus(len) <= Pow256(lw) by {
        assert Pow256(3) == 0x100_0000;
        assert Pow256(4) == U32_LIMIT;
        assert Pow256(8) == U64_LIMIT;
      }
      BEExact(x, lw);
      BERoundTrip(sectors, cw);
    }
  }

  /** The three bytes of the 6-byte CDB's 21-bit LBA, as the source computes them. */
  lemma Lba21Bytes(lba: u64)
    ensures BE(lba % 0x20_0000, 3) == [(lba / 0x1_0000) % 0x20, (lba / 0x100) % 0x100, lba % 0x100]
  {
    var x := lba % 0x20_0000;
    assert Pow256(2) == 0x1_0000 && Pow256(1) == 0x100 && Pow256(0) == 1;
    BEByte(x, 3, 0);
    BEByte(x, 3, 1);
    BEByte(x, 3, 2);
    Lba21High(lba);
    Lba21Middle(lba);
    Lba21Low(lba);
  }

  /** Bits 16-20 of the LBA: (lba >> 16) & 0x1f. */
  lemma Lba21High(lba: nat)
    ensures ((lba % 0x20_0000) / 0x1_0000) % 0x100 == (lba / 0x1_0000) % 0x20
  {
    var q, x := lba / 0x20_0000, lba % 0x20_0000;
    DivModUnique(lba, 0x1_0000, 0x20 * q + x / 0x1_0000, x % 0x1_0000);
    DivModUnique(lba / 0x1_0000, 0x20, q, x / 0x1_0000);
  }

  /** Bits 8-15 of the LBA: (lba >> 8) & 0xff. */
  lemma Lba21Middle(lba: nat)
    ensures ((lba % 0x20_0000) / 0x100) % 0x100 == (lba / 0x100) % 0x100
  {
    var q, x := lba / 0x20_0000, lba % 0x20_0000;
    DivModUnique(lba, 0x100, 0x2000 * q + x / 0x100, x % 0x100);
    var y := x / 0x100;
    DivModUnique(lba / 0x100, 0x100, 0x20 * q + y / 0x100, y % 0x100);
  }

  /** Bits 0-7 of the LBA: lba & 0xff. */
  lemma Lba21Low(lba: nat)
    ensures (lba % 0x20_0000) % 0x100 == lba % 0x100
  {
    var q, x := lba / 0x20_0000, lba % 0x20_0000;
    DivModUnique(lba, 0x100, 0x2000 * q + x / 0x100, x % 0x100);
  }

  /** Writing into the copied prefix is writing into the copy itself. */
  lemma SpliceInside(o: seq<byte>, t: seq<byte>, off: nat, d: seq<byte>)
    requires |t| <= |o| && off + |d| <= |t|
    ensures Splice(Splice(o, 0, t), off, d) == Splice(o, 0, Splice(t, off, d))
  {
  }

  /** The 6-byte case: three shifted and masked LBA bytes, then the low byte of the count. */
  method PutCdb6Fields(cdb: array<byte>, lba: u64, sectors: u32)
    requires 6 <= cdb.Length
    modifies cdb
    ensures cdb[..] == Splice(Splice(old(cdb[..]), 1, BE(lba % 0x20_0000, 3)), 4, BE(sectors, 1))
  {
    Lba21Bytes(lba);
    cdb[1] := (lba / 0x1_0000) % 0x20;
    cdb[2] := (lba / 0x100) % 0x100;
    cdb[3] := lba % 0x100;
    cdb[4] := sectors % 0x100;
    assert BE(sectors, 1) == [sectors % 0x100];
  }

  /** The switch on the CDB length: the two field stores of a data CDB. */
  method PutDataFields(cdb: array<byte>, len: nat, lba: u64, sectors: u32)
    requires DataCdbLength(len) && len <= cdb.Length
    modifies cdb
    ensures cdb[..] == Splice(Splice(old(cdb[..]), LbaOffset(len), BE(lba % LbaModulus(len), LbaBytes(len))),
                              CountOffset(len), BE(sectors, CountBytes(len)))
  {
    if len == 6 {
      PutCdb6Fields(cdb, lba, sectors);
    } else {
      // 10 and 12: be32 LBA at 2; 16: be64 LBA at 2; 32: be64 LBA at 12;
      // then the be16 (10) or be32 (12, 16, 32) transfer length.
      PutBE(cdb, LbaOffset(len), lba % LbaModulus(len), LbaBytes(len));
      PutBE(cdb, CountOffset(len), sectors, CountBytes(len));
    }
  }

  /**
   * target_get_task_cdb: copies the first cdbLen bytes of the command's CDB
   * into `cdb`, then, for a data CDB, stores the task's LBA and sector count.
   */
  method GetTaskCdb(taskCdb: seq<byte>, cdbLen: nat, dataCdb: bool, lba: u64, sectors: u32, cdb: array<byte>)
    requires cdbLen <= |taskCdb| && cdbLen <= cdb.Length
    requires dataCdb ==> DataCdbLength(cdbLen)
    modifies cdb
    ensures cdb[..] == Splice(old(cdb[..]), 0, TaskCdb(taskCdb[..cdbLen], dataCdb, lba, sectors))
  {
    var t := taskCdb[..cdbLen];
    PutBytes(cdb, 0, t);
    if dataCdb {
      ghost var copied := cdb[..];
      PutDataFields(cdb, cdbLen, lba, sectors);
      ghost var a := BE(lba % LbaModulus(cdbLen), LbaBytes(cdbLen));
      ghost var b := BE(sectors, CountBytes(cdbLen));
      SpliceInside(old(cdb[..]), t, LbaOffset(cdbLen), a);
      SpliceInside(old(cdb[..]), Splice(t, LbaOffset(cdbLen), a), CountOffset(cdbLen), b);
    }
  }
}
