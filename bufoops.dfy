/*
 * bufoops: a RAM oops/panic logger. One vmalloc'd buffer, mapped read-only
 * by user space, holds a header page and then num_rec records of rec_size
 * bytes each. Every oops or panic dump clears the record at `pos`, writes a
 * timestamp line and the tails of the two kernel-log pieces into it, and
 * moves `pos` to the next record, whose first byte it clears.
 *
 * The module's globals are the fields of one object. The timestamp line
 * (do_gettimeofday + sprintf) is an input, as are the outcome of vmalloc
 * and the width of unsigned long; the page size is 4096 bytes.
 */
module Bufoops {
  import opened Common

  const DEFAULT_REC_SIZE: nat := 0x4_0000  // 1 << 18
  const DEFAULT_NUM_REC: nat := 8
  const PAGE_SHIFT: nat := 12
  const PAGE_SIZE: nat := 4096

  /** ULONG_MAX of a 32-bit and of a 64-bit kernel. */
  const ULONG_MAX_32: nat := 0xffff_ffff
  const ULONG_MAX_64: nat := 0xffff_ffff_ffff_ffff

  /** C's `int` (pos) is 32 bits wide on both. */
  const INT_LIMIT: nat := 0x8000_0000

  /** enum kmsg_dump_reason. */
  datatype DumpReason = Panic | Oops | Emerg | Restart | Halt | Poweroff

  // ---------------------------------------------------------------
  // Sizing (bufoops_init, bufoops_init_header)
  // ---------------------------------------------------------------

  predicate IsPow2(x: nat)
  {
    x == 1 || (x > 1 && x % 2 == 0 && IsPow2(x / 2))
  }

  /** rounddown_pow_of_two: the largest power of two not above n. */
  function RoundDownPow2(n: nat): (p: nat)
    requires n >= 1
    ensures IsPow2(p) && p <= n < 2 * p
  {
    if n == 1 then 1 else 2 * RoundDownPow2(n / 2)
  }

  /** A module parameter as bufoops_init takes it: 0 means the default, anything else is rounded down to a power of two. */
  function Param(v: nat, dflt: nat): nat
    requires dflt >= 1
  {
    if v != 0 then RoundDownPow2(v) else dflt
  }

  /** The parameters in use are powers of two, the given ones rounded down. */
  lemma ParamPow2(v: nat, dflt: nat)
    requires IsPow2(dflt)
    ensures IsPow2(Param(v, dflt))
    ensures v == 0 ==> Param(v, dflt) == dflt
    ensures v != 0 ==> Param(v, dflt) <= v < 2 * Param(v, dflt)
  {
  }

  lemma DefaultsPow2()
    ensures IsPow2(DEFAULT_REC_SIZE) && IsPow2(DEFAULT_NUM_REC)
  {
    assert IsPow2(4) && IsPow2(8);
    assert IsPow2(0x400) && IsPow2(0x1_0000);
  }

  /**
   * The first overflow guard, num_rec > ULONG_MAX / rec_size, holds
   * exactly when the product itself would exceed ULONG_MAX.
   */
  lemma GuardExact(n: nat, r: nat, m: nat)
    requires r > 0
    ensures n > m / r <==> n * r > m
  {
    DivBracketFloor(m, r);
    if n > m / r {
      MulMono(m / r + 1, n, r);
    } else {
      MulMono(n, m / r, r);
    }
  }

  lemma DivBracketFloor(m: nat, r: nat)
    requires r > 0
    ensures (m / r) * r <= m < (m / r + 1) * r
  {
  }

  lemma MulMono(a: nat, b: nat, r: nat)
    requires a <= b
    ensures a * r <= b * r
  {
  }

  /** struct bufoops_header as a little-endian CPU stores it: hdr_size, rec_size and num_rec as u64s. */
  function Header(recSize: nat, numRec: nat): (h: seq<byte>)
    ensures |h| == 24
  {
    LE(PAGE_SIZE, 8) + LE(recSize, 8) + LE(numRec, 8)
  }

  /** A reader of the header finds the page size, the record size and the record count. */
  lemma HeaderDecodes(recSize: nat, numRec: nat)
    requires recSize < U64_LIMIT && numRec < U64_LIMIT
    ensures var h := Header(recSize, numRec);
      LEValue(h[..8]) == PAGE_SIZE && LEValue(h[8..16]) == recSize && LEValue(h[16..24]) == numRec
  {
    var h := Header(recSize, numRec);
    assert Pow256(8) == U64_LIMIT by {
      assert Pow256(2) == 0x1_0000;
      assert Pow256(4) == 0x1_0000_0000 by { assert Pow256(4) == 256 * 256 * Pow256(2); }
      assert Pow256(8) == 256 * 256 * 256 * 256 * Pow256(4);
    }
    assert h[..8] == LE(PAGE_SIZE, 8);
    assert h[8..16] == LE(recSize, 8);
    assert h[16..24] == LE(numRec, 8);
    LEExact(PAGE_SIZE, 8);
    LEExact(recSize, 8);
    LEExact(numRec, 8);
  }

  // ---------------------------------------------------------------
  // The record slot (bufoops_do_dump)
  // ---------------------------------------------------------------

  /**
   * l2_cpy and l1_cpy: after the `off` bytes of the timestamp line, room
   * for rec_size - off - 1 bytes is left (the last byte stays NUL), filled
   * from the end of s2 first and then from the end of s1.
   */
  function CopyLengths(recSize: nat, off: nat, l1: nat, l2: nat): (r: (nat, nat))
    requires off < recSize
    ensures r.0 <= l1 && r.1 <= l2
    ensures off + r.0 + r.1 <= recSize - 1
    ensures r.0 + r.1 == Min(l1 + l2, recSize - off - 1)
    ensures r.0 > 0 ==> r.1 == l2
  {
    var l2Cpy := Min(l2, recSize - off - 1);
    var l1Cpy := Min(l1, recSize - off - l2Cpy - 1);
    (l1Cpy, l2Cpy)
  }

  /** The last n bytes of s. */
  function Tail(s: seq<byte>, n: nat): seq<byte>
    requires n <= |s|
  {
    s[|s| - n..]
  }

  /** A dump's record: the timestamp line, the copied tails of s1 and s2, zeros to the end. */
  function Record(recSize: nat, stamp: seq<byte>, s1: seq<byte>, s2: seq<byte>): (rec: seq<byte>)
    requires |stamp| < recSize
    ensures |rec| == recSize
  {
    var (l1Cpy, l2Cpy) := CopyLengths(recSize, |stamp|, |s1|, |s2|);
    stamp + Tail(s1, l1Cpy) + Tail(s2, l2Cpy) + Zeros(recSize - |stamp| - l1Cpy - l2Cpy)
  }

  lemma RecordUnfold(recSize: nat, stamp: seq<byte>, s1: seq<byte>, s2: seq<byte>, l1: nat, l2: nat)
    requires |stamp| < recSize && (l1, l2) == CopyLengths(recSize, |stamp|, |s1|, |s2|)
    ensures Record(recSize, stamp, s1, s2) == stamp + Tail(s1, l1) + Tail(s2, l2) + Zeros(recSize - |stamp| - l1 - l2)
  {
  }

  /**
   * The record keeps the end of the log: after the timestamp line it holds
   * the last n bytes of s1 followed by s2, n being all of them or as many
   * as fit before the record's last byte, and then only NULs, so the
   * record always ends in a NUL.
   */
  lemma RecordKeepsTail(recSize: nat, stamp: seq<byte>, s1: seq<byte>, s2: seq<byte>)
    requires |stamp| < recSize
    ensures var rec := Record(recSize, stamp, s1, s2);
      var n := Min(|s1| + |s2|, recSize - |stamp| - 1);
      rec[..|stamp|] == stamp
      && rec[|stamp|..|stamp| + n] == Tail(s1 + s2, n)
      && (forall i :: |stamp| + n <= i < recSize ==> rec[i] == 0)
      && rec[recSize - 1] == 0
  {
    var (l1Cpy, l2Cpy) := CopyLengths(recSize, |stamp|, |s1|, |s2|);
    var n := l1Cpy + l2Cpy;
    var rec := Record(recSize, stamp, s1, s2);
    var t := Tail(s1, l1Cpy) + Tail(s2, l2Cpy);
    var z := Zeros(recSize - |stamp| - n);
    RecordUnfold(recSize, stamp, s1, s2, l1Cpy, l2Cpy);
    assert rec == stamp + t + z;
    assert rec[..|stamp|] == stamp;
    assert rec[|stamp|..|stamp| + n] == t;
    assert rec[|stamp| + n..] == z;
    if l1Cpy > 0 {
      assert t == (s1 + s2)[|s1| - l1Cpy..];
    } else {
      assert t == Tail(s2, l2Cpy) == (s1 + s2)[|s1| + |s2| - l2Cpy..];
    }
  }

  /**
   * The next record position, with `pos` wide enough to hold any offset in
   * the dump area: one record further on, and back to the first record
   * after the last.
   */
  function NextPos(pos: nat, recSize: nat, dumpBufSize: nat): nat
  {
    if pos + recSize >= dumpBufSize then 0 else pos + recSize
  }

  /**
   * The record positions cycle through the slots: from record k the next
   * position is record (k + 1) mod num_rec.
   */
  lemma NextPosCycles(k: nat, recSize: nat, numRec: nat)
    requires k < numRec && recSize > 0
    ensures NextPos(k * recSize, recSize, numRec * recSize) == ((k + 1) % numRec) * recSize
  {
    var pos, next := k * recSize, (k + 1) * recSize;
    MulSucc(k, recSize);
    assert pos + recSize == next;
    if k + 1 < numRec {
      MulStrict(k + 1, numRec, recSize);
      DivModUnique(k + 1, numRec, 0, k + 1);
    } else {
      assert next == numRec * recSize;
      DivModUnique(k + 1, numRec, 1, 0);
    }
  }

  lemma MulStrict(a: nat, b: nat, r: nat)
    requires a < b && r > 0
    ensures a * r < b * r
  {
  }

  lemma MulSucc(k: nat, r: nat)
    ensures (k + 1) * r == k * r + r
  {
  }

  /** Record k of the area lies inside it. */
  lemma SlotInside(k: nat, recSize: nat, numRec: nat)
    requires k < numRec
    ensures k * recSize + recSize <= numRec * recSize
  {
    MulSucc(k, recSize);
    MulMono(k + 1, numRec, recSize);
  }

  /** A product of powers of two is one. */
  lemma {:induction false} Pow2Mul(a: nat, b: nat)
    requires IsPow2(a) && IsPow2(b)
    ensures IsPow2(a * b)
    decreases a
  {
    if a > 1 {
      var h := a / 2;
      Pow2Mul(h, b);
      Pow2Positive(h);
      Pow2Positive(b);
      var p := h * b;
      assert a * b == 2 * p by {
        assert a == 2 * h;
      }
      assert (a * b) / 2 == p && (a * b) % 2 == 0 && a * b > 1;
    }
  }

  /** A power of two below 2 * b, b a power of two, is at most b. */
  lemma {:induction false} Pow2Below(x: nat, b: nat)
    requires IsPow2(x) && IsPow2(b) && x < 2 * b
    ensures x <= b
    decreases b
  {
    if x > 1 && b > 1 {
      Pow2Below(x / 2, b / 2);
    }
  }

  /** While pos + rec_size fits in an int, the step as written is NextPos. */
  lemma NextPosAsWrittenNoWrap(pos: nat, recSize: nat, dumpBufSize: nat, ulongMax: nat)
    requires pos + recSize < INT_LIMIT
    ensures NextPosAsWritten(pos, recSize, dumpBufSize, ulongMax) == NextPos(pos, recSize, dumpBufSize)
  {
    assert (pos + recSize) % (2 * INT_LIMIT) == pos + recSize;
  }

  /**
   * Once pos + rec_size passes INT_MAX (but not 2^32) the stored int is
   * negative, and converted to an unsigned long it is at least any dump
   * area bufoops_init accepts: the step goes to 0.
   */
  lemma NextPosAsWrittenWrap(pos: nat, recSize: nat, dumpBufSize: nat, ulongMax: nat)
    requires pos < INT_LIMIT <= pos + recSize < 2 * INT_LIMIT
    requires (ulongMax == ULONG_MAX_32 && dumpBufSize <= INT_LIMIT)
          || (ulongMax == ULONG_MAX_64 && dumpBufSize < INT_LIMIT * U32_LIMIT)
    ensures NextPosAsWritten(pos, recSize, dumpBufSize, ulongMax) == 0
  {
    assert (pos + recSize) % (2 * INT_LIMIT) == pos + recSize;
  }

  /**
   * pos += rec_size on the int pos, then the reset to 0 once pos, compared
   * as an unsigned long, reaches dump_buf_size.
   */
  method StepPos(pos: nat, recSize: nat, dumpBufSize: nat, ulongMax: nat) returns (next: int)
    requires pos < INT_LIMIT && recSize < INT_LIMIT * 2
    ensures next == NextPosAsWritten(pos, recSize, dumpBufSize, ulongMax)
  {
    var sum := (pos + recSize) % (2 * INT_LIMIT);  // the addition wraps in 32 bits
    next := if sum >= INT_LIMIT then sum - 2 * INT_LIMIT else sum;
    var asUlong := if next < 0 then next + ulongMax + 1 else next;
    if asUlong >= dumpBufSize {
      next := 0;
    }
  }

  /** The record Advance moves to is a record of the area and its position fits in an int. */
  lemma AdvanceStaysValid(k: nat, recSize: u32, numRec: u32, ulongMax: nat)
    requires IsPow2(recSize) && IsPow2(numRec) && k < numRec && k * recSize < INT_LIMIT
    requires ulongMax == ULONG_MAX_32 || ulongMax == ULONG_MAX_64
    requires numRec * recSize <= ulongMax - PAGE_SIZE
    ensures var n := if k * recSize + recSize < INT_LIMIT then (k + 1) % numRec else 0;
      n < numRec && NextPosAsWritten(k * recSize, recSize, numRec * recSize, ulongMax) == n * recSize
      && n * recSize + recSize <= numRec * recSize && n * recSize < INT_LIMIT
  {
    var n := if k * recSize + recSize < INT_LIMIT then (k + 1) % numRec else 0;
    AdvanceAsWritten(k, recSize, numRec, ulongMax);
    SlotInside(n, recSize, numRec);
    assert NextPosAsWritten(k * recSize, recSize, numRec * recSize, ulongMax) < INT_LIMIT;
  }

  /** rounddown_pow_of_two of an unsigned int is at most 2^31. */
  lemma Pow2U32(x: u32)
    requires IsPow2(x)
    ensures x <= INT_LIMIT
  {
    assert IsPow2(0x8000_0000) by {
      assert IsPow2(0x8000) && IsPow2(0x1_0000);
    }
    Pow2Below(x, INT_LIMIT);
  }

  /**
   * Advancing from record k as written: to record k + 1 (or back to 0
   * after the last) while the sum fits in an int, and to record 0 once it
   * passes INT_MAX.
   */
  lemma AdvanceAsWritten(k: nat, recSize: u32, numRec: u32, ulongMax: nat)
    requires IsPow2(recSize) && IsPow2(numRec) && k < numRec && k * recSize < INT_LIMIT
    requires ulongMax == ULONG_MAX_32 || ulongMax == ULONG_MAX_64
    requires numRec * recSize <= ulongMax - PAGE_SIZE
    ensures NextPosAsWritten(k * recSize, recSize, numRec * recSize, ulongMax)
      == if k * recSize + recSize < INT_LIMIT then ((k + 1) % numRec) * recSize else 0
  {
    var pos, size := k * recSize, numRec * recSize;
    Pow2U32(recSize);
    if pos + recSize < INT_LIMIT {
      NextPosCycles(k, recSize, numRec);
      NextPosAsWrittenNoWrap(pos, recSize, size, ulongMax);
    } else {
      if ulongMax == ULONG_MAX_32 {
        Pow2Mul(numRec, recSize);
        Pow2U32(size);
      } else {
        MulMono(numRec, U32_LIMIT, recSize);
        assert size <= U32_LIMIT * INT_LIMIT;
      }
      NextPosAsWrittenWrap(pos, recSize, size, ulongMax);
    }
  }

  /**
   * As written: `pos` is a C int, so pos += rec_size wraps to a negative
   * value once it passes INT_MAX, and in the comparison with the unsigned
   * long dump_buf_size a negative pos converts to a huge value, sending the
   * ring back to the first record.
   */
  function NextPosAsWritten(pos: nat, recSize: nat, dumpBufSize: nat, ulongMax: nat): int
    requires pos < INT_LIMIT
  {
    var sum := (pos + recSize) % (2 * INT_LIMIT);
    var p: int := if sum >= INT_LIMIT then sum - 2 * INT_LIMIT else sum;
    var asUlong := if p < 0 then p + ulongMax + 1 else p;
    if asUlong >= dumpBufSize then 0 else p
  }

  /** While the dump area fits in an int both agree. */
  lemma NextPosAsWrittenAgrees(pos: nat, recSize: nat, dumpBufSize: nat, ulongMax: nat)
    requires pos < dumpBufSize <= INT_LIMIT && recSize <= dumpBufSize && ulongMax >= ULONG_MAX_32
    ensures NextPosAsWritten(pos, recSize, dumpBufSize, ulongMax) == NextPos(pos, recSize, dumpBufSize)
  {
    assert (pos + recSize) % (2 * INT_LIMIT) == pos + recSize;
  }

  /**
   * With rec_size 2^31 and num_rec 2 on a 64-bit kernel, the dump after the
   * first goes back to record 0: the second record is never used.
   */
  lemma NextPosAsWrittenSkipsRecords()
    ensures NextPosAsWritten(0, 0x8000_0000, 2 * 0x8000_0000, ULONG_MAX_64) == 0
    ensures NextPos(0, 0x8000_0000, 2 * 0x8000_0000) == 0x8000_0000
  {
  }

  // ---------------------------------------------------------------
  // The mmap bound (bufoops_mmap)
  // ---------------------------------------------------------------

  /**
   * As written: (vm_pgoff << PAGE_SHIFT) + (vm_end - vm_start) computed in
   * unsigned long, so both the shift and the sum can wrap.
   */
  function MmapAsWritten(pgoff: nat, len: nat, bufSize: nat, ulongMax: nat): int
  {
    var end := ((pgoff * PAGE_SIZE) % (ulongMax + 1) + len) % (ulongMax + 1);
    if end > bufSize then -EINVAL else 0
  }

  /** Without wrap-around the check is the intended one. */
  lemma MmapAsWrittenAgrees(pgoff: nat, len: nat, bufSize: nat, ulongMax: nat)
    requires pgoff * PAGE_SIZE + len <= ulongMax
    ensures MmapAsWritten(pgoff, len, bufSize, ulongMax) == 0 <==> pgoff * PAGE_SIZE + len <= bufSize
  {
    var off := pgoff * PAGE_SIZE;
    DivModUnique(off, ulongMax + 1, 0, off);
    DivModUnique(off + len, ulongMax + 1, 0, off + len);
  }

  /**
   * A two-page mapping at page offset 2^52 - 1 on a 64-bit kernel: the
   * byte offset wraps and the sum comes out as 4096, so the mapping is
   * accepted though it starts 2^64 - 4096 bytes into a default-sized
   * buffer.
   */
  lemma MmapAsWrittenWraps()
    ensures var bufSize := DEFAULT_NUM_REC * DEFAULT_REC_SIZE + PAGE_SIZE;
      MmapAsWritten(0xf_ffff_ffff_ffff, 2 * PAGE_SIZE, bufSize, ULONG_MAX_64) == 0
      && 0xf_ffff_ffff_ffff * PAGE_SIZE + 2 * PAGE_SIZE > bufSize
  {
  }

  /**
   * The corrected partner of MmapAsWritten: for a mapping that ends inside the
   * buffer without wrap-around, every page the fault handler serves from
   * buf + ((vm_pgoff + k) << PAGE_SHIFT) lies inside the buffer.
   */
  lemma MmapPagesInside(pgoff: nat, len: nat, bufSize: nat, k: nat)
    requires pgoff * PAGE_SIZE + len <= bufSize
    requires k < len / PAGE_SIZE
    ensures (pgoff + k) * PAGE_SIZE + PAGE_SIZE <= bufSize
  {
    assert (k + 1) * PAGE_SIZE <= (len / PAGE_SIZE) * PAGE_SIZE <= len;
  }

  // ---------------------------------------------------------------
  // The module's state
  // ---------------------------------------------------------------

  /** The globals rec_size, num_rec, dump_buf_size, buf_size, buf (dump_buf is buf + PAGE_SIZE) and pos. */
  class Logger {
    const ulongMax: nat
    var recSize: u32
    var numRec: u32
    var dumpBufSize: nat
    var bufSize: nat
    var buf: array<byte>
    var pos: int
    /** The record pos is the start of. */
    ghost var slot: nat

    /** After a successful bufoops_init: the sizes agree, and pos is the start of a record. */
    ghost predicate Valid()
      reads this
    {
      IsPow2(recSize) && IsPow2(numRec)
      && dumpBufSize == numRec * recSize && bufSize == dumpBufSize + PAGE_SIZE && bufSize <= ulongMax
      && (ulongMax == ULONG_MAX_32 || ulongMax == ULONG_MAX_64)
      && buf.Length == bufSize
      && slot < numRec && pos == slot * recSize && pos + recSize <= dumpBufSize && pos < INT_LIMIT
    }

    /** Module load: the parameters as given (zero-initialised statics otherwise). */
    constructor(ulongMax: nat, recSize: u32, numRec: u32)
      requires ulongMax == ULONG_MAX_32 || ulongMax == ULONG_MAX_64
      ensures this.ulongMax == ulongMax && this.recSize == recSize && this.numRec == numRec
      ensures dumpBufSize == 0 && bufSize == 0 && pos == 0 && slot == 0 && buf.Length == 0
    {
      this.ulongMax := ulongMax;
      this.recSize := recSize;
      this.numRec := numRec;
      dumpBufSize := 0;
      bufSize := 0;
      buf := new byte[0];
      pos := 0;
      slot := 0;
    }

    /**
     * bufoops_init, up to the registrations: takes the parameters, refuses
     * sizes whose buffer would not fit in an unsigned long, and allocates
     * the (zeroed) buffer with its header. `allocOk` is whether vmalloc_user
     * succeeds.
     */
    method Init(allocOk: bool) returns (ret: int)
      requires pos == 0 && slot == 0
      requires ulongMax == ULONG_MAX_32 || ulongMax == ULONG_MAX_64
      modifies this
      ensures recSize == Param(old(recSize), DEFAULT_REC_SIZE) && numRec == Param(old(numRec), DEFAULT_NUM_REC)
      ensures ret == 0 <==> numRec * recSize <= ulongMax - PAGE_SIZE && allocOk
      ensures ret != 0 ==> ret == -ENOMEM
      ensures ret == 0 ==> Valid() && fresh(buf)
      ensures ret == 0 ==> buf[..24] == Header(recSize, numRec) && forall i :: 24 <= i < bufSize ==> buf[i] == 0
    {
      TakeParams();
      var fits := SizeBuffer();
      if !fits || !allocOk {
        return -ENOMEM;
      }
      buf := new byte[bufSize](_ => 0);
      InitHeader();
      assert 0 * recSize == 0;
      ret := 0;
    }

    /** The start of bufoops_init: a zero parameter takes its default, any other is rounded down to a power of two. */
    method TakeParams()
      modifies this`recSize, this`numRec
      ensures recSize == Param(old(recSize), DEFAULT_REC_SIZE) && numRec == Param(old(numRec), DEFAULT_NUM_REC)
      ensures IsPow2(recSize) && IsPow2(numRec)
    {
      DefaultsPow2();
      ParamPow2(recSize, DEFAULT_REC_SIZE);
      ParamPow2(numRec, DEFAULT_NUM_REC);
      recSize := if recSize != 0 then RoundDownPow2(recSize) else DEFAULT_REC_SIZE;
      numRec := if numRec != 0 then RoundDownPow2(numRec) else DEFAULT_NUM_REC;
    }

    /**
     * The sizing in bufoops_init: num_rec * rec_size is refused when it
     * overflows an unsigned long, and so is a dump area that leaves no room
     * for the header page.
     */
    method SizeBuffer() returns (fits: bool)
      requires IsPow2(recSize) && IsPow2(numRec) && ulongMax >= PAGE_SIZE
      modifies this`dumpBufSize, this`bufSize
      ensures fits <==> numRec * recSize <= ulongMax - PAGE_SIZE
      ensures fits ==> dumpBufSize == numRec * recSize && bufSize == dumpBufSize + PAGE_SIZE
      ensures fits ==> recSize <= dumpBufSize
    {
      SizingFacts(numRec, recSize, ulongMax);
      if numRec > ulongMax / recSize {
        return false;
      }
      dumpBufSize := (numRec * recSize) % (ulongMax + 1);
      if dumpBufSize > ulongMax - PAGE_SIZE {
        return false;
      }
      bufSize := dumpBufSize + PAGE_SIZE;
      fits := true;
    }

    /** bufoops_init_header: the header at the start of the buffer. */
    method InitHeader()
      requires buf.Length >= 24
      modifies buf
      ensures buf[..] == Splice(old(buf[..]), 0, Header(recSize, numRec))
    {
      PutBytes(buf, 0, Header(recSize, numRec));
    }

    /**
     * bufoops_do_dump with `stamp` the timestamp line sprintf wrote (off is
     * its length). Other dump reasons are ignored. An oops or panic
     * replaces the record at pos by the dump's record, moves pos to the
     * next record and clears that record's first byte.
     */
    method DoDump(reason: DumpReason, stamp: seq<byte>, s1: seq<byte>, s2: seq<byte>)
      requires Valid() && |stamp| < recSize
      modifies buf, this`pos, this`slot
      ensures Valid()
      ensures reason != Oops && reason != Panic ==> buf[..] == old(buf[..]) && pos == old(pos)
      ensures reason == Oops || reason == Panic ==>
        pos == NextPosAsWritten(old(pos), recSize, dumpBufSize, ulongMax)
        && slot == (if old(pos) + recSize < INT_LIMIT then (old(slot) + 1) % numRec else 0)
        && buf[..] == Splice(old(buf[..]), PAGE_SIZE + old(pos), Record(recSize, stamp, s1, s2))[PAGE_SIZE + pos := 0]
    {
      if reason != Oops && reason != Panic {
        return;
      }
      WriteRecord(stamp, s1, s2);
      Advance();
    }

    /** The memset and the three copies of bufoops_do_dump, into the record at pos. */
    method WriteRecord(stamp: seq<byte>, s1: seq<byte>, s2: seq<byte>)
      requires Valid() && |stamp| < recSize
      modifies buf
      ensures buf[..] == Splice(old(buf[..]), PAGE_SIZE + pos, Record(recSize, stamp, s1, s2))
    {
      var cur := PAGE_SIZE + pos;
      assert cur + recSize <= buf.Length by {
        assert pos + recSize <= dumpBufSize && buf.Length == dumpBufSize + PAGE_SIZE;
      }
      DumpRecordAt(buf, cur, recSize, stamp, s1, s2);
    }

    /**
     * The end of bufoops_do_dump: pos moves to the next record, whose first
     * byte is cleared. pos is an int: when pos + rec_size passes INT_MAX
     * the sum wraps negative and the comparison sends pos back to record 0,
     * so the records from there on are never used.
     */
    method Advance()
      requires Valid()
      modifies buf, this`pos, this`slot
      ensures Valid()
      ensures pos == NextPosAsWritten(old(pos), recSize, dumpBufSize, ulongMax)
      ensures slot == if old(pos) + recSize < INT_LIMIT then (old(slot) + 1) % numRec else 0
      ensures buf[..] == old(buf[..])[PAGE_SIZE + pos := 0]
    {
      ghost var next := NextPosAsWritten(pos, recSize, dumpBufSize, ulongMax);
      ghost var nextSlot := if pos + recSize < INT_LIMIT then (slot + 1) % numRec else 0;
      AdvanceStaysValid(slot, recSize, numRec, ulongMax);
      pos := StepPos(pos, recSize, dumpBufSize, ulongMax);
      slot := nextSlot;
      buf[PAGE_SIZE + pos] := 0;
    }

    /**
     * bufoops_mmap: a mapping of len bytes from page vm_pgoff is allowed
     * only when it ends inside the buffer.
     */
    method Mmap(pgoff: nat, vmStart: nat, vmEnd: nat) returns (rc: int)
      requires vmStart <= vmEnd
      ensures rc == MmapAsWritten(pgoff, vmEnd - vmStart, bufSize, ulongMax)
      ensures pgoff * PAGE_SIZE + (vmEnd - vmStart) <= ulongMax ==>
        (rc == 0 <==> pgoff * PAGE_SIZE + (vmEnd - vmStart) <= bufSize)
      ensures rc != 0 ==> rc == -EINVAL
    {
      if pgoff * PAGE_SIZE + (vmEnd - vmStart) <= ulongMax {
        MmapAsWrittenAgrees(pgoff, vmEnd - vmStart, bufSize, ulongMax);
      }
      // unsigned long arithmetic: the shift and the sum wrap
      var end := ((pgoff * PAGE_SIZE) % (ulongMax + 1) + (vmEnd - vmStart)) % (ulongMax + 1);
      if end > bufSize {
        return -EINVAL;
      }
      rc := 0;
    }
  }

  /**
   * The facts bufoops_init's sizing relies on: the division guard is exact,
   * a product that passes it is not reduced modulo ULONG_MAX + 1, and the
   * first record fits in the area.
   */
  lemma SizingFacts(numRec: nat, recSize: nat, ulongMax: nat)
    requires IsPow2(numRec) && IsPow2(recSize)
    ensures recSize >= 1 && numRec >= 1 && 0 * recSize == 0
    ensures numRec > ulongMax / recSize <==> numRec * recSize > ulongMax
    ensures numRec * recSize <= ulongMax ==> (numRec * recSize) % (ulongMax + 1) == numRec * recSize
    ensures recSize <= numRec * recSize
  {
    Pow2Positive(numRec);
    Pow2Positive(recSize);
    GuardExact(numRec, recSize, ulongMax);
    MulMono(1, numRec, recSize);
    var product := numRec * recSize;
    if product <= ulongMax {
      DivModUnique(product, ulongMax + 1, 0, product);
    }
  }

  lemma Pow2Positive(x: nat)
    requires IsPow2(x)
    ensures x >= 1
  {
  }

  /**
   * The copies of bufoops_do_dump into the record at cur: as much of the
   * end of s2 as fits before the record's last byte, then as much of the
   * end of s1 as fits before that.
   */
  method DumpRecordAt(buf: array<byte>, cur: nat, recSize: nat, stamp: seq<byte>, s1: seq<byte>, s2: seq<byte>)
    requires cur + recSize <= buf.Length && |stamp| < recSize
    modifies buf
    ensures buf[..] == Splice(old(buf[..]), cur, Record(recSize, stamp, s1, s2))
  {
    var off := |stamp|;
    var l2Cpy := Min(|s2|, recSize - off - 1);
    var l1Cpy := Min(|s1|, recSize - off - l2Cpy - 1);
    var s2Start := |s2| - l2Cpy;
    var s1Start := |s1| - l1Cpy;
    assert (l1Cpy, l2Cpy) == CopyLengths(recSize, off, |s1|, |s2|);
    RecordUnfold(recSize, stamp, s1, s2, l1Cpy, l2Cpy);
    FillRecord(buf, cur, recSize, stamp, s1[s1Start..], s2[s2Start..]);
  }

  /**
   * The memset of the record at cur, the timestamp line at its start and
   * the two copies after it.
   */
  method FillRecord(buf: array<byte>, cur: nat, recSize: nat, stamp: seq<byte>, t1: seq<byte>, t2: seq<byte>)
    requires cur + recSize <= buf.Length && |stamp| + |t1| + |t2| < recSize
    modifies buf
    ensures buf[..] == Splice(old(buf[..]), cur, stamp + t1 + t2 + Zeros(recSize - |stamp| - |t1| - |t2|))
  {
    RecordImage(buf[..], cur, recSize, stamp, t1, t2);
    PutBytes(buf, cur, Zeros(recSize));
    // sprintf's terminating NUL lands on a byte memset already cleared.
    PutBytes(buf, cur, stamp);
    PutBytes(buf, cur + |stamp|, t1);
    PutBytes(buf, cur + |stamp| + |t1|, t2);
  }

  /**
   * The memset and the three copies into a record slot leave the slot
   * holding the dump's record.
   */
  lemma RecordImage(o: seq<byte>, cur: nat, recSize: nat, stamp: seq<byte>, t1: seq<byte>, t2: seq<byte>)
    requires cur + recSize <= |o| && |stamp| + |t1| + |t2| < recSize
    ensures var z := Splice(o, cur, Zeros(recSize));
      var s := Splice(z, cur, stamp);
      Splice(Splice(s, cur + |stamp|, t1), cur + |stamp| + |t1|, t2)
      == Splice(o, cur, stamp + t1 + t2 + Zeros(recSize - |stamp| - |t1| - |t2|))
  {
    var z := Splice(o, cur, Zeros(recSize));
    var s := Splice(z, cur, stamp);
    SpliceConsecutive(s, cur + |stamp|, t1, t2);
    SpliceConsecutive(z, cur, stamp, t1 + t2);
    var d := stamp + (t1 + t2);
    SpliceOverZeros(o, cur, recSize, d);
    assert d == stamp + t1 + t2;
  }

  /** Data copied over a cleared area: the data, then the rest of the zeros. */
  lemma SpliceOverZeros(o: seq<byte>, cur: nat, n: nat, d: seq<byte>)
    requires cur + n <= |o| && |d| <= n
    ensures Splice(Splice(o, cur, Zeros(n)), cur, d) == Splice(o, cur, d + Zeros(n - |d|))
  {
    var a := Splice(Splice(o, cur, Zeros(n)), cur, d);
    var b := Splice(o, cur, d + Zeros(n - |d|));
    forall i | 0 <= i < |o|
      ensures a[i] == b[i]
    {
      if cur + |d| <= i < cur + n {
        assert (d + Zeros(n - |d|))[i - cur] == Zeros(n - |d|)[i - cur - |d|];
      }
    }
  }
}
