/*
 * UNMAP (SBC-3 section 5.28): the parameter list's eight-byte header, then
 * 16-byte block descriptors (an eight-byte LBA and a four-byte count) that
 * are validated and discarded one by one, in order, until one fails.
 *
 * The backend's do_discard is the parameter `discard`, giving the return
 * code for an (lba, range); do_write_same's return code is `writeSameRc`.
 */
module Unmap {
  import opened Common
  import opened TargetTypes

  /** LOGICAL BLOCK ADDRESS of the descriptor at p. */
  function DescLba(d: seq<byte>, p: nat): u64
    requires p + 16 <= |d|
  {
    assert Pow256(8) == U64_LIMIT;
    BEValue(d[p..p + 8])
  }

  /** NUMBER OF LOGICAL BLOCKS of the descriptor at p. */
  function DescRange(d: seq<byte>, p: nat): u32
    requires p + 16 <= |d|
  {
    assert Pow256(4) == U32_LIMIT;
    BEValue(d[p + 8..p + 12])
  }

  /**
   * The range check as written: `lba + range > get_blocks() + 1` in 64-bit
   * sector_t arithmetic, where both sums can wrap.
   */
  predicate OutOfRangeAsWritten(lba: u64, range: u32, blocks: u64)
  {
    (lba + range) % U64_LIMIT > (blocks + 1) % U64_LIMIT
  }

  /** The intended check: the descriptor reaches past the last LBA. */
  predicate OutOfRange(lba: u64, range: u32, blocks: u64)
  {
    lba + range > blocks + 1
  }

  /**
   * Near the top of the LBA space the sum wraps and the check as written
   * passes a descriptor far beyond the medium.
   */
  lemma OutOfRangeWraps()
    ensures !OutOfRangeAsWritten(U64_LIMIT - 1, 2, 1000)
    ensures OutOfRange(U64_LIMIT - 1, 2, 1000)
  {
  }

  /** The two checks agree whenever neither sum leaves 64 bits. */
  lemma OutOfRangeAgrees(lba: u64, range: u32, blocks: u64)
    requires lba + range < U64_LIMIT && blocks + 1 < U64_LIMIT
    ensures OutOfRangeAsWritten(lba, range, blocks) <==> OutOfRange(lba, range, blocks)
  {
  }

  /** The number of descriptors `size` bytes hold (the C quotient, 0 for a negative size). */
  function DescCount(size: int): nat
  {
    if size < 16 then 0 else 1 + DescCount(size - 16)
  }

  /**
   * The loop from the descriptor at p with `size` bytes left and `ret` the
   * last return code: the outcome and the backend calls made, in order.
   * At most one call per descriptor, and only for a descriptor that passed
   * both checks as written.
   */
  function Walk(dev: Device, d: seq<byte>, p: nat, size: int, ret: int,
                discard: (u64, nat) -> int, writeSameRc: int): (r: (Disposition, seq<BackendCall>))
    requires size < 16 || p + size <= |d|
    ensures |r.1| <= DescCount(size)
    ensures forall c :: c in r.1 ==>
      (c.WriteSameCall? || c.DiscardCall?)
      && c.range <= dev.attrib.maxUnmapLbaCount
      && !OutOfRangeAsWritten(c.lba, c.range, dev.blocks)
    decreases size
  {
    if size < 16 then (if ret == 0 then Good else Returned(ret), [])
    else
      var lba := DescLba(d, p);
      var range := DescRange(d, p);
      if range > dev.attrib.maxUnmapLbaCount then (Failed(-EINVAL, Some(InvalidParameterList)), [])
      else if OutOfRangeAsWritten(lba, range, dev.blocks) then (Failed(-EINVAL, Some(AddressOutOfRange)), [])
      else if dev.caps.writeSame then
        if size > 31 then (Failed(-ENOSYS, Some(InvalidCdbField)), [])
        else (Returned(writeSameRc), [WriteSameCall(lba, range)])
      else
        var rc := discard(lba, range);
        if rc < 0 then (Failed(rc, None), [DiscardCall(lba, range)])
        else
          var rest := Walk(dev, d, p + 16, size - 16, rc, discard, writeSameRc);
          (rest.0, [DiscardCall(lba, range)] + rest.1)
  }

  /** The bytes of descriptors the loop walks: data_length - 8, capped by BLOCK DESCRIPTOR DATA LENGTH. */
  function DescBytes(dataLength: nat, data: seq<byte>): int
    requires |data| >= 4
  {
    Min(dataLength - 8, BEValue(data[2..4]))
  }

  /**
   * target_emulate_unmap on a parameter list `data` of which dataLength
   * bytes were transferred (the mapped buffer holds at least the header).
   */
  function Unmap(dev: Device, dataLength: nat, data: seq<byte>,
                 discard: (u64, nat) -> int, writeSameRc: int): (r: (Disposition, seq<BackendCall>))
    requires |data| >= 8 && |data| >= dataLength
    ensures r.1 != [] ==> dev.caps.discard
    ensures |r.1| <= dev.attrib.maxUnmapBlockDescCount
    ensures forall c :: c in r.1 ==>
      (c.WriteSameCall? || c.DiscardCall?)
      && c.range <= dev.attrib.maxUnmapLbaCount
      && !OutOfRangeAsWritten(c.lba, c.range, dev.blocks)
  {
    if !dev.caps.discard then (Failed(-ENOSYS, Some(UnsupportedScsiOpcode)), [])
    else
      var size := DescBytes(dataLength, data);
      if DescCount(size) > dev.attrib.maxUnmapBlockDescCount then
        (Failed(-EINVAL, Some(InvalidParameterList)), [])
      else Walk(dev, data, 8, size, 0, discard, writeSameRc)
  }

  /** The descriptor-count check counts whole 16-byte descriptors. */
  lemma {:induction false} DescCountIsQuotient(size: int)
    ensures size >= 0 ==> DescCount(size) == size / 16
    ensures size < 0 ==> DescCount(size) == 0
    decreases size
  {
    if size >= 16 {
      DescCountIsQuotient(size - 16);
    }
  }

  /**
   * Without do_write_same the walk discards the descriptors in order, one
   * call each, and stops at the first that fails validation or whose
   * discard fails; it completes (GOOD, or the last positive return code)
   * only after discarding every descriptor.
   */
  lemma {:induction false} WalkDiscardsInOrder(dev: Device, d: seq<byte>, p: nat, size: int, ret: int,
                                               discard: (u64, nat) -> int, writeSameRc: int)
    requires size < 16 || p + size <= |d|
    requires !dev.caps.writeSame
    ensures var (disp, calls) := Walk(dev, d, p, size, ret, discard, writeSameRc);
      |calls| <= DescCount(size)
      && (forall i :: 0 <= i < |calls| ==>
            p + 16 * i + 16 <= |d|
            && calls[i] == DiscardCall(DescLba(d, p + 16 * i), DescRange(d, p + 16 * i)))
      && (!disp.Failed? ==> |calls| == DescCount(size))
      && (disp.Failed? && disp.rc >= 0 ==> false)
    decreases size
  {
    if size >= 16 {
      var lba := DescLba(d, p);
      var range := DescRange(d, p);
      if range <= dev.attrib.maxUnmapLbaCount && !OutOfRangeAsWritten(lba, range, dev.blocks) {
        var rc := discard(lba, range);
        if rc >= 0 {
          WalkDiscardsInOrder(dev, d, p + 16, size - 16, rc, discard, writeSameRc);
          var rest := Walk(dev, d, p + 16, size - 16, rc, discard, writeSameRc);
          var calls := [DiscardCall(lba, range)] + rest.1;
          assert Walk(dev, d, p, size, ret, discard, writeSameRc) == (rest.0, calls);
          assert DescCount(size) == 1 + DescCount(size - 16);
          DiscardsShift(d, p, rest.1);
        }
      }
    }
  }

  /** Prefixing the call for the descriptor at `p` to the calls for those from `p + 16` keeps them in order. */
  lemma DiscardsShift(d: seq<byte>, p: nat, tail: seq<BackendCall>)
    requires p + 16 <= |d|
    requires forall i :: 0 <= i < |tail| ==>
      p + 16 + 16 * i + 16 <= |d|
      && tail[i] == DiscardCall(DescLba(d, p + 16 + 16 * i), DescRange(d, p + 16 + 16 * i))
    ensures var calls := [DiscardCall(DescLba(d, p), DescRange(d, p))] + tail;
      forall i :: 0 <= i < |calls| ==>
        p + 16 * i + 16 <= |d|
        && calls[i] == DiscardCall(DescLba(d, p + 16 * i), DescRange(d, p + 16 * i))
  {
    var calls := [DiscardCall(DescLba(d, p), DescRange(d, p))] + tail;
    forall i | 0 <= i < |calls|
      ensures p + 16 * i + 16 <= |d|
      ensures calls[i] == DiscardCall(DescLba(d, p + 16 * i), DescRange(d, p + 16 * i))
    {
      if i > 0 {
        assert calls[i] == tail[i - 1];
        assert p + 16 + 16 * (i - 1) == p + 16 * i;
      }
    }
  }

  /**
   * Every descriptor of a completed UNMAP passed the checks as written:
   * each range within max_unmap_lba_count and passing the 64-bit range
   * check, so on the medium whenever its end does not wrap (see
   * OutOfRangeWraps for one that does).
   */
  lemma {:induction false} WalkCompletedValid(dev: Device, d: seq<byte>, p: nat, size: int, ret: int,
                                              discard: (u64, nat) -> int, writeSameRc: int)
    requires size < 16 || p + size <= |d|
    requires !dev.caps.writeSame
    requires !Walk(dev, d, p, size, ret, discard, writeSameRc).0.Failed?
    ensures forall i :: 0 <= i < DescCount(size) ==>
      p + 16 * i + 16 <= |d|
      && DescRange(d, p + 16 * i) <= dev.attrib.maxUnmapLbaCount
      && !OutOfRangeAsWritten(DescLba(d, p + 16 * i), DescRange(d, p + 16 * i), dev.blocks)
      && (DescLba(d, p + 16 * i) + DescRange(d, p + 16 * i) < U64_LIMIT && dev.blocks + 1 < U64_LIMIT ==>
            DescLba(d, p + 16 * i) + DescRange(d, p + 16 * i) <= dev.blocks + 1)
    decreases size
  {
    if size >= 16 {
      var rc := discard(DescLba(d, p), DescRange(d, p));
      WalkCompletedValid(dev, d, p + 16, size - 16, rc, discard, writeSameRc);
      forall i | 0 <= i < DescCount(size)
        ensures p + 16 * i + 16 <= |d|
          && DescRange(d, p + 16 * i) <= dev.attrib.maxUnmapLbaCount
          && !OutOfRangeAsWritten(DescLba(d, p + 16 * i), DescRange(d, p + 16 * i), dev.blocks)
          && (DescLba(d, p + 16 * i) + DescRange(d, p + 16 * i) < U64_LIMIT && dev.blocks + 1 < U64_LIMIT ==>
                DescLba(d, p + 16 * i) + DescRange(d, p + 16 * i) <= dev.blocks + 1)
      {
        if i > 0 {
          assert p + 16 + 16 * (i - 1) == p + 16 * i;
        }
      }
    }
  }

  /** get_unaligned_beN: reads an n-byte big-endian field. */
  method GetBE(buf: array<byte>, off: nat, n: nat) returns (v: nat)
    requires off + n <= buf.Length
    ensures v == BEValue(buf[off..off + n])
  {
    v := 0;
    var i := 0;
    while i < n
      invariant 0 <= i <= n
      invariant v == BEValue(buf[off..off + i])
    {
      assert buf[off..off + i + 1][..i] == buf[off..off + i];
      v := v * 256 + buf[off + i];
      i := i + 1;
    }
  }

  /** memset(buf, 0, n). */
  method ZeroFill(buf: array<byte>, n: nat)
    requires n <= buf.Length
    modifies buf
    ensures buf[..] == Splice(old(buf[..]), 0, Zeros(n))
  {
    var i := 0;
    while i < n
      invariant 0 <= i <= n
      invariant forall k :: 0 <= k < buf.Length ==> buf[k] == if k < i then 0 else old(buf[k])
    {
      buf[i] := 0;
      i := i + 1;
    }
  }

  /** The walk ended by handing a descriptor to do_write_same, which clears the buffer first. */
  predicate ClearsBuffer(dev: Device, calls: seq<BackendCall>)
  {
    dev.caps.writeSame && |calls| > 0 && calls[|calls| - 1].WriteSameCall?
  }

  /**
   * target_emulate_unmap over the mapped data-out buffer. Before handing a
   * single descriptor to do_write_same it clears block_size bytes of the
   * buffer, which must hold that many.
   */
  method EmulateUnmap(dev: Device, dataLength: nat, buf: array<byte>,
                      discard: (u64, nat) -> int, writeSameRc: int)
    returns (d: Disposition, calls: seq<BackendCall>)
    requires buf.Length >= 8 && buf.Length >= dataLength
    requires dev.caps.writeSame ==> buf.Length >= dev.attrib.blockSize
    modifies buf
    ensures d == Unmap(dev, dataLength, old(buf[..]), discard, writeSameRc).0
    ensures calls == Unmap(dev, dataLength, old(buf[..]), discard, writeSameRc).1
    ensures buf[..] == if ClearsBuffer(dev, calls) then Splice(old(buf[..]), 0, Zeros(dev.attrib.blockSize))
                       else old(buf[..])
  {
    if !dev.caps.discard {
      return Failed(-ENOSYS, Some(UnsupportedScsiOpcode)), [];
    }
    // First UNMAP block descriptor starts at 8 byte offset
    var size: int := dataLength - 8;
    var bdDl := GetBE(buf, 2, 2);
    size := Min(size, bdDl);
    DescCountIsQuotient(size);
    if (if size >= 0 then size / 16 else 0) > dev.attrib.maxUnmapBlockDescCount {
      return Failed(-EINVAL, Some(InvalidParameterList)), [];
    }
    assert size == DescBytes(dataLength, buf[..]);
    d, calls := UnmapDescriptors(dev, buf, size, discard, writeSameRc);
  }

  /** The descriptor loop of target_emulate_unmap: ptr advancing from byte 8 while size >= 16. */
  method UnmapDescriptors(dev: Device, buf: array<byte>, size0: int,
                          discard: (u64, nat) -> int, writeSameRc: int)
    returns (d: Disposition, calls: seq<BackendCall>)
    requires size0 < 16 || 8 + size0 <= buf.Length
    requires dev.caps.writeSame ==> buf.Length >= dev.attrib.blockSize
    modifies buf
    ensures d == Walk(dev, old(buf[..]), 8, size0, 0, discard, writeSameRc).0
    ensures calls == Walk(dev, old(buf[..]), 8, size0, 0, discard, writeSameRc).1
    ensures buf[..] == if ClearsBuffer(dev, calls) then Splice(old(buf[..]), 0, Zeros(dev.attrib.blockSize))
                       else old(buf[..])
  {
    ghost var data := buf[..];
    ghost var whole := Walk(dev, data, 8, size0, 0, discard, writeSameRc);
    var size := size0;
    var p := 8;
    var ret := 0;
    calls := [];
    while size >= 16
      invariant buf[..] == data
      invariant WalkState(dev, data, whole, p, size, ret, calls, discard, writeSameRc)
      decreases size
    {
      var stop;
      stop, d, calls, ret := UnmapStep(dev, buf, p, size, ret, calls, whole, discard, writeSameRc);
      if stop {
        return;
      }
      p := p + 16;
      size := size - 16;
    }
    d := if ret == 0 then Good else Returned(ret);
    assert calls + [] == calls;
  }

  /**
   * Where the descriptor loop stands: the walk from descriptor `p` on,
   * after the backend calls already made, is the whole walk.
   */
  ghost predicate WalkState(dev: Device, data: seq<byte>, whole: (Disposition, seq<BackendCall>),
                            p: nat, size: int, ret: int, calls: seq<BackendCall>,
                            discard: (u64, nat) -> int, writeSameRc: int)
  {
    (size < 16 || p + size <= |data|)
    && whole.0 == Walk(dev, data, p, size, ret, discard, writeSameRc).0
    && whole.1 == calls + Walk(dev, data, p, size, ret, discard, writeSameRc).1
    && forall i :: 0 <= i < |calls| ==> calls[i].DiscardCall?
  }

  /**
   * One turn of the descriptor loop: either the walk ends here (a rejected
   * descriptor, the do_write_same hand-off or a failed discard) or the
   * discard of descriptor `p` succeeded and the loop moves on.
   */
  method UnmapStep(dev: Device, buf: array<byte>, p: nat, size: int, ret: int, calls: seq<BackendCall>,
                   ghost whole: (Disposition, seq<BackendCall>), discard: (u64, nat) -> int, writeSameRc: int)
    returns (stop: bool, d: Disposition, calls': seq<BackendCall>, ret': int)
    requires size >= 16
    requires WalkState(dev, buf[..], whole, p, size, ret, calls, discard, writeSameRc)
    requires dev.caps.writeSame ==> buf.Length >= dev.attrib.blockSize
    modifies buf
    ensures stop ==> d == whole.0 && calls' == whole.1
    ensures stop ==> buf[..] == if ClearsBuffer(dev, calls') then Splice(old(buf[..]), 0, Zeros(dev.attrib.blockSize))
                                else old(buf[..])
    ensures !stop ==> (buf[..] == old(buf[..])
                       && WalkState(dev, buf[..], whole, p + 16, size - 16, ret', calls', discard, writeSameRc))
  {
    ghost var data := buf[..];
    var lba := GetBE(buf, p, 8);
    var range := GetBE(buf, p + 8, 4);
    assert lba == DescLba(data, p) && range == DescRange(data, p);
    ret' := ret;
    ghost var w := Walk(dev, data, p, size, ret, discard, writeSameRc);
    if range > dev.attrib.maxUnmapLbaCount {
      assert w == (Failed(-EINVAL, Some(InvalidParameterList)), []) && calls + [] == calls;
      return true, Failed(-EINVAL, Some(InvalidParameterList)), calls, ret';
    }
    // sector_t arithmetic: both sides are reduced modulo 2^64 before comparing
    if (lba + range) % U64_LIMIT > (dev.blocks + 1) % U64_LIMIT {
      assert w == (Failed(-EINVAL, Some(AddressOutOfRange)), []) && calls + [] == calls;
      return true, Failed(-EINVAL, Some(AddressOutOfRange)), calls, ret';
    }
    if dev.caps.writeSame {
      if size > 31 {
        assert w == (Failed(-ENOSYS, Some(InvalidCdbField)), []) && calls + [] == calls;
        return true, Failed(-ENOSYS, Some(InvalidCdbField)), calls, ret';
      }
      assert w == (Returned(writeSameRc), [WriteSameCall(lba, range)]);
      ZeroFill(buf, dev.attrib.blockSize);
      return true, Returned(writeSameRc), calls + [WriteSameCall(lba, range)], ret';
    }
    ret' := discard(lba, range);
    calls' := calls + [DiscardCall(lba, range)];
    stop := ret' < 0;
    d := Failed(ret', None);
    if stop {
      assert w == (Failed(ret', None), [DiscardCall(lba, range)]);
    } else {
      ghost var rest := Walk(dev, data, p + 16, size - 16, ret', discard, writeSameRc);
      assert w == (rest.0, [DiscardCall(lba, range)] + rest.1);
      assert calls + ([DiscardCall(lba, range)] + rest.1) == calls' + rest.1;
    }
  }
}
