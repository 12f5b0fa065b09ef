/*
 * MODE SENSE and MODE SELECT emulation (SPC-4 sections 6.11 to 6.14): the
 * mode parameter header with its device-specific byte, the short and long
 * LBA block descriptors, the four mode pages the target reports, and the
 * check MODE SELECT makes of a parameter list against those pages.
 *
 * Page images and the whole reply are functions; the emulators fill the
 * zeroed data-in buffer through a cursor `length` and are proved to leave
 * exactly that image in it.
 */
module ModePages {
  import opened Common
  import opened TargetTypes

  const MODE_SELECT_10: byte := 0x55
  const MODE_SENSE_10: byte := 0x5a

  /** SE_MODE_PAGE_BUF: the bounce buffer for a short data-in buffer. */
  const SE_MODE_PAGE_BUF: nat := 512

  datatype PageKind = RwRecovery | Caching | Control | InformationalExceptions

  /** An entry of modesense_handlers[]. */
  datatype Handler = Handler(page: byte, subpage: byte, kind: PageKind)

  const MODESENSE_HANDLERS: seq<Handler> := [
    Handler(0x01, 0x00, RwRecovery),
    Handler(0x08, 0x00, Caching),
    Handler(0x0a, 0x00, Control),
    Handler(0x1c, 0x00, InformationalExceptions)]

  // -------------------------------------------------------------------
  // Mode pages
  // -------------------------------------------------------------------

  /** Control page byte 3: QUEUE ALGORITHM MODIFIER, then NUAR when PR is offloaded. */
  function ControlQueueByte(dev: Device): byte
  {
    var qam: byte := if dev.attrib.emulateRestReord == 1 then 0x00 else 0x10;
    if dev.offloadPr then Or(qam, 0x08) else qam
  }

  /** NUAR is bit 3, clear in either QUEUE ALGORITHM MODIFIER value, so ORing it in adds 8. */
  lemma ControlQueueByteValue(dev: Device)
    ensures ControlQueueByte(dev) ==
      (if dev.attrib.emulateRestReord == 1 then 0x00 else 0x10) + (if dev.offloadPr then 0x08 else 0x00)
  {
    if dev.offloadPr {
      OrNibbles(if dev.attrib.emulateRestReord == 1 then 0 else 1, 8);
    }
  }

  /** Control page byte 4: UA_INTLCK_CTRL. */
  function ControlUaByte(dev: Device): byte
  {
    if dev.attrib.emulateUaIntlckCtrl == 2 then 0x30
    else if dev.attrib.emulateUaIntlckCtrl == 1 then 0x20
    else 0x00
  }

  /** Control page bytes 2-11 for a page control other than changeable values. */
  function ControlParams(dev: Device): (p: seq<byte>)
    ensures |p| == 10
  {
    [2, ControlQueueByte(dev), ControlUaByte(dev), if dev.attrib.emulateTas then 0x40 else 0x00, 0, 0, 0xff, 0xff, 0, 30]
  }

  /**
   * The bytes a page handler leaves in a zeroed area for page control `pc`;
   * PC=1 (changeable values) reports only the page code and length.
   */
  function ModePage(kind: PageKind, dev: Device, pc: nat): (p: seq<byte>)
    ensures |p| == if kind == Caching then 20 else 12
  {
    match kind
    case RwRecovery => [0x01, 0x0a] + Zeros(10)
    case Caching =>
      [0x08, 0x12] +
      (if pc == 1 then Zeros(18)
       else [if dev.attrib.emulateWriteCache > 0 then 0x04 else 0x00] + Zeros(9) + [0x20] + Zeros(7))
    case Control => [0x0a, 0x0a] + (if pc == 1 then Zeros(10) else ControlParams(dev))
    case InformationalExceptions => [0x1c, 0x0a] + Zeros(10)
  }

  /**
   * Every page in the table starts with its own page code and a PAGE
   * LENGTH that counts the bytes after the two-byte page header.
   */
  lemma ModePageHeaders(dev: Device, pc: nat, i: nat)
    requires i < |MODESENSE_HANDLERS|
    ensures var h := MODESENSE_HANDLERS[i];
      var p := ModePage(h.kind, dev, pc);
      p[0] == h.page && p[1] as int + 2 == |p|
  {
  }

  /** The handlers' page codes are distinct and below 40h; they have no subpages. */
  lemma HandlerTableShape()
    ensures forall i, j :: 0 <= i < j < |MODESENSE_HANDLERS| ==>
      MODESENSE_HANDLERS[i].page != MODESENSE_HANDLERS[j].page
    ensures forall i :: 0 <= i < |MODESENSE_HANDLERS| ==>
      MODESENSE_HANDLERS[i].page < 0x40 && MODESENSE_HANDLERS[i].subpage == 0
  {
  }

  /** The region [off, off+n) of the buffer is still zero. */
  predicate ZeroFrom(b: seq<byte>, off: nat, n: nat)
  {
    off + n <= |b| && forall i :: off <= i < off + n ==> b[i] == 0
  }

  /** target_modesense_rwrecovery: page 01h, nothing changeable. */
  method ModeSenseRwRecovery(dev: Device, pc: nat, buf: array<byte>, off: nat) returns (n: nat)
    requires off + 12 <= buf.Length && ZeroFrom(buf[..], off + 2, 10)
    modifies buf
    ensures n == 12 && buf[..] == Splice(old(buf[..]), off, ModePage(RwRecovery, dev, pc))
  {
    buf[off] := 0x01;
    buf[off + 1] := 0x0a;
    n := 12;
  }

  /** target_modesense_informational_exceptions: page 1Ch, nothing changeable. */
  method ModeSenseInformationalExceptions(dev: Device, pc: nat, buf: array<byte>, off: nat) returns (n: nat)
    requires off + 12 <= buf.Length && ZeroFrom(buf[..], off + 2, 10)
    modifies buf
    ensures n == 12 && buf[..] == Splice(old(buf[..]), off, ModePage(InformationalExceptions, dev, pc))
  {
    buf[off] := 0x1c;
    buf[off + 1] := 0x0a;
    n := 12;
  }

  /** target_modesense_caching: page 08h with WCE from the write-cache attribute. */
  method ModeSenseCaching(dev: Device, pc: nat, buf: array<byte>, off: nat) returns (n: nat)
    requires off + 20 <= buf.Length && ZeroFrom(buf[..], off + 2, 18)
    modifies buf
    ensures n == 20 && buf[..] == Splice(old(buf[..]), off, ModePage(Caching, dev, pc))
  {
    buf[off] := 0x08;
    buf[off + 1] := 0x12;
    n := 20;
    if pc == 1 {
      return;
    }
    if dev.attrib.emulateWriteCache > 0 {
      buf[off + 2] := 0x04;
    }
    buf[off + 12] := 0x20;
  }

  /** target_modesense_control: page 0Ah. */
  method ModeSenseControl(dev: Device, pc: nat, buf: array<byte>, off: nat) returns (n: nat)
    requires off + 12 <= buf.Length && ZeroFrom(buf[..], off + 2, 10)
    modifies buf
    ensures n == 12 && buf[..] == Splice(old(buf[..]), off, ModePage(Control, dev, pc))
  {
    ghost var o := buf[..];
    PutPageHeader(buf, off, 0x0a, 0x0a);
    n := 12;
    ghost var hdr := buf[..];
    if pc == 1 {
      SpliceZeros(hdr, off + 2, 10);
      SpliceConsecutive(o, off, [0x0a, 0x0a], Zeros(10));
      return;
    }
    ControlParameters(dev, buf, off + 2);
    SpliceConsecutive(o, off, [0x0a, 0x0a], ControlParams(dev));
  }

  /** Bytes 0-1 of a page: its code and PAGE LENGTH. */
  method PutPageHeader(buf: array<byte>, off: nat, code: byte, len: byte)
    requires off + 2 <= buf.Length
    modifies buf
    ensures buf[..] == Splice(old(buf[..]), off, [code, len])
  {
    buf[off] := code;
    buf[off + 1] := len;
  }

  /** Bytes 2-11 of the control page for PC other than 1, written from `off` into a zeroed area. */
  method ControlParameters(dev: Device, buf: array<byte>, off: nat)
    requires ZeroFrom(buf[..], off, 10)
    modifies buf
    ensures buf[..] == Splice(old(buf[..]), off, ControlParams(dev))
  {
    buf[off] := 2;
    PutQueueByte(dev, buf, off + 1);
    buf[off + 2] := ControlUaByte(dev);
    buf[off + 3] := if dev.attrib.emulateTas then 0x40 else 0x00;
    buf[off + 6] := 0xff;
    buf[off + 7] := 0xff;
    buf[off + 9] := 30;
    assert buf[off + 4] == 0 && buf[off + 5] == 0 && buf[off + 8] == 0;
    assert buf[off..off + 10] == ControlParams(dev);
    SpliceOfSlice(old(buf[..]), buf[..], off, 10);
  }

  /** Control page byte 3: the QUEUE ALGORITHM MODIFIER, then NUAR ORed in when PR is offloaded. */
  method PutQueueByte(dev: Device, buf: array<byte>, i: nat)
    requires i < buf.Length
    modifies buf
    ensures buf[..] == old(buf[..])[i := ControlQueueByte(dev)]
  {
    buf[i] := if dev.attrib.emulateRestReord == 1 then 0x00 else 0x10;
    if dev.offloadPr {
      buf[i] := Or(buf[i], 0x08);
    }
  }

  /** A zeroed area is unchanged by splicing zeros into it. */
  lemma SpliceZeros(o: seq<byte>, off: nat, k: nat)
    requires ZeroFrom(o, off, k)
    ensures Splice(o, off, Zeros(k)) == o
  {
  }

  /**
   * buf[off + k] = v on a buffer that is `o` with `page` spliced in at
   * off: the result is `o` with the updated page spliced in.
   */
  method StoreIn(buf: array<byte>, ghost o: seq<byte>, off: nat, ghost page: seq<byte>, k: nat, v: byte)
    returns (ghost page': seq<byte>)
    requires off + |page| <= |o| && k < |page| && buf[..] == Splice(o, off, page)
    modifies buf
    ensures page' == page[k := v] && buf[..] == Splice(o, off, page')
  {
    buf[off + k] := v;
    page' := page[k := v];
    assert buf[..] == Splice(o, off, page');
  }

  /**
   * Calls the handler of a table entry: `modesense_handlers[i].emulate(dev, pc, &buf[off])`.
   * Every handler stores bytes 0-1 of its page, so only the bytes after
   * them need to be zero.
   */
  method EmulateModePage(kind: PageKind, dev: Device, pc: nat, buf: array<byte>, off: nat) returns (n: nat)
    requires off + |ModePage(kind, dev, pc)| <= buf.Length
    requires ZeroFrom(buf[..], off + 2, |ModePage(kind, dev, pc)| - 2)
    modifies buf
    ensures n == |ModePage(kind, dev, pc)|
    ensures buf[..] == Splice(old(buf[..]), off, ModePage(kind, dev, pc))
  {
    match kind
    case RwRecovery => n := ModeSenseRwRecovery(dev, pc, buf, off);
    case Caching => n := ModeSenseCaching(dev, pc, buf, off);
    case Control => n := ModeSenseControl(dev, pc, buf, off);
    case InformationalExceptions => n := ModeSenseInformationalExceptions(dev, pc, buf, off);
  }

  // -------------------------------------------------------------------
  // Mode parameter header and block descriptors
  // -------------------------------------------------------------------

  /** Whether the FUA write emulation lets the header advertise DPOFUA. */
  predicate ReportsDpoFua(dev: Device)
  {
    dev.attrib.emulateWriteCache > 0 && dev.attrib.emulateFuaWrite > 0 && dev.deviceType == TYPE_DISK
  }

  /**
   * The DEVICE-SPECIFIC PARAMETER: WP for a read-only LUN (whatever the
   * device type), then DPOFUA ORed in for a disk with FUA write emulation.
   */
  function DeviceSpecific(dev: Device, readOnly: bool): byte
  {
    var wp: byte := if readOnly then Or(0, 0x80) else 0;
    if ReportsDpoFua(dev) then Or(wp, 0x10) else wp
  }

  /** The byte has exactly the WP bit for read-only access and the DPOFUA bit for FUA writes. */
  lemma DeviceSpecificBits(dev: Device, readOnly: bool)
    ensures DeviceSpecific(dev, readOnly) ==
      (if readOnly then 0x80 else 0) + (if ReportsDpoFua(dev) then 0x10 else 0)
    ensures Bit(DeviceSpecific(dev, readOnly), 7) <==> readOnly
    ensures Bit(DeviceSpecific(dev, readOnly), 4) <==> ReportsDpoFua(dev)
  {
    DeviceSpecificValue(dev, readOnly);
    assert Pow2(4) == 16 && Pow2(7) == 128;
    var v := DeviceSpecific(dev, readOnly);
    assert v == 0 || v == 0x10 || v == 0x80 || v == 0x90;
  }

  lemma DeviceSpecificValue(dev: Device, readOnly: bool)
    ensures DeviceSpecific(dev, readOnly) ==
      (if readOnly then 0x80 else 0) + (if ReportsDpoFua(dev) then 0x10 else 0)
  {
    assert Pow2(5) == 32 && Pow2(8) == 256;
    if readOnly {
      OrDisjoint(0, 0x80, 8, 8);
      if ReportsDpoFua(dev) {
        OrDisjoint(0x80, 0x10, 8, 5);
      }
    } else if ReportsDpoFua(dev) {
      OrDisjoint(0, 0x10, 8, 5);
    }
  }

  /** Short LBA block descriptor, after its one-byte BLOCK DESCRIPTOR LENGTH of 8. */
  function BlockDescriptor(blocks: u64): (d: seq<byte>)
    ensures |d| == 9
  {
    [8] + BE(Min(blocks, 0xffffffff), 4) + BE(512, 4)
  }

  /**
   * What target_modesense_long_blockdesc writes from header byte 4 on:
   * the short form behind three header bytes while the block count fits 32
   * bits, else LONGLBA, BLOCK DESCRIPTOR LENGTH 16 and a 16-byte descriptor.
   */
  function LongBlockDescriptor(blocks: u64): (d: seq<byte>)
    ensures |d| == if blocks <= 0xffffffff then 12 else 20
  {
    if blocks <= 0xffffffff then [0, 0, 0] + BlockDescriptor(blocks)
    else [1, 0, 0, 16] + BE(blocks, 8) + Zeros(4) + BE(512, 4)
  }

  /** The length target_modesense_long_blockdesc returns, as written. */
  function LongBlockDescLenAsWritten(blocks: u64): nat
  {
    if blocks <= 0xffffffff then 12 else 17
  }

  /** The length it should return: every byte it wrote. */
  function LongBlockDescLen(blocks: u64): (n: nat)
    ensures n == |LongBlockDescriptor(blocks)|
  {
    if blocks <= 0xffffffff then 12 else 20
  }

  /**
   * The corrected length covers the header bytes 4-7 plus the BLOCK
   * DESCRIPTOR LENGTH the descriptor itself reports.
   */
  lemma LongBlockDescLenCounts(blocks: u64)
    ensures LongBlockDescLen(blocks) == 4 + BEValue(LongBlockDescriptor(blocks)[2..4])
  {
    var d := LongBlockDescriptor(blocks);
    if blocks <= 0xffffffff {
      var tail: seq<byte> := BlockDescriptor(blocks)[1..];
      assert d == [0, 0, 0, 8] + tail;
      assert d[2..4] == [0, 8];
    } else {
      var tail: seq<byte> := BE(blocks, 8) + Zeros(4) + BE(512, 4);
      assert d == [1, 0, 0, 16] + tail;
      assert d[2..4] == [0, 16];
    }
    assert BEValue([0, 8]) == 8 && BEValue([0, 16]) == 16;
  }

  /**
   * As written, a block count above 32 bits makes the function return 17
   * for 20 bytes: the next page is written over the last three bytes of
   * the BLOCK LENGTH (0, 2, 0 for 512) and MODE DATA LENGTH is three short.
   */
  lemma LongBlockDescLenShort(blocks: u64)
    requires blocks > 0xffffffff
    ensures LongBlockDescLenAsWritten(blocks) + 3 == |LongBlockDescriptor(blocks)|
    ensures LongBlockDescLenAsWritten(blocks) != 4 + BEValue(LongBlockDescriptor(blocks)[2..4])
    ensures LongBlockDescriptor(blocks)[17..20] == [0, 2, 0]
  {
    LongBlockDescLenCounts(blocks);
    var head: seq<byte> := [1, 0, 0, 16] + BE(blocks, 8) + Zeros(4);
    assert LongBlockDescriptor(blocks) == head + BE(512, 4);
    BE512();
    assert (head + [0, 0, 2, 0])[17..20] == [0, 2, 0];
  }

  /**
   * The mode parameter header and block descriptor: the MODE DATA LENGTH
   * still zero, MEDIUM TYPE 0, the device-specific byte, then (unless DBD)
   * the block descriptor - the long form when MODE SENSE(10) sets LLBAA.
   */
  function ModeSenseHeader(dev: Device, readOnly: bool, cdb: seq<byte>): (h: seq<byte>)
    requires |cdb| >= 4
    ensures 4 <= |h| <= 24
  {
    var ten := cdb[0] == MODE_SENSE_10;
    var dbd := Bit(cdb[1], 3);
    var llba := ten && Bit(cdb[1], 4);
    var ds := DeviceSpecific(dev, readOnly);
    if ten then
      [0, 0, 0, ds]
      + (if dbd then Zeros(4)
         else if llba then LongBlockDescriptor(dev.blocks)
         else Zeros(3) + BlockDescriptor(dev.blocks))
    else
      [0, 0, ds] + (if dbd then Zeros(1) else BlockDescriptor(dev.blocks))
  }

  /** MODE SENSE(10) with LLBAA and a block count above 32 bits: the LONGLBA descriptor. */
  predicate LongLbaReply(dev: Device, cdb: seq<byte>)
    requires |cdb| >= 2
  {
    cdb[0] == MODE_SENSE_10 && !Bit(cdb[1], 3) && Bit(cdb[1], 4) && dev.blocks > 0xffffffff
  }

  /**
   * `length` after the header and block descriptor, where the pages go:
   * the end of the header, except that after a LONGLBA descriptor it is
   * 4 + 17, three bytes short of the descriptor's end. The bytes it leaves
   * behind from two past the cursor on are zero.
   */
  function HeaderCursor(dev: Device, readOnly: bool, cdb: seq<byte>): (c: nat)
    requires |cdb| >= 4
    ensures var h := ModeSenseHeader(dev, readOnly, cdb);
      4 <= c <= |h| && (c == |h| <==> !LongLbaReply(dev, cdb))
      && forall i :: c + 2 <= i < |h| ==> h[i] == 0
  {
    if LongLbaReply(dev, cdb) then
      LongLbaTail(dev, readOnly, cdb);
      4 + LongBlockDescLenAsWritten(dev.blocks)
    else |ModeSenseHeader(dev, readOnly, cdb)|
  }

  /** After a LONGLBA descriptor the header is 24 bytes, the last the BLOCK LENGTH's low byte, zero. */
  lemma LongLbaTail(dev: Device, readOnly: bool, cdb: seq<byte>)
    requires |cdb| >= 4 && LongLbaReply(dev, cdb)
    ensures |ModeSenseHeader(dev, readOnly, cdb)| == 24 && ModeSenseHeader(dev, readOnly, cdb)[23] == 0
  {
    var head: seq<byte> := [1, 0, 0, 16] + BE(dev.blocks, 8) + Zeros(4);
    assert LongBlockDescriptor(dev.blocks) == head + BE(512, 4);
    BE512();
  }

  // -------------------------------------------------------------------
  // Choosing the pages
  // -------------------------------------------------------------------

  /** The wildcard test `(subpage & ~requested) == 0`. */
  predicate WildcardSelects(h: Handler, subpage: byte)
  {
    And(h.subpage, Not(subpage)) == 0
  }

  /** The pages of the handlers hs the wildcard selects, in table order. */
  function WildcardPages(dev: Device, pc: nat, subpage: byte, hs: seq<Handler>): seq<byte>
  {
    if hs == [] then []
    else
      var last := hs[|hs| - 1];
      WildcardPages(dev, pc, subpage, hs[..|hs| - 1])
      + (if WildcardSelects(last, subpage) then ModePage(last.kind, dev, pc) else [])
  }

  /** All four pages, in table order. */
  function AllPages(dev: Device, pc: nat): (p: seq<byte>)
    ensures |p| == 56
  {
    ModePage(RwRecovery, dev, pc) + ModePage(Caching, dev, pc)
    + ModePage(Control, dev, pc) + ModePage(InformationalExceptions, dev, pc)
  }

  /**
   * Page 3Fh selects every page in the table, for subpage 00h as for FFh,
   * since no handler has a subpage.
   */
  lemma WildcardListsEveryPage(dev: Device, pc: nat, subpage: byte)
    ensures WildcardPages(dev, pc, subpage, MODESENSE_HANDLERS) == AllPages(dev, pc)
  {
    var hs := MODESENSE_HANDLERS;
    AndZero(Not(subpage), 8);
    assert forall i :: 0 <= i < |hs| ==> WildcardSelects(hs[i], subpage);
    assert hs[..1][..0] == [] && hs[..2][..1] == hs[..1] && hs[..3][..2] == hs[..2] && hs[..3] == hs[..|hs| - 1];
    assert WildcardPages(dev, pc, subpage, hs[..1]) == ModePage(RwRecovery, dev, pc);
    assert WildcardPages(dev, pc, subpage, hs[..2])
      == ModePage(RwRecovery, dev, pc) + ModePage(Caching, dev, pc);
    assert WildcardPages(dev, pc, subpage, hs[..3])
      == ModePage(RwRecovery, dev, pc) + ModePage(Caching, dev, pc) + ModePage(Control, dev, pc);
  }

  /** The first table entry for page/subpage, if any. */
  function FindHandler(page: byte, subpage: byte, hs: seq<Handler>): (r: Option<nat>)
    ensures r.Some? ==> r.value < |hs| && hs[r.value].page == page && hs[r.value].subpage == subpage
    ensures r.Some? ==> forall j :: 0 <= j < r.value ==> !(hs[j].page == page && hs[j].subpage == subpage)
    ensures r.None? <==> forall j :: 0 <= j < |hs| ==> !(hs[j].page == page && hs[j].subpage == subpage)
  {
    if hs == [] then None
    else if hs[0].page == page && hs[0].subpage == subpage then Some(0)
    else match FindHandler(page, subpage, hs[1..])
      case Some(j) => Some(j + 1)
      case None => None
  }

  // -------------------------------------------------------------------
  // MODE SENSE
  // -------------------------------------------------------------------

  /** MODE DATA LENGTH: two bytes for MODE SENSE(10), one for MODE SENSE(6), counting what follows. */
  function SetModeDataLength(ten: bool, img: seq<byte>): (r: seq<byte>)
    requires |img| >= 2
    ensures |r| == |img|
  {
    if ten then BE(|img| - 2, 2) + img[2..] else [(|img| - 1) % 256] + img[1..]
  }

  /**
   * The pages MODE SENSE reports for the CDB's page and subpage: every page
   * for 3Fh (INVALID FIELD IN CDB when its subpage is neither 00h nor FFh),
   * else the table's page (UNKNOWN MODE PAGE when the table lacks it).
   */
  function ModeSensePages(dev: Device, cdb: seq<byte>): (r: Result<seq<byte>>)
    requires |cdb| >= 4
    ensures r.Ok? ==> 12 <= |r.value| <= 56
  {
    var pc := cdb[2] / 64;
    var page := And(cdb[2], 0x3f);
    var subpage := cdb[3];
    if page == 0x3f then
      if subpage != 0x00 && subpage != 0xff then Err(-EINVAL, InvalidCdbField)
      else
        WildcardListsEveryPage(dev, pc, subpage);
        Ok(WildcardPages(dev, pc, subpage, MODESENSE_HANDLERS))
    else
      match FindHandler(page, subpage, MODESENSE_HANDLERS)
      case Some(i) => Ok(ModePage(MODESENSE_HANDLERS[i].kind, dev, pc))
      case None => Err(-EINVAL, UnknownModePage)
  }

  /**
   * The reply to MODE SENSE(6) or MODE SENSE(10) as written: the header and
   * block descriptor up to the cursor, then the pages, with MODE DATA
   * LENGTH set; it fails exactly when choosing the pages does.
   */
  function ModeSense(dev: Device, readOnly: bool, cdb: seq<byte>): (r: Result<seq<byte>>)
    requires |cdb| >= 4
    ensures r.Err? <==> ModeSensePages(dev, cdb).Err?
    ensures r.Err? ==> r == Err(ModeSensePages(dev, cdb).rc, ModeSensePages(dev, cdb).reason)
    ensures r.Ok? ==>
      var c := HeaderCursor(dev, readOnly, cdb);
      |r.value| == c + |ModeSensePages(dev, cdb).value| && r.value[c..] == ModeSensePages(dev, cdb).value
      && r.value[2..c] == ModeSenseHeader(dev, readOnly, cdb)[2..c]
  {
    match ModeSensePages(dev, cdb)
    case Ok(pages) =>
      var c := HeaderCursor(dev, readOnly, cdb);
      var img := ModeSenseHeader(dev, readOnly, cdb)[..c] + pages;
      assert img[c..] == pages && img[2..c] == ModeSenseHeader(dev, readOnly, cdb)[2..c];
      SetModeDataLengthKeepsTail(cdb[0] == MODE_SENSE_10, img, 2);
      Ok(SetModeDataLength(cdb[0] == MODE_SENSE_10, img))
    case Err(rc, reason) => Err(rc, reason)
  }

  /** The length field SetModeDataLength stores counts the bytes after it. */
  lemma SetModeDataLengthCounts(ten: bool, img: seq<byte>)
    requires 2 <= |img| <= 80
    ensures ten ==> BEValue(SetModeDataLength(ten, img)[..2]) + 2 == |img|
    ensures !ten ==> SetModeDataLength(ten, img)[0] as int + 1 == |img|
  {
    if ten {
      assert SetModeDataLength(ten, img)[..2] == BE(|img| - 2, 2);
      BEExact(|img| - 2, 2);
    }
  }

  /**
   * A successful reply is at most 80 bytes and its MODE DATA LENGTH counts
   * the bytes after that field exactly, in either CDB size.
   */
  lemma ModeSenseDataLength(dev: Device, readOnly: bool, cdb: seq<byte>)
    requires |cdb| >= 4
    requires ModeSense(dev, readOnly, cdb).Ok?
    ensures var img := ModeSense(dev, readOnly, cdb).value;
      |img| <= 80 &&
      (cdb[0] == MODE_SENSE_10 ==> BEValue(img[..2]) + 2 == |img|) &&
      (cdb[0] != MODE_SENSE_10 ==> img[0] as int + 1 == |img|)
  {
    var ten := cdb[0] == MODE_SENSE_10;
    var body := ModeSenseHeader(dev, readOnly, cdb)[..HeaderCursor(dev, readOnly, cdb)] + ModeSensePages(dev, cdb).value;
    SetModeDataLengthCounts(ten, body);
  }

  // -------------------------------------------------------------------
  // The MODE SENSE emulator
  // -------------------------------------------------------------------

  /** target_modesense_write_protect: sets WP, the same bit for every device type. */
  method ModeSenseWriteProtect(buf: array<byte>, i: nat)
    requires i < buf.Length
    modifies buf
    ensures buf[..] == old(buf[..])[i := Or(old(buf[i]), 0x80)]
  {
    buf[i] := Or(buf[i], 0x80);
  }

  /** target_modesense_dpofua: sets DPOFUA for a disk, nothing for other types. */
  method ModeSenseDpoFua(buf: array<byte>, i: nat, deviceType: byte)
    requires i < buf.Length
    modifies buf
    ensures buf[..] == old(buf[..])[i := if deviceType == TYPE_DISK then Or(old(buf[i]), 0x10) else old(buf[i])]
  {
    if deviceType == TYPE_DISK {
      buf[i] := Or(buf[i], 0x10);
    }
  }

  /** Writes the device-specific byte at buf[i], which is still zero. */
  method WriteDeviceSpecific(dev: Device, readOnly: bool, buf: array<byte>, i: nat)
    requires i < buf.Length && buf[i] == 0
    modifies buf
    ensures buf[..] == old(buf[..])[i := DeviceSpecific(dev, readOnly)]
  {
    if readOnly {
      ModeSenseWriteProtect(buf, i);
    }
    if dev.attrib.emulateWriteCache > 0 && dev.attrib.emulateFuaWrite > 0 {
      ModeSenseDpoFua(buf, i, dev.deviceType);
    }
  }

  /** target_modesense_blockdesc: nine bytes at off, into a zeroed area. */
  method ModeSenseBlockDesc(buf: array<byte>, off: nat, blocks: u64) returns (n: nat)
    requires ZeroFrom(buf[..], off, 9)
    modifies buf
    ensures n == 9 && buf[..] == Splice(old(buf[..]), off, BlockDescriptor(blocks))
  {
    buf[off] := 8;
    PutBytes(buf, off + 1, BE(Min(blocks, 0xffffffff), 4));
    PutBytes(buf, off + 5, BE(512, 4));
    n := 9;
  }

  /**
   * target_modesense_long_blockdesc as written: the short form behind three
   * zero bytes, or the 20-byte LONGLBA form, returning 17 for the latter
   * (LongBlockDescLenShort; LongBlockDescLenCounts gives the intended 20).
   */
  method ModeSenseLongBlockDesc(buf: array<byte>, off: nat, blocks: u64) returns (n: nat)
    requires ZeroFrom(buf[..], off, |LongBlockDescriptor(blocks)|)
    modifies buf
    ensures n == LongBlockDescLenAsWritten(blocks)
    ensures buf[..] == Splice(old(buf[..]), off, LongBlockDescriptor(blocks))
  {
    if blocks <= 0xffffffff {
      ghost var o := buf[..];
      n := ModeSenseBlockDesc(buf, off + 3, blocks);
      SpliceAfterZeros(o, off, 3, BlockDescriptor(blocks));
      assert Zeros(3) + BlockDescriptor(blocks) == LongBlockDescriptor(blocks);
      return n + 3;
    }
    n := ModeSenseLongLba(buf, off, blocks);
  }

  /** The LONGLBA form of the long block descriptor, for a block count above 32 bits. */
  method ModeSenseLongLba(buf: array<byte>, off: nat, blocks: u64) returns (n: nat)
    requires blocks > 0xffffffff
    requires ZeroFrom(buf[..], off, 20)
    modifies buf
    ensures n == 17 && buf[..] == Splice(old(buf[..]), off, LongBlockDescriptor(blocks))
  {
    ghost var d := LongBlockDescriptor(blocks);
    buf[off] := 1;
    buf[off + 3] := 16;
    PutBytes(buf, off + 4, BE(blocks, 8));
    PutBytes(buf, off + 16, BE(512, 4));
    assert buf[off..off + 20] == d;
    n := 17;
  }

  /** Writes the block descriptor part of the header from byte `start` on. */
  method WriteBlockDescriptors(dev: Device, cdb: seq<byte>, buf: array<byte>, start: nat) returns (length: nat)
    requires |cdb| >= 4
    requires start == (if cdb[0] == MODE_SENSE_10 then 4 else 3)
    requires buf.Length >= SE_MODE_PAGE_BUF && ZeroFrom(buf[..], start, buf.Length - start)
    modifies buf
    ensures length == HeaderCursor(dev, false, cdb)
    ensures buf[..start] == old(buf[..start])
    ensures buf[start..|ModeSenseHeader(dev, false, cdb)|] == ModeSenseHeader(dev, false, cdb)[start..]
    ensures ZeroFrom(buf[..], |ModeSenseHeader(dev, false, cdb)|, buf.Length - |ModeSenseHeader(dev, false, cdb)|)
  {
    ghost var o := buf[..];
    var ten := cdb[0] == MODE_SENSE_10;
    var dbd := Bit(cdb[1], 3);
    var llba := ten && Bit(cdb[1], 4);
    ghost var tail: seq<byte>;
    var n: nat;
    if !dbd {
      if ten {
        if llba {
          n := ModeSenseLongBlockDesc(buf, start, dev.blocks);
          tail := LongBlockDescriptor(dev.blocks);
        } else {
          n := ModeSenseBlockDesc(buf, start + 3, dev.blocks);
          n := n + 3;
          tail := Zeros(3) + BlockDescriptor(dev.blocks);
          SpliceAfterZeros(o, start, 3, BlockDescriptor(dev.blocks));
        }
      } else {
        n := ModeSenseBlockDesc(buf, start, dev.blocks);
        tail := BlockDescriptor(dev.blocks);
      }
    } else {
      n := if ten then 4 else 1;
      tail := Zeros(n);
      SpliceAfterZeros(o, start, n, []);
    }
    assert tail == ModeSenseHeader(dev, false, cdb)[start..];
    length := start + n;
    SpliceIntoZeros(o, buf[..], start, tail);
    if LongLbaReply(dev, cdb) {
      LongLbaTail(dev, false, cdb);
    }
  }

  /** Writing d behind k zero bytes is writing those zeros and then d. */
  lemma SpliceAfterZeros(o: seq<byte>, off: nat, k: nat, d: seq<byte>)
    requires ZeroFrom(o, off, k) && off + k + |d| <= |o|
    ensures Splice(o, off + k, d) == Splice(o, off, Zeros(k) + d)
  {
  }

  /** Splicing d into a zeroed area keeps the prefix and leaves zeros behind it. */
  lemma SpliceIntoZeros(o: seq<byte>, b: seq<byte>, off: nat, d: seq<byte>)
    requires off + |d| <= |o| && ZeroFrom(o, off, |o| - off)
    requires b == Splice(o, off, d)
    ensures b[..off] == o[..off] && b[off..off + |d|] == d
    ensures ZeroFrom(b, off + |d|, |b| - off - |d|)
  {
  }

  /**
   * Writes the mode parameter header and block descriptor into a zeroed
   * buffer: `length` is the cursor the pages are written at, as written.
   */
  method WriteModeSenseHeader(dev: Device, readOnly: bool, cdb: seq<byte>, buf: array<byte>)
    returns (length: nat)
    requires |cdb| >= 4
    requires buf.Length >= SE_MODE_PAGE_BUF && ZeroFrom(buf[..], 0, buf.Length)
    modifies buf
    ensures length == HeaderCursor(dev, readOnly, cdb)
    ensures buf[..|ModeSenseHeader(dev, readOnly, cdb)|] == ModeSenseHeader(dev, readOnly, cdb)
    ensures ZeroFrom(buf[..], |ModeSenseHeader(dev, readOnly, cdb)|, buf.Length - |ModeSenseHeader(dev, readOnly, cdb)|)
  {
    var ten := cdb[0] == MODE_SENSE_10;
    length := if ten then 2 else 1;
    // MEDIUM TYPE is always 0 for SBC
    length := length + 1;
    WriteDeviceSpecific(dev, readOnly, buf, length);
    length := length + 1;
    ghost var head := buf[..length];
    length := WriteBlockDescriptors(dev, cdb, buf, length);
    ghost var h := ModeSenseHeader(dev, readOnly, cdb);
    assert h[..|head|] == head;
    assert h[|head|..] == ModeSenseHeader(dev, false, cdb)[|head|..];
    assert buf[..|h|] == buf[..|head|] + buf[|head|..|h|];
  }

  /** The table scan for a page/subpage. */
  method FindModePage(page: byte, subpage: byte) returns (r: Option<nat>)
    ensures r == FindHandler(page, subpage, MODESENSE_HANDLERS)
  {
    var i := 0;
    while i < |MODESENSE_HANDLERS|
      invariant 0 <= i <= |MODESENSE_HANDLERS|
      invariant forall j :: 0 <= j < i ==>
        !(MODESENSE_HANDLERS[j].page == page && MODESENSE_HANDLERS[j].subpage == subpage)
    {
      if MODESENSE_HANDLERS[i].page == page && MODESENSE_HANDLERS[i].subpage == subpage {
        return Some(i);
      }
      i := i + 1;
    }
    return None;
  }

  /** The wildcard list of one more handler. */
  lemma WildcardStep(dev: Device, pc: nat, subpage: byte, hs: seq<Handler>, i: nat)
    requires i < |hs|
    ensures WildcardSelects(hs[i], subpage) ==>
      WildcardPages(dev, pc, subpage, hs[..i + 1]) == WildcardPages(dev, pc, subpage, hs[..i]) + ModePage(hs[i].kind, dev, pc)
    ensures !WildcardSelects(hs[i], subpage) ==>
      WildcardPages(dev, pc, subpage, hs[..i + 1]) == WildcardPages(dev, pc, subpage, hs[..i])
  {
    assert hs[..i + 1][..i] == hs[..i];
    assert WildcardPages(dev, pc, subpage, hs[..i]) + [] == WildcardPages(dev, pc, subpage, hs[..i]);
  }

  /** Writing one more page right after the pages keeps the layout. */
  lemma PagesAtAppend(before: seq<byte>, mid: seq<byte>, after: seq<byte>, start: nat, pages: seq<byte>, page: seq<byte>)
    requires PagesAt(before, mid, start, pages) && start + |pages| + |page| <= |mid| && |page| >= 2
    requires after == Splice(mid, start + |pages|, page)
    ensures PagesAt(before, after, start, pages + page)
  {
    var end := start + |pages|;
    assert after[start..end + |page|] == after[start..end] + after[end..end + |page|];
  }

  /** A page handler called at the cursor, right after the pages written so far. */
  method AppendModePage(kind: PageKind, dev: Device, pc: nat, buf: array<byte>, start: nat, length: nat,
                        ghost before: seq<byte>, ghost pages: seq<byte>)
    returns (n: nat)
    requires PagesAt(before, buf[..], start, pages) && length == start + |pages|
    requires length + |ModePage(kind, dev, pc)| <= buf.Length
    modifies buf
    ensures n == |ModePage(kind, dev, pc)|
    ensures PagesAt(before, buf[..], start, pages + ModePage(kind, dev, pc))
  {
    ghost var mid := buf[..];
    n := EmulateModePage(kind, dev, pc, buf, length);
    PagesAtAppend(before, mid, buf[..], start, pages, ModePage(kind, dev, pc));
  }

  /**
   * The wildcard branch of target_emulate_modesense: every handler whose
   * subpage the request's subpage covers writes its page at the cursor.
   * For MODE SENSE(6) the walk stops before a page would reach byte 255;
   * with the four pages' 56 bytes the reply never gets there.
   */
  method WriteWildcardPages(dev: Device, pc: nat, subpage: byte, ten: bool, buf: array<byte>, start: nat)
    returns (length: nat)
    requires start <= 24 && buf.Length >= SE_MODE_PAGE_BUF && ZeroFrom(buf[..], start + 2, buf.Length - start - 2)
    modifies buf
    ensures length == start + |WildcardPages(dev, pc, subpage, MODESENSE_HANDLERS)|
    ensures PagesAt(old(buf[..]), buf[..], start, WildcardPages(dev, pc, subpage, MODESENSE_HANDLERS))
  {
    length := start;
    var i := 0;
    ghost var pages: seq<byte> := [];
    while i < |MODESENSE_HANDLERS|
      invariant 0 <= i <= |MODESENSE_HANDLERS|
      invariant pages == WildcardPages(dev, pc, subpage, MODESENSE_HANDLERS[..i])
      invariant length == start + |pages| <= start + 20 * i
      invariant PagesAt(old(buf[..]), buf[..], start, pages)
    {
      var h := MODESENSE_HANDLERS[i];
      WildcardStep(dev, pc, subpage, MODESENSE_HANDLERS, i);
      if WildcardSelects(h, subpage) {
        var ret := AppendModePage(h.kind, dev, pc, buf, start, length, old(buf[..]), pages);
        assert length + ret < 255;
        if !ten && length + ret >= 255 {
          break;
        }
        pages := pages + ModePage(h.kind, dev, pc);
        length := length + ret;
      }
      i := i + 1;
    }
    assert MODESENSE_HANDLERS[..i] == MODESENSE_HANDLERS;
  }

  /** set_length: stores MODE DATA LENGTH over the first one or two header bytes. */
  method PutModeDataLength(ten: bool, buf: array<byte>, length: nat)
    requires 4 <= length <= buf.Length
    modifies buf
    ensures buf[..length] == SetModeDataLength(ten, old(buf[..length]))
    ensures buf[length..] == old(buf[length..])
  {
    ghost var o := buf[..length];
    if ten {
      buf[0] := ((length - 2) / 256) % 256;
      buf[1] := (length - 2) % 256;
      assert BE(length - 2, 2) == [((length - 2) / 256) % 256, (length - 2) % 256];
      assert buf[..length] == [buf[0], buf[1]] + o[2..];
    } else {
      buf[0] := (length - 1) % 256;
      assert buf[..length] == [buf[0]] + o[1..];
    }
  }

  /** What the data-in buffer holds after MODE SENSE: the reply, or only the header on a failure. */
  function ModeSenseImage(dev: Device, readOnly: bool, cdb: seq<byte>): (img: seq<byte>)
    requires |cdb| >= 4
    ensures |img| <= 80
  {
    match ModeSense(dev, readOnly, cdb)
    case Ok(img) => ModeSenseDataLength(dev, readOnly, cdb); img
    case Err(_, _) => ModeSenseHeader(dev, readOnly, cdb)
  }

  /** On success the buffer image is the reply: the header up to the cursor and the pages, with MODE DATA LENGTH set. */
  lemma ModeSenseImageOk(dev: Device, readOnly: bool, cdb: seq<byte>)
    requires |cdb| >= 4 && ModeSensePages(dev, cdb).Ok?
    ensures var c := HeaderCursor(dev, readOnly, cdb);
      var body := ModeSenseHeader(dev, readOnly, cdb)[..c] + ModeSensePages(dev, cdb).value;
      ModeSenseImage(dev, readOnly, cdb) == SetModeDataLength(cdb[0] == MODE_SENSE_10, body)
      && ModeSenseReply(dev, readOnly, cdb) == Ok(|body|)
  {
  }

  /** On a failure the buffer keeps the header and the error is the page choice's. */
  lemma ModeSenseImageErr(dev: Device, readOnly: bool, cdb: seq<byte>)
    requires |cdb| >= 4 && ModeSensePages(dev, cdb).Err?
    ensures ModeSenseImage(dev, readOnly, cdb) == ModeSenseHeader(dev, readOnly, cdb)
    ensures ModeSenseReply(dev, readOnly, cdb) == Err(ModeSensePages(dev, cdb).rc, ModeSensePages(dev, cdb).reason)
  {
  }

  /** What target_emulate_modesense returns: the reply length, or -EINVAL with the sense reason. */
  function ModeSenseReply(dev: Device, readOnly: bool, cdb: seq<byte>): Result<nat>
    requires |cdb| >= 4
  {
    match ModeSense(dev, readOnly, cdb)
    case Ok(img) => Ok(|img|)
    case Err(rc, reason) => Err(rc, reason)
  }

  /**
   * target_emulate_modesense on a zeroed buffer of at least SE_MODE_PAGE_BUF
   * bytes: the buffer ends up holding ModeSenseImage and zeros.
   */
  method EmulateModeSense(dev: Device, readOnly: bool, cdb: seq<byte>, buf: array<byte>)
    returns (r: Result<nat>)
    requires |cdb| >= 4
    requires buf.Length >= SE_MODE_PAGE_BUF && ZeroFrom(buf[..], 0, buf.Length)
    modifies buf
    ensures r == ModeSenseReply(dev, readOnly, cdb)
    ensures buf[..|ModeSenseImage(dev, readOnly, cdb)|] == ModeSenseImage(dev, readOnly, cdb)
    ensures ZeroFrom(buf[..], |ModeSenseImage(dev, readOnly, cdb)|, buf.Length - |ModeSenseImage(dev, readOnly, cdb)|)
  {
    var ten := cdb[0] == MODE_SENSE_10;
    var length := WriteModeSenseHeader(dev, readOnly, cdb, buf);
    HeaderLeavesRoom(buf[..], ModeSenseHeader(dev, readOnly, cdb), length);
    ghost var before := buf[..];
    assert length <= 24 <= |before|;
    r := WriteModePages(dev, cdb, buf, length);
    if r.Err? {
      ModeSenseImageErr(dev, readOnly, cdb);
      return;
    }
    ModeSenseImageOk(dev, readOnly, cdb);
    PutReplyLength(ten, buf, r.value, before, before[..length], ModeSensePages(dev, cdb).value);
  }

  /** set_length once the pages follow the header part `hdr`: the reply is complete and zeros follow it. */
  method PutReplyLength(ten: bool, buf: array<byte>, length: nat,
                        ghost before: seq<byte>, ghost hdr: seq<byte>, ghost pages: seq<byte>)
    requires 4 <= |hdr| && |pages| >= 2 && length == |hdr| + |pages|
    requires |hdr| <= |before| && before[..|hdr|] == hdr && PagesAt(before, buf[..], |hdr|, pages)
    modifies buf
    ensures buf[..length] == SetModeDataLength(ten, hdr + pages)
    ensures ZeroFrom(buf[..], length, buf.Length - length)
  {
    assert buf[..length] == hdr + pages;
    PutModeDataLength(ten, buf, length);
  }

  /**
   * A buffer holding header h, zero after it, with only zeros in h from two
   * past the cursor on: the pages can go at the cursor.
   */
  lemma HeaderLeavesRoom(b: seq<byte>, h: seq<byte>, length: nat)
    requires |h| <= |b| && b[..|h|] == h && ZeroFrom(b, |h|, |b| - |h|)
    requires length <= |h| && length + 2 <= |b| && forall i :: length + 2 <= i < |h| ==> h[i] == 0
    ensures b[..length] == h[..length]
    ensures ZeroFrom(b, length + 2, |b| - length - 2)
  {
    assert b[..length] == b[..|h|][..length];
    forall i | length + 2 <= i < |b|
      ensures b[i] == 0
    {
      if i < |h| {
        assert b[i] == b[..|h|][i] == h[i];
      }
    }
  }

  /**
   * `after` is `before` with `pages` written at `start`: the first start
   * bytes untouched and everything after the pages still zero, except
   * perhaps the two bytes at `start` while no page is written there.
   */
  ghost predicate PagesAt(before: seq<byte>, after: seq<byte>, start: nat, pages: seq<byte>)
  {
    var end := start + |pages|;
    end <= |after| == |before| && after[..start] == before[..start]
    && after[start..end] == pages
    && forall k :: end <= k < |after| && start + 2 <= k ==> after[k] == 0
  }

  /**
   * The buffer after writing the pages at `start`: on an error nothing is
   * written; otherwise the pages follow the untouched first `start` bytes,
   * the cursor moves past them and the rest of the buffer is still zero.
   */
  ghost predicate PagesWritten(want: Result<seq<byte>>, r: Result<nat>, start: nat, before: seq<byte>, after: seq<byte>)
  {
    match want
    case Err(rc, reason) => r == Err(rc, reason) && after == before
    case Ok(pages) => r == Ok(start + |pages|) && PagesAt(before, after, start, pages)
  }

  /**
   * The page part of target_emulate_modesense, at the cursor `start`: on
   * success the new cursor, on failure the error, with nothing written.
   */
  method WriteModePages(dev: Device, cdb: seq<byte>, buf: array<byte>, start: nat) returns (r: Result<nat>)
    requires |cdb| >= 4 && start <= 24
    requires buf.Length >= SE_MODE_PAGE_BUF && ZeroFrom(buf[..], start + 2, buf.Length - start - 2)
    modifies buf
    ensures PagesWritten(ModeSensePages(dev, cdb), r, start, old(buf[..]), buf[..])
  {
    var ten := cdb[0] == MODE_SENSE_10;
    var pc := cdb[2] / 64;
    var page := And(cdb[2], 0x3f);
    var subpage := cdb[3];
    if page == 0x3f {
      if subpage != 0x00 && subpage != 0xff {
        return Err(-EINVAL, InvalidCdbField);
      }
      var length := WriteWildcardPages(dev, pc, subpage, ten, buf, start);
      return Ok(length);
    }
    var found := FindModePage(page, subpage);
    if found.None? {
      return Err(-EINVAL, UnknownModePage);
    }
    var kind := MODESENSE_HANDLERS[found.value].kind;
    var n := EmulateModePage(kind, dev, pc, buf, start);
    PagesAtAppend(old(buf[..]), old(buf[..]), buf[..], start, [], ModePage(kind, dev, pc));
    return Ok(start + n);
  }

  /**
   * The bounce buffer around target_emulate_modesense: a buffer shorter
   * than SE_MODE_PAGE_BUF that the transport did not allocate itself is
   * replaced by a zeroed SE_MODE_PAGE_BUF-byte one (ENOMEM and LOGICAL UNIT
   * COMMUNICATION FAILURE when that allocation fails) whose first bytes are
   * copied back. An unknown page returns before the copy, so then the
   * caller's buffer is left as it was.
   */
  method TargetEmulateModeSense(dev: Device, readOnly: bool, cdb: seq<byte>, mapBuf: array<byte>,
                                noAlloc: bool, allocOk: bool)
    returns (r: Result<nat>)
    requires |cdb| >= 4
    requires mapBuf.Length >= SE_MODE_PAGE_BUF || noAlloc
    requires ZeroFrom(mapBuf[..], 0, mapBuf.Length)
    modifies mapBuf
    ensures mapBuf.Length < SE_MODE_PAGE_BUF && noAlloc && !allocOk ==>
      r == Err(-ENOMEM, LogicalUnitCommunicationFailure) && mapBuf[..] == old(mapBuf[..])
    ensures !(mapBuf.Length < SE_MODE_PAGE_BUF && noAlloc && !allocOk) ==>
      r == ModeSenseReply(dev, readOnly, cdb)
    ensures mapBuf.Length < SE_MODE_PAGE_BUF && noAlloc && r == Err(-EINVAL, UnknownModePage) ==>
      mapBuf[..] == old(mapBuf[..])
    ensures !(mapBuf.Length < SE_MODE_PAGE_BUF && noAlloc) || (allocOk && r != Err(-EINVAL, UnknownModePage)) ==>
      mapBuf[..] == Padded(ModeSenseImage(dev, readOnly, cdb), Max(mapBuf.Length, SE_MODE_PAGE_BUF))[..mapBuf.Length]
  {
    if mapBuf.Length < SE_MODE_PAGE_BUF && noAlloc {
      if !allocOk {
        return Err(-ENOMEM, LogicalUnitCommunicationFailure);
      }
      var buf := new byte[SE_MODE_PAGE_BUF](_ => 0);
      r := EmulateModeSense(dev, readOnly, cdb, buf);
      if r == Err(-EINVAL, UnknownModePage) {
        return;
      }
      assert buf[..] == Padded(ModeSenseImage(dev, readOnly, cdb), SE_MODE_PAGE_BUF);
      PutBytes(mapBuf, 0, buf[..mapBuf.Length]);
    } else {
      r := EmulateModeSense(dev, readOnly, cdb, mapBuf);
      assert mapBuf[..] == Padded(ModeSenseImage(dev, readOnly, cdb), mapBuf.Length);
    }
  }

  /** With PC=1 every field after the page header reads zero: nothing is changeable. */
  lemma NothingChangeable(dev: Device, kind: PageKind)
    ensures forall k :: 2 <= k < |ModePage(kind, dev, 1)| ==> ModePage(kind, dev, 1)[k] == 0
  {
  }

  // -------------------------------------------------------------------
  // MODE SELECT
  // -------------------------------------------------------------------

  /** The current values of table entry i: what its handler writes for PC=0. */
  function CurrentPage(dev: Device, i: nat): (p: seq<byte>)
    requires i < |MODESENSE_HANDLERS|
  {
    ModePage(MODESENSE_HANDLERS[i].kind, dev, 0)
  }

  /** Where the page starts in a MODE SELECT parameter list: after its header. */
  function SelectPageOffset(cdb: seq<byte>): nat
    requires |cdb| >= 1
  {
    if cdb[0] == MODE_SELECT_10 then 8 else 4
  }

  /**
   * target_emulate_modeselect: with PF set, the page the parameter list
   * names (its subpage only when SPF is set) must be in the table and the
   * list must repeat its current values byte for byte; nothing is changed.
   * The mapped data-out buffer is at least 28 bytes (a page), so the page
   * is read whatever the parameter list length says.
   */
  function ModeSelect(dev: Device, cdb: seq<byte>, data: seq<byte>): (d: Disposition)
    requires |cdb| >= 2 && |data| >= 28
    ensures d == Good || d == Failed(-EINVAL, Some(InvalidCdbField)) || d == Failed(-EINVAL, Some(UnknownModePage))
    ensures d != Failed(-EINVAL, Some(InvalidCdbField)) ==> Bit(cdb[1], 4)
  {
    var off := SelectPageOffset(cdb);
    if !Bit(cdb[1], 4) then Failed(-EINVAL, Some(InvalidCdbField))
    else
      var page := And(data[off], 0x3f);
      var subpage := if Bit(data[off], 6) then data[off + 1] else 0;
      match FindHandler(page, subpage, MODESENSE_HANDLERS)
      case None => Failed(-EINVAL, Some(UnknownModePage))
      case Some(i) =>
        if data[off..off + |CurrentPage(dev, i)|] != CurrentPage(dev, i) then Failed(-EINVAL, Some(InvalidCdbField))
        else Good
  }

  /** The emulator: the table scan, the page built in a zeroed tbuf, and memcmp. */
  method EmulateModeSelect(dev: Device, cdb: seq<byte>, data: seq<byte>) returns (d: Disposition)
    requires |cdb| >= 2 && |data| >= 28
    ensures d == ModeSelect(dev, cdb, data)
  {
    var ten := cdb[0] == MODE_SELECT_10;
    var off := if ten then 8 else 4;
    var pf := Bit(cdb[1], 4);
    if !pf {
      return Failed(-EINVAL, Some(InvalidCdbField));
    }
    var page := And(data[off], 0x3f);
    var subpage := if Bit(data[off], 6) then data[off + 1] else 0;
    var found := FindModePage(page, subpage);
    if found.None? {
      return Failed(-EINVAL, Some(UnknownModePage));
    }
    var tbuf := new byte[SE_MODE_PAGE_BUF](_ => 0);
    var length := EmulateModePage(MODESENSE_HANDLERS[found.value].kind, dev, 0, tbuf, 0);
    assert tbuf[..length] == CurrentPage(dev, found.value);
    assert off == SelectPageOffset(cdb) && data[off..][..length] == data[off..off + length];
    var same := MemEqual(data[off..], tbuf, length);
    if !same {
      return Failed(-EINVAL, Some(InvalidCdbField));
    }
    return Good;
  }

  /** A page code below 40h survives the 3Fh mask and has the SPF bit clear. */
  lemma LowPageCode(p: byte)
    requires p < 0x40
    ensures And(p, 0x3f) == p
    ensures !Bit(p, 6)
  {
    var m := Pow2(6);
    assert m == 64;
    AndLowMask(p, 6, 8);
    assert AndBits(p, m - 1, 8) == p;
  }

  /** The same for the page code of a table entry. */
  lemma TablePageCode(i: nat)
    requires i < |MODESENSE_HANDLERS|
    ensures And(MODESENSE_HANDLERS[i].page, 0x3f) == MODESENSE_HANDLERS[i].page
    ensures !Bit(MODESENSE_HANDLERS[i].page, 6)
  {
    HandlerTableShape();
    LowPageCode(MODESENSE_HANDLERS[i].page);
  }

  /**
   * MODE SELECT succeeds exactly when PF is set and the parameter list
   * carries one of the table's pages with its current values.
   */
  lemma ModeSelectAcceptsOnlyCurrent(dev: Device, cdb: seq<byte>, data: seq<byte>)
    requires |cdb| >= 2 && |data| >= 28
    ensures ModeSelect(dev, cdb, data) == Good <==>
      Bit(cdb[1], 4) &&
      exists i :: 0 <= i < |MODESENSE_HANDLERS| &&
        data[SelectPageOffset(cdb)..SelectPageOffset(cdb) + |CurrentPage(dev, i)|] == CurrentPage(dev, i)
  {
    var off := SelectPageOffset(cdb);
    if Bit(cdb[1], 4) {
      if i :| 0 <= i < |MODESENSE_HANDLERS| && data[off..off + |CurrentPage(dev, i)|] == CurrentPage(dev, i) {
        ModePageHeaders(dev, 0, i);
        assert data[off] == MODESENSE_HANDLERS[i].page;
        TablePageCode(i);
        HandlerTableShape();
        assert FindHandler(MODESENSE_HANDLERS[i].page, 0, MODESENSE_HANDLERS) == Some(i);
      }
    }
  }

  /**
   * Sending back what MODE SENSE with DBD reported as a page's current
   * values, in the matching CDB size with PF set, is accepted whatever
   * follows the page.
   */
  lemma ModeSenseSelectRoundTrip(dev: Device, readOnly: bool, senseCdb: seq<byte>, selectCdb: seq<byte>,
                                 i: nat, rest: seq<byte>)
    requires |senseCdb| >= 4 && |selectCdb| >= 2 && i < |MODESENSE_HANDLERS|
    requires Bit(senseCdb[1], 3) && senseCdb[2] == MODESENSE_HANDLERS[i].page && senseCdb[3] == 0
    requires (senseCdb[0] == MODE_SENSE_10) == (selectCdb[0] == MODE_SELECT_10)
    requires Bit(selectCdb[1], 4)
    ensures ModeSense(dev, readOnly, senseCdb).Ok?
    ensures |ModeSense(dev, readOnly, senseCdb).value + rest| >= 28 ==>
      ModeSelect(dev, selectCdb, ModeSense(dev, readOnly, senseCdb).value + rest) == Good
  {
    var off := SelectPageOffset(selectCdb);
    var cur := CurrentPage(dev, i);
    ModeSenseReportsCurrentPage(dev, readOnly, senseCdb, i);
    var img := ModeSense(dev, readOnly, senseCdb).value;
    assert |ModeSenseHeader(dev, readOnly, senseCdb)| == off;
    assert HeaderCursor(dev, readOnly, senseCdb) == off;
    assert img[off..] == cur;
    if |img + rest| >= 28 {
      assert (img + rest)[off..off + |cur|] == cur;
      ModeSelectAcceptsOnlyCurrent(dev, selectCdb, img + rest);
    }
  }

  /** MODE SENSE for a table page with PC=0 reports its current values after the header. */
  lemma ModeSenseReportsCurrentPage(dev: Device, readOnly: bool, cdb: seq<byte>, i: nat)
    requires |cdb| >= 4 && i < |MODESENSE_HANDLERS|
    requires cdb[2] == MODESENSE_HANDLERS[i].page && cdb[3] == 0
    ensures ModeSensePages(dev, cdb) == Ok(CurrentPage(dev, i))
    ensures ModeSense(dev, readOnly, cdb).Ok?
    ensures var img := ModeSense(dev, readOnly, cdb).value;
      var c := HeaderCursor(dev, readOnly, cdb);
      |img| == c + |CurrentPage(dev, i)| && img[c..] == CurrentPage(dev, i)
  {
    ModeSensePagesCurrent(dev, cdb, i);
  }

  /** The page list for a table page with PC=0 is that page's current values. */
  lemma ModeSensePagesCurrent(dev: Device, cdb: seq<byte>, i: nat)
    requires |cdb| >= 4 && i < |MODESENSE_HANDLERS|
    requires cdb[2] == MODESENSE_HANDLERS[i].page && cdb[3] == 0
    ensures ModeSensePages(dev, cdb) == Ok(CurrentPage(dev, i))
  {
    TablePageCode(i);
    HandlerTableShape();
    assert FindHandler(MODESENSE_HANDLERS[i].page, 0, MODESENSE_HANDLERS) == Some(i);
    assert cdb[2] / 64 == 0;
  }

  /** Setting MODE DATA LENGTH leaves every byte from the block descriptor on alone. */
  lemma SetModeDataLengthKeepsTail(ten: bool, img: seq<byte>, k: nat)
    requires 2 <= k <= |img|
    ensures SetModeDataLength(ten, img)[k..] == img[k..]
  {
  }
}
