/*
 * INQUIRY emulation: standard INQUIRY data (SPC-4 section 6.4.2) and the
 * vital product data pages 00h, 80h, 83h, 86h, B0h, B1h and B2h.
 *
 * Each page is specified by a function giving its bytes; the emulators fill
 * the zeroed data-in buffer in place and are proved to leave exactly that
 * image in it.
 */
module Inquiry {
  import opened Common
  import opened TargetTypes

  /** The evpd_handlers[] table: the VPD page codes served, in table order. */
  const EVPD_PAGES: seq<byte> := [0x00, 0x80, 0x83, 0x86, 0xb0, 0xb1, 0xb2]

  /** Size of the standard INQUIRY data (ADDITIONAL LENGTH 91 plus the 5-byte header). */
  const INQUIRY_STD_LEN: nat := 96

  const SPACE: byte := 0x20
  const COLON: byte := 0x3a

  // -------------------------------------------------------------------
  // Standard INQUIRY data
  // -------------------------------------------------------------------

  /**
   * Byte 5 when ALUA is emulated: SCCS, plus the TPGS bits of the port's
   * target port group when the port is in one.
   */
  function AluaByte(port: Option<Port>): byte
  {
    match port
    case Some(p) =>
      (match p.tgPtGp
       case Some(g) => Or(0x80, g.accessType)
       case None => 0x80)
    case None => 0x80
  }

  /** SAM-4, the fabric's own descriptor when it provides one, SPC-4, SBC-3. */
  function VersionDescriptors(port: Option<Port>): (v: seq<byte>)
    ensures |v| == if port.Some? && port.value.fabricVersDesc.Some? then 8 else 6
  {
    var fabric: seq<byte> :=
      if port.Some? && port.value.fabricVersDesc.Some? then port.value.fabricVersDesc.value else [];
    [0x00, 0x80] + fabric + [0x04, 0x60, 0x04, 0xc0]
  }

  /** Bytes 0-7: peripheral byte, RMB, version, response format, additional length, flags. */
  function StdHeader(dev: Device, nexus: Nexus, byte0: byte): (h: seq<byte>)
    ensures |h| == 8
  {
    [byte0,
     if dev.deviceType == TYPE_TAPE then 0x80 else 0,
     dev.deviceRev,
     2,
     91,
     if dev.aluaEmulated then AluaByte(nexus.port) else 0,
     0x10,
     0x02]
  }

  /** Bytes 8-35: vendor, product and revision, each NUL-padded to its field. */
  function StdIdentification(dev: Device): (d: seq<byte>)
    ensures |d| == 28
  {
    StrNCpy(dev.vendorId, 8) + StrNCpy(dev.model, 16) + StrNCpy(dev.revision, 4)
  }

  /** Bytes 58-95: the version descriptors, then zeros. */
  function VersionArea(port: Option<Port>): (d: seq<byte>)
    ensures |d| == 38
  {
    var versions := VersionDescriptors(port);
    versions + Zeros(38 - |versions|)
  }

  /** The 96 bytes of standard INQUIRY data, byte 0 being the peripheral byte. */
  function StdInquiry(dev: Device, nexus: Nexus, byte0: byte): (d: seq<byte>)
    ensures |d| == INQUIRY_STD_LEN
  {
    StdHeader(dev, nexus, byte0) + StdIdentification(dev) + Zeros(22) + VersionArea(nexus.port)
  }

  // -------------------------------------------------------------------
  // Fixed-layout VPD pages
  // -------------------------------------------------------------------

  /** Supported VPD pages: the table's page codes, listed only once a unit serial is set. */
  function Evpd00(dev: Device, byte0: byte): seq<byte>
  {
    [byte0, 0x00, 0] + (if dev.unitSerial.Some? then [|EVPD_PAGES|] + EVPD_PAGES else [0])
  }

  /** Unit serial number page: the serial and its NUL, counted in byte 3. */
  function Evpd80(dev: Device, byte0: byte): seq<byte>
  {
    [byte0, 0x80, 0] +
    match dev.unitSerial
    case Some(s) => [(StrLen(s) + 1) % 256] + CStr(s) + [0]
    case None => [0]
  }

  /** Extended INQUIRY data page: HEADSUP/ORDSUP/SIMPSUP, V_SUP with write caching. */
  function Evpd86(dev: Device, byte0: byte): seq<byte>
  {
    [byte0, 0x86, 0, 0x3c, 0, 0x07, if dev.attrib.emulateWriteCache > 0 then 1 else 0] + Zeros(57)
  }

  predicate HasThinProvisioning(dev: Device)
  {
    dev.attrib.emulateTpu != 0 || dev.attrib.emulateTpws != 0
  }

  /** UNMAP GRANULARITY ALIGNMENT with the UGAVALID bit set when it is nonzero. */
  function AlignmentField(align: u32): (f: seq<byte>)
    ensures |f| == 4
  {
    var a := BE(align, 4);
    if align != 0 then [Or(a[0], 0x80)] + a[1..] else a
  }

  /** Block Limits page (SBC-3 section 6.5.3): 64 bytes with thin provisioning, else 20. */
  function EvpdB0(dev: Device): seq<byte>
  {
    var at := dev.attrib;
    [dev.deviceType, 0xb0, 0, if HasThinProvisioning(dev) then 0x3c else 0x10, 0x01, 1]
    + BE(1, 2) + BE(at.fabricMaxSectors, 4) + BE(at.optimalSectors, 4)
    + if HasThinProvisioning(dev) then
        Zeros(4) + BE(at.maxUnmapLbaCount, 4) + BE(at.maxUnmapBlockDescCount, 4)
        + BE(at.unmapGranularity, 4) + AlignmentField(at.unmapGranularityAlignment)
        + BE(0x10000000, 8) + Zeros(20)
      else Zeros(4)
  }

  /** Block Device Characteristics page. */
  function EvpdB1(dev: Device): seq<byte>
  {
    [dev.deviceType, 0xb1, 0, 0x3c, 0, if dev.attrib.isNonrot then 1 else 0] + Zeros(58)
  }

  /** Byte 5 of the Thin Provisioning page: TPU (with LBPRZ) and TPWS bits. */
  function ProvisioningBits(dev: Device): byte
  {
    Or(if dev.attrib.emulateTpu != 0 then 0x84 else 0,
       if dev.attrib.emulateTpws != 0 then 0x64 else 0)
  }

  /** Thin Provisioning page (SBC-3 section 6.5.4), DP=0 layout. */
  function EvpdB2(dev: Device): seq<byte>
  {
    [dev.deviceType, 0xb2] + BE(4, 2) + [0, ProvisioningBits(dev), 2, 0]
  }

  // -------------------------------------------------------------------
  // NAA IEEE Registered Extended designator: the vendor-specific part
  // -------------------------------------------------------------------

  type nibble = x: int | 0 <= x < 16

  predicate IsHexDigit(c: byte)
  {
    0x30 <= c <= 0x39 || 0x41 <= c <= 0x46 || 0x61 <= c <= 0x66
  }

  /** hex_to_bin: the digit's value, or -1 for any other character. */
  function HexToBin(c: byte): (v: int)
    ensures -1 <= v < 16
    ensures v >= 0 <==> IsHexDigit(c)
  {
    if 0x30 <= c <= 0x39 then c - 0x30
    else if 0x41 <= c <= 0x46 then c - 0x41 + 10
    else if 0x61 <= c <= 0x66 then c - 0x61 + 10
    else -1
  }

  /** The values of the hex digits of s, in order, other characters skipped. */
  function HexDigits(s: seq<byte>): seq<nibble>
  {
    if s == [] then []
    else HexDigits(s[..|s| - 1]) + (if IsHexDigit(s[|s| - 1]) then [HexToBin(s[|s| - 1])] else [])
  }

  /** Output byte i of a packing of nibbles, high nibble first, missing nibbles 0. */
  function PackedByte(d: seq<nibble>, i: nat): byte
  {
    if 2 * i + 1 < |d| then (d[2 * i] as int) * 16 + d[2 * i + 1]
    else if 2 * i < |d| then (d[2 * i] as int) * 16
    else 0
  }

  function Pack(d: seq<nibble>, n: nat): (p: seq<byte>)
    ensures |p| == n
  {
    seq(n, i requires 0 <= i => PackedByte(d, i))
  }

  /** The 13 bytes target_parse_naa_6h_vendor_specific derives from the unit serial. */
  function NaaVendorSpecific(serial: seq<byte>): (v: seq<byte>)
    ensures |v| == 13
  {
    Pack(HexDigits(CStr(serial)), 13)
  }

  lemma {:induction false} HexDigitsAppend(a: seq<byte>, b: seq<byte>)
    ensures HexDigits(a + b) == HexDigits(a) + HexDigits(b)
  {
    if b != [] {
      var c := b[|b| - 1];
      var b' := b[..|b| - 1];
      assert (a + b)[..|a + b| - 1] == a + b';
      HexDigitsAppend(a, b');
    } else {
      assert a + b == a;
    }
  }

  /** A non-hex character anywhere in the serial leaves the identifier unchanged. */
  lemma NaaSkipsNonHex(a: seq<byte>, c: byte, b: seq<byte>)
    requires !IsHexDigit(c)
    ensures HexDigits(a + [c] + b) == HexDigits(a + b)
  {
    HexDigitsAppend(a + [c], b);
    HexDigitsAppend(a, [c]);
    HexDigitsAppend(a, b);
    assert [c][..0] == [];
  }

  /** Nibbles past the 26th (13 bytes) never reach the identifier. */
  lemma PackIgnoresLaterDigits(d: seq<nibble>, e: seq<nibble>)
    requires |d| >= 26
    ensures Pack(d + e, 13) == Pack(d, 13)
  {
    forall i | 0 <= i < 13
      ensures Pack(d + e, 13)[i] == Pack(d, 13)[i]
    {
    }
  }

  /** The parse stops at the serial's terminator: nothing after a NUL matters. */
  lemma NaaStopsAtNul(a: seq<byte>, b: seq<byte>)
    requires forall i :: 0 <= i < |a| ==> a[i] != 0
    ensures NaaVendorSpecific(a + [0] + b) == NaaVendorSpecific(a)
  {
    StrLenPrefix(a, b);
  }

  lemma {:induction false} StrLenPrefix(a: seq<byte>, b: seq<byte>)
    requires forall i :: 0 <= i < |a| ==> a[i] != 0
    ensures StrLen(a + [0] + b) == |a| == StrLen(a)
    ensures CStr(a + [0] + b) == a == CStr(a)
  {
    if a != [] {
      assert (a + [0] + b)[1..] == a[1..] + [0] + b;
      StrLenPrefix(a[1..], b);
    }
  }

  /** Appending a nibble changes exactly one packed byte: byte |d|/2. */
  lemma PackStep(d: seq<nibble>, v: nibble)
    requires |d| < 26
    ensures forall j :: 0 <= j < 13 && j != |d| / 2 ==> PackedByte(d + [v], j) == PackedByte(d, j)
    ensures PackedByte(d + [v], |d| / 2) ==
      if |d| % 2 == 0 then (v as int) * 16 else (d[|d| - 1] as int) * 16 + v
    ensures |d| % 2 == 1 ==> PackedByte(d, |d| / 2) == (d[|d| - 1] as int) * 16
  {
  }

  /** Appending a nibble to the packed digits stores one byte of the spliced buffer. */
  lemma PackSplice(o: seq<byte>, base: nat, d: seq<nibble>, v: nibble)
    requires base + 13 <= |o| && |d| < 26
    ensures Splice(o, base, Pack(d + [v], 13))
      == Splice(o, base, Pack(d, 13))[base + |d| / 2 := PackedByte(d + [v], |d| / 2)]
  {
    PackStep(d, v);
  }

  /** One more byte of the serial adds its digit, if it is one. */
  lemma HexDigitsStep(s: seq<byte>, p: nat)
    requires p < |s|
    ensures HexDigits(s[..p + 1]) == HexDigits(s[..p]) + (if HexToBin(s[p]) >= 0 then [HexToBin(s[p]) as nibble] else [])
  {
    assert s[..p + 1][..p] == s[..p];
  }

  /**
   * One hex digit of the serial: the low nibble of the current byte when
   * a high nibble is pending (`|=`), else the high nibble of the next one.
   */
  method PutNibble(buf: array<byte>, base: nat, cnt: nat, next: bool, val: nibble, ghost ds: seq<nibble>)
    returns (cnt': nat, next': bool)
    requires base + 13 <= buf.Length && cnt < 13 && |ds| == 2 * cnt + (if next then 1 else 0)
    requires buf[base + cnt] == PackedByte(ds, cnt)
    modifies buf
    ensures buf[..] == old(buf[..])[base + cnt := PackedByte(ds + [val], cnt)]
    ensures next' == !next && cnt' == (if next then cnt + 1 else cnt)
  {
    PackStep(ds, val);
    if next {
      OrNibbles(ds[|ds| - 1], val);
      buf[base + cnt] := Or(buf[base + cnt], val);
      cnt', next' := cnt + 1, false;
    } else {
      buf[base + cnt] := (val * 16) % 256;
      cnt', next' := cnt, true;
    }
  }

  /**
   * target_parse_naa_6h_vendor_specific: walks the unit serial, skipping
   * non-hex characters, until its NUL or 13 output bytes, putting each
   * digit in the high nibble of the next byte (`=`) or the low nibble of
   * the current one (`|=`).
   */
  method ParseNaaVendorSpecific(serial: seq<byte>, buf: array<byte>, base: nat)
    requires base + 13 <= buf.Length
    requires forall i :: base <= i < base + 13 ==> buf[i] == 0
    modifies buf
    ensures buf[..] == Splice(old(buf[..]), base, NaaVendorSpecific(serial))
  {
    ghost var o := buf[..];
    var p := 0;
    var cnt := 0;
    var next := false;
    ghost var ds: seq<nibble> := [];
    assert Pack([], 13) == Zeros(13);
    SpliceZeros13(o, base);
    while p < |serial| && serial[p] != 0 && cnt < 13
      invariant 0 <= p <= StrLen(serial)
      invariant NaaState(serial, o, buf[..], base, p, cnt, next, ds)
    {
      cnt, next, ds := NaaStep(serial, buf, base, p, cnt, next, o, ds);
      p := p + 1;
    }
    NaaParseDone(serial, p, ds);
  }

  /** An area of 13 zero bytes is unchanged by splicing 13 zeros into it. */
  lemma SpliceZeros13(o: seq<byte>, base: nat)
    requires base + 13 <= |o| && forall i :: base <= i < base + 13 ==> o[i] == 0
    ensures Splice(o, base, Zeros(13)) == o
  {
  }

  /**
   * The walk has read serial[..p]: its digits are ds, cnt whole bytes and
   * a pending high nibble when `next`, and the buffer is `o` with those
   * digits packed in at base.
   */
  ghost predicate NaaState(serial: seq<byte>, o: seq<byte>, b: seq<byte>, base: nat, p: nat,
                           cnt: nat, next: bool, ds: seq<nibble>)
  {
    p <= |serial| && ds == HexDigits(serial[..p])
    && cnt <= 13 && |ds| == 2 * cnt + (if next then 1 else 0) && (cnt == 13 ==> !next)
    && base + 13 <= |o| && b == Splice(o, base, Pack(ds, 13))
  }

  /** One character of the walk: a hex digit is packed in, anything else skipped. */
  method NaaStep(serial: seq<byte>, buf: array<byte>, base: nat, p: nat, cnt: nat, next: bool,
                 ghost o: seq<byte>, ghost ds: seq<nibble>)
    returns (cnt': nat, next': bool, ghost ds': seq<nibble>)
    requires p < |serial| && cnt < 13
    requires NaaState(serial, o, buf[..], base, p, cnt, next, ds)
    modifies buf
    ensures NaaState(serial, o, buf[..], base, p + 1, cnt', next', ds')
  {
    HexDigitsStep(serial, p);
    var val := HexToBin(serial[p]);
    cnt', next', ds' := cnt, next, ds;
    if val >= 0 {
      PackSplice(o, base, ds, val);
      assert |ds| / 2 == cnt;
      cnt', next' := PutNibble(buf, base, cnt, next, val, ds);
      ds' := ds + [val];
    }
  }

  /**
   * When the walk stops, at the terminator or with 26 digits taken, the
   * digits read so far pack to the field.
   */
  lemma NaaParseDone(serial: seq<byte>, p: nat, ds: seq<nibble>)
    requires p <= StrLen(serial) && ds == HexDigits(serial[..p])
    requires p < StrLen(serial) ==> |ds| >= 26
    ensures Pack(ds, 13) == NaaVendorSpecific(serial)
  {
    var n := StrLen(serial);
    assert serial[..n] == CStr(serial);
    if p < n {
      HexDigitsAppend(serial[..p], serial[p..n]);
      assert serial[..p] + serial[p..n] == CStr(serial);
      PackIgnoresLaterDigits(ds, HexDigits(serial[p..n]));
    }
  }

  // -------------------------------------------------------------------
  // Device identification page (VPD 83h)
  // -------------------------------------------------------------------

  /** The model name without its trailing blanks: `prod_len`. */
  function ProdLen(s: seq<byte>): (n: nat)
    ensures n <= |s|
    ensures forall i :: n <= i < |s| ==> s[i] == SPACE
    ensures n > 0 ==> s[n - 1] != SPACE
  {
    if s == [] then 0
    else if s[|s| - 1] == SPACE then ProdLen(s[..|s| - 1])
    else |s|
  }

  /** The loop that trims trailing blanks off the 16-byte model field. */
  method ProductLength(prod: Bytes16) returns (n: nat)
    ensures n == ProdLen(prod)
  {
    n := 16;
    while n > 0 && prod[n - 1] == SPACE
      invariant 0 <= n <= 16
      invariant ProdLen(prod[..n]) == ProdLen(prod)
    {
      assert prod[..n][..n - 1] == prod[..n - 1];
      n := n - 1;
    }
  }

  /** A designation descriptor whose DESIGNATOR LENGTH byte counts the bytes after its header. */
  predicate WellFormedDesignator(d: seq<byte>)
  {
    |d| >= 4 && d[3] == (|d| - 4) % 256
  }

  function NaaDesignator(serial: seq<byte>): (d: seq<byte>)
    ensures |d| == 20
  {
    [0x01, 0x03, 0x00, 0x10,
     Or(0x60, (PURE_OUI / 0x100000) % 16),
     (PURE_OUI / 0x1000) % 256,
     (PURE_OUI / 0x10) % 256,
     (PURE_OUI * 0x10) % 256]
    + NaaVendorSpecific(serial)[..12]
  }

  /** T10 vendor ID designator: vendor, then "<model>:<serial>" when a serial is set. */
  function T10VendorDesignator(dev: Device): seq<byte>
  {
    T10Designator(dev, ProdLen(dev.model))
  }

  /** The T10 vendor designator built from a given `prod_len`. */
  function T10Designator(dev: Device, prodLen: nat): seq<byte>
    requires prodLen <= |dev.model|
  {
    var ident := dev.vendorId +
      match dev.unitSerial
      case Some(s) => dev.model[..prodLen] + [COLON] + CStr(s)
      case None => [];
    [0x02, 0x01, 0x00, |ident| % 256] + ident
  }

  /** PROTOCOL IDENTIFIER in the high nibble, CODE SET in the low one. */
  function ProtocolCodeSet(proto: byte, codeSet: byte): byte
  {
    Or((proto * 16) % 256, codeSet)
  }

  function RelativeTargetPortDesignator(p: Port): seq<byte>
  {
    [ProtocolCodeSet(p.protoIdent, 0x1), 0x94, 0, 4, 0, 0] + BE(p.rtpi, 2)
  }

  function TargetPortGroupDesignator(p: Port, id: u16): seq<byte>
  {
    [ProtocolCodeSet(p.protoIdent, 0x1), 0x95, 0, 4, 0, 0] + BE(id, 2)
  }

  function LuGroupDesignator(id: u16): seq<byte>
  {
    [0x01, 0x06, 0, 4, 0, 0] + BE(id, 2)
  }

  function HexDigitChar(v: nibble): byte
  {
    if v < 10 then 0x30 + v else 0x61 + v - 10
  }

  /** "%04x" of a 16-bit value. */
  function Hex4(x: u16): (h: seq<byte>)
    ensures |h| == 4
  {
    [HexDigitChar((x / 0x1000) % 16), HexDigitChar((x / 0x100) % 16),
     HexDigitChar((x / 0x10) % 16), HexDigitChar(x % 16)]
  }

  /** NUL bytes appended so the SCSI name string is a multiple of four long. */
  function ScsiNamePadding(wwn: seq<byte>): nat
  {
    (4 - (StrLen(wwn) + 10) % 4) % 4
  }

  /** "<wwn>,t,0x<tpgt>", its NUL and the padding. */
  function ScsiNameString(p: Port): seq<byte>
  {
    CStr(p.wwn) + [0x2c, 0x74, 0x2c, 0x30, 0x78] + Hex4(p.tpgt) + [0] + Zeros(ScsiNamePadding(p.wwn))
  }

  function ScsiNameDesignator(p: Port): seq<byte>
  {
    var name := ScsiNameString(p);
    [ProtocolCodeSet(p.protoIdent, 0x3), 0x98, 0, |name| % 256] + name
  }

  /**
   * Number of volume-name bytes reported as written: min_t(u8, ...) narrows
   * the string length to eight bits before comparing it with 64.
   */
  function VolumeNameLenAsWritten(n: nat): (k: nat)
    ensures k <= n && k <= 64
    ensures n < 256 ==> k == Min(n, 64)
  {
    Min(n % 256, 64)
  }

  /**
   * The narrowing only matters for names of 256 bytes or more, and then it
   * can shorten the reported name: a 300-byte name is cut to 44 bytes.
   */
  lemma VolumeNameLenNarrowing(n: nat)
    ensures VolumeNameLenAsWritten(n) == VolumeNameLen(n) <==> n < 256 || n % 256 >= 64
    ensures VolumeNameLenAsWritten(300) == 44 && VolumeNameLen(300) == 64
  {
  }

  /** Number of volume-name bytes reported: the name, capped at 64 bytes. */
  function VolumeNameLen(n: nat): (k: nat)
    ensures k <= n && k <= 64
    ensures k == 64 || k == n
  {
    Min(n, 64)
  }

  /**
   * The volume name designator as written: the name's first
   * VolumeNameLenAsWritten bytes after a length byte that counts them.
   * For names under 256 bytes it is the intended designator.
   */
  function VolumeNameDesignator(name: seq<byte>): (d: seq<byte>)
    ensures 4 <= |d| <= 68 && d[..3] == [0x03, 0x08, 0] && d[3] as int == |d| - 4
    ensures |d| - 4 <= StrLen(name) && d[4..] == CStr(name)[..|d| - 4]
    ensures StrLen(name) < 256 ==> d == VolumeNameDesignatorIntended(name)
  {
    var k := VolumeNameLenAsWritten(StrLen(name));
    [0x03, 0x08, 0, k] + name[..k]
  }

  /** The volume name designator with the length capped at 64 without narrowing it first. */
  function VolumeNameDesignatorIntended(name: seq<byte>): seq<byte>
  {
    var k := VolumeNameLen(StrLen(name));
    [0x03, 0x08, 0, k] + name[..k]
  }

  /** With ALUA emulated: the port's target port group, then the LU's group. */
  function GroupDesignators(dev: Device, p: Port): seq<byte>
  {
    if dev.aluaEmulated then
      (match p.tgPtGp case Some(g) => TargetPortGroupDesignator(p, g.id) case None => [])
      + (match dev.luGpId case Some(id) => LuGroupDesignator(id) case None => [])
    else []
  }

  /** The designators that describe the port, in the order the page lists them. */
  function PortDesignators(dev: Device, p: Port): seq<byte>
  {
    RelativeTargetPortDesignator(p) + GroupDesignators(dev, p) + ScsiNameDesignator(p)
  }

  /** The NAA designator, present when the device has a unit serial. */
  function NaaPart(dev: Device): seq<byte>
  {
    match dev.unitSerial case Some(s) => NaaDesignator(s) case None => []
  }

  /** The port designators, present when the command came through a port. */
  function PortPart(dev: Device, port: Option<Port>): seq<byte>
  {
    match port case Some(p) => PortDesignators(dev, p) case None => []
  }

  /** The volume name designator, present when the backend names the volume. */
  function VolumePart(dev: Device): seq<byte>
  {
    match dev.volumeName case Some(v) => VolumeNameDesignator(v) case None => []
  }

  /** Designators one after the other. */
  function Designators(parts: seq<seq<byte>>): seq<byte>
  {
    if parts == [] then [] else parts[0] + Designators(parts[1..])
  }

  /** Everything after the 4-byte page header of the Device Identification page. */
  function Evpd83Body(dev: Device, port: Option<Port>): seq<byte>
  {
    Designators([NaaPart(dev), T10VendorDesignator(dev), PortPart(dev, port), VolumePart(dev)])
  }

  /** Four designators in a row. */
  lemma Designators4(a: seq<byte>, b: seq<byte>, c: seq<byte>, d: seq<byte>)
    ensures Designators([a, b, c, d]) == a + b + c + d
  {
    var parts: seq<seq<byte>> := [a, b, c, d];
    assert parts[4..] == [];
    assert Designators(parts[3..]) == d + Designators(parts[4..]);
    assert Designators(parts[2..]) == c + Designators(parts[3..]);
    assert Designators(parts[1..]) == b + Designators(parts[2..]);
  }

  /**
   * The Device Identification page: its designators after a header whose
   * PAGE LENGTH counts them, modulo 2^16.
   */
  function Evpd83(dev: Device, port: Option<Port>, byte0: byte): (r: seq<byte>)
    ensures |r| >= 4 && r[..2] == [byte0, 0x83] && r[4..] == Evpd83Body(dev, port)
    ensures BEValue(r[2..4]) == (|r| - 4) % 0x1_0000 && r[3] as int == (|r| - 4) % 256
  {
    LengthPrefixed(byte0, Evpd83Body(dev, port))
  }

  /** Byte 0, page code 83h, the body's length big-endian in bytes 2-3, then the body. */
  function LengthPrefixed(byte0: byte, body: seq<byte>): (r: seq<byte>)
    ensures |r| == |body| + 4 && r[..2] == [byte0, 0x83] && r[4..] == body
    ensures BEValue(r[2..4]) == |body| % 0x1_0000 && r[3] as int == |body| % 256
  {
    var r := [byte0, 0x83] + BE(|body|, 2) + body;
    assert r[2..4] == BE(|body|, 2);
    BE2(|body|);
    BERoundTrip(|body|, 2);
    assert Pow256(2) == 0x1_0000;
    r
  }

  /** Every designator the page can carry has a DESIGNATOR LENGTH equal to its payload. */
  lemma NaaDesignatorWellFormed(serial: seq<byte>)
    ensures WellFormedDesignator(NaaDesignator(serial))
  {
  }

  lemma T10VendorDesignatorWellFormed(dev: Device)
    ensures WellFormedDesignator(T10VendorDesignator(dev))
  {
  }

  lemma PortGroupDesignatorsWellFormed(p: Port, id: u16)
    ensures WellFormedDesignator(RelativeTargetPortDesignator(p))
    ensures WellFormedDesignator(TargetPortGroupDesignator(p, id))
    ensures WellFormedDesignator(LuGroupDesignator(id))
  {
  }

  lemma ScsiNameDesignatorWellFormed(p: Port)
    ensures WellFormedDesignator(ScsiNameDesignator(p))
  {
  }

  lemma VolumeNameDesignatorWellFormed(name: seq<byte>)
    ensures WellFormedDesignator(VolumeNameDesignator(name))
  {
  }

  /**
   * The SCSI name string is strlen(wwn)+10 bytes rounded up to a multiple of
   * four; it holds the name, ",t,0x", four hex digits of the tag and NULs.
   */
  lemma ScsiNameLength(p: Port)
    ensures |ScsiNameString(p)| % 4 == 0
    ensures StrLen(p.wwn) + 10 <= |ScsiNameString(p)| < StrLen(p.wwn) + 14
    ensures ScsiNameString(p)[..StrLen(p.wwn)] == CStr(p.wwn)
    ensures ScsiNameString(p)[StrLen(p.wwn) + 9] == 0
  {
    var n := StrLen(p.wwn);
    var fixed := CStr(p.wwn) + [0x2c, 0x74, 0x2c, 0x30, 0x78] + Hex4(p.tpgt) + [0];
    assert |fixed| == n + 10 && fixed[..n] == CStr(p.wwn) && fixed[n + 9] == 0;
    assert ScsiNameString(p) == fixed + Zeros(ScsiNamePadding(p.wwn));
    PadToFour(n + 10);
  }

  /** Padding k with (4 - k % 4) % 4 bytes gives a multiple of four, fewer than 4 more. */
  lemma PadToFour(k: nat)
    ensures (k + (4 - k % 4) % 4) % 4 == 0 && (4 - k % 4) % 4 < 4
  {
  }

  /**
   * The intended volume name designator carries min(strlen, 64) bytes, the
   * name's first ones, and its length byte counts them.
   */
  lemma VolumeNameCapped(name: seq<byte>)
    ensures |VolumeNameDesignatorIntended(name)| - 4 == Min(StrLen(name), 64)
    ensures VolumeNameDesignatorIntended(name)[4..] == CStr(name)[..Min(StrLen(name), 64)]
    ensures WellFormedDesignator(VolumeNameDesignatorIntended(name))
  {
  }

  // -------------------------------------------------------------------
  // Writing the pages into the data-in buffer
  // -------------------------------------------------------------------

  /**
   * Writes designator d at the cursor: the page body so far, `body`, is
   * extended by d and the bytes after it are still zero.
   */
  method AppendDesignator(buf: array<byte>, off: nat, ghost body: seq<byte>, d: seq<byte>)
    returns (next: nat)
    requires 4 <= off && off + |d| <= buf.Length
    requires buf[4..off] == body
    requires ZeroTail(buf, off + |d|)
    modifies buf
    ensures next == off + |d|
    ensures buf[4..next] == body + d
    ensures ZeroTail(buf, next)
    ensures buf[..4] == old(buf[..4])
  {
    PutBytes(buf, off, d);
    next := off + |d|;
    assert buf[4..next] == buf[4..off] + buf[off..next];
  }

  /** The NAA designator at byte 4; the parse also writes byte 24. */
  method PutNaaDesignator(serial: seq<byte>, buf: array<byte>)
    requires buf.Length >= 25
    requires ZeroTail(buf, 4)
    modifies buf
    ensures buf[4..24] == NaaDesignator(serial)
    ensures buf[..4] == old(buf[..4])
    ensures ZeroTail(buf, 25)
  {
    var naa := NaaDesignator(serial);
    PutBytes(buf, 4, naa[..8]);
    ParseNaaVendorSpecific(serial, buf, 12);
    assert buf[4..12] == naa[..8];
    assert buf[12..24] == NaaVendorSpecific(serial)[..12];
    assert naa == naa[..8] + NaaVendorSpecific(serial)[..12];
    assert buf[4..24] == buf[4..12] + buf[12..24];
  }

  /** The ALUA group designators, appended at the cursor. */
  method AppendGroupDesignators(dev: Device, p: Port, buf: array<byte>, off: nat, ghost body: seq<byte>)
    returns (next: nat)
    requires 4 <= off && off + |GroupDesignators(dev, p)| <= buf.Length
    requires buf[4..off] == body
    requires ZeroTail(buf, off)
    modifies buf
    ensures next == off + |GroupDesignators(dev, p)|
    ensures buf[4..next] == body + GroupDesignators(dev, p)
    ensures ZeroTail(buf, next)
    ensures buf[..4] == old(buf[..4])
  {
    next := off;
    if dev.aluaEmulated {
      ghost var tpg: seq<byte> := [];
      if p.tgPtGp.Some? {
        var d := TargetPortGroupDesignator(p, p.tgPtGp.value.id);
        next := AppendDesignator(buf, next, body, d);
        tpg := d;
      }
      if dev.luGpId.Some? {
        next := AppendDesignator(buf, next, body + tpg, LuGroupDesignator(dev.luGpId.value));
      }
    }
  }

  /** The port's designators, appended at the cursor. */
  /** Appending three pieces one after the other appends their concatenation. */
  lemma AppendThree(body: seq<byte>, a: seq<byte>, b: seq<byte>, c: seq<byte>)
    ensures body + a + b + c == body + (a + b + c)
  {
  }

  method AppendPortDesignators(dev: Device, p: Port, buf: array<byte>, off: nat, ghost body: seq<byte>)
    returns (next: nat)
    requires 4 <= off && off + |PortDesignators(dev, p)| <= buf.Length
    requires buf[4..off] == body
    requires ZeroTail(buf, off)
    modifies buf
    ensures next == off + |PortDesignators(dev, p)|
    ensures buf[4..next] == body + PortDesignators(dev, p)
    ensures ZeroTail(buf, next)
    ensures buf[..4] == old(buf[..4])
  {
    var rtpi := RelativeTargetPortDesignator(p);
    ghost var groups := GroupDesignators(dev, p);
    var name := ScsiNameDesignator(p);
    ghost var all := PortDesignators(dev, p);
    assert all == rtpi + groups + name;
    next := AppendDesignator(buf, off, body, rtpi);
    next := AppendGroupDesignators(dev, p, buf, next, body + rtpi);
    next := AppendDesignator(buf, next, body + rtpi + groups, name);
    AppendThree(body, rtpi, groups, name);
  }

  /** A two-byte big-endian field is the high byte, then the low one. */
  lemma BE2(x: nat)
    ensures BE(x, 2) == [(x / 256) % 256, x % 256]
  {
    assert BE(x, 2) == BE(x / 256, 1) + [x % 256];
    assert BE(x / 256, 1) == BE(x / 256 / 256, 0) + [(x / 256) % 256];
  }

  /** The NAA designator (when there is a serial) and the T10 vendor designator from byte 4. */
  method WriteIdentityDesignators(dev: Device, buf: array<byte>) returns (next: nat)
    requires buf.Length >= 4 + |NaaPart(dev) + T10VendorDesignator(dev)|
    requires ZeroTail(buf, 4)
    modifies buf
    ensures next == 4 + |NaaPart(dev) + T10VendorDesignator(dev)|
    ensures buf[4..next] == NaaPart(dev) + T10VendorDesignator(dev)
    ensures buf[..4] == old(buf[..4])
    ensures ZeroTail(buf, next)
  {
    next := 4;
    if dev.unitSerial.Some? {
      PutNaaDesignator(dev.unitSerial.value, buf);
      next := 24;
    }
    // the T10 descriptor always follows and covers byte 24, which the parse overran
    var prodLen := ProductLength(dev.model);
    var t10 := T10Designator(dev, prodLen);
    assert t10 == T10VendorDesignator(dev);
    assert |t10| >= 12;
    next := AppendDesignator(buf, next, NaaPart(dev), t10);
  }

  method AppendPortPart(dev: Device, port: Option<Port>, buf: array<byte>, off: nat, ghost body: seq<byte>)
    returns (next: nat)
    requires 4 <= off && off + |PortPart(dev, port)| <= buf.Length
    requires buf[4..off] == body
    requires ZeroTail(buf, off)
    modifies buf
    ensures next == off + |PortPart(dev, port)|
    ensures buf[4..next] == body + PortPart(dev, port)
    ensures ZeroTail(buf, next)
    ensures buf[..4] == old(buf[..4])
  {
    next := off;
    if port.Some? {
      next := AppendPortDesignators(dev, port.value, buf, off, body);
    } else {
      assert body + PortPart(dev, port) == body;
    }
  }

  method AppendVolumePart(dev: Device, buf: array<byte>, off: nat, ghost body: seq<byte>)
    returns (next: nat)
    requires 4 <= off && off + |VolumePart(dev)| <= buf.Length
    requires buf[4..off] == body
    requires ZeroTail(buf, off)
    modifies buf
    ensures next == off + |VolumePart(dev)|
    ensures buf[4..next] == body + VolumePart(dev)
    ensures ZeroTail(buf, next)
    ensures buf[..4] == old(buf[..4])
  {
    next := off;
    if dev.volumeName.Some? {
      next := AppendDesignator(buf, off, body, VolumeNameDesignator(dev.volumeName.value));
    } else {
      assert body + VolumePart(dev) == body;
    }
  }

  /**
   * The designators of target_emulate_evpd_83, appended one after the
   * other from byte 4 on; `len` counts the bytes written.
   */
  method WriteEvpd83Body(dev: Device, port: Option<Port>, buf: array<byte>) returns (len: nat)
    requires buf.Length >= 4 + |Evpd83Body(dev, port)|
    requires ZeroTail(buf, 4)
    modifies buf
    ensures len == |Evpd83Body(dev, port)|
    ensures buf[4..4 + len] == Evpd83Body(dev, port)
    ensures buf[..4] == old(buf[..4])
    ensures ZeroTail(buf, 4 + len)
  {
    Designators4(NaaPart(dev), T10VendorDesignator(dev), PortPart(dev, port), VolumePart(dev));
    var off := WriteIdentityDesignators(dev, buf);
    off := AppendPortPart(dev, port, buf, off, NaaPart(dev) + T10VendorDesignator(dev));
    off := AppendVolumePart(dev, buf, off, NaaPart(dev) + T10VendorDesignator(dev) + PortPart(dev, port));
    len := off - 4;
  }

  /**
   * target_emulate_evpd_83: the designators after the header, then their
   * total length `len` big-endian in bytes 2-3.
   */
  method EmulateEvpd83(dev: Device, port: Option<Port>, buf: array<byte>)
    requires buf.Length >= 4 + |Evpd83Body(dev, port)|
    requires buf[1] == 0x83
    requires ZeroTail(buf, 2)
    modifies buf
    ensures buf[..4 + |Evpd83Body(dev, port)|] == Evpd83(dev, port, old(buf[0]))
    ensures ZeroTail(buf, 4 + |Evpd83Body(dev, port)|)
  {
    ghost var body := Evpd83Body(dev, port);
    var len := WriteEvpd83Body(dev, port, buf);
    buf[2] := (len / 256) % 256;
    buf[3] := len % 256;
    BE2(len);
    assert buf[..4] == [old(buf[0]), 0x83] + BE(len, 2);
    assert buf[..4 + len] == buf[..4] + buf[4..4 + len];
  }

  /** The image of the VPD page `page` the handler table serves. */
  function VpdPage(dev: Device, nexus: Nexus, page: byte, byte0: byte): (img: seq<byte>)
    requires page in EVPD_PAGES
    ensures |img| >= 4
  {
    if page == 0x00 then Evpd00(dev, byte0)
    else if page == 0x80 then Evpd80(dev, byte0)
    else if page == 0x83 then Evpd83(dev, nexus.port, byte0)
    else if page == 0x86 then Evpd86(dev, byte0)
    else if page == 0xb0 then EvpdB0(dev)
    else if page == 0xb1 then EvpdB1(dev)
    else EvpdB2(dev)
  }

  /**
   * A VPD page image of page `page`: it echoes the page code in byte 1 and
   * counts its bytes after the 4-byte header in byte 3 (the low byte of the
   * page length), so byte 3 counts them exactly when the page is shorter
   * than 260 bytes.
   */
  predicate VpdHeaderCounts(img: seq<byte>, page: byte)
  {
    |img| >= 4 && img[1] == page && img[3] == (|img| - 4) % 256
    && (|img| < 260 ==> img[3] as int + 4 == |img|)
  }

  /**
   * The length facts of page `page`'s image: its header counts it; all but
   * 80h (whose serial may be long) and 83h are shorter than 260 bytes, and
   * 83h carries the 16-bit length in bytes 2-3.
   */
  predicate VpdPageShape(img: seq<byte>, page: byte)
  {
    VpdHeaderCounts(img, page)
    && (page != 0x80 && page != 0x83 ==> |img| < 260)
    && (page == 0x83 ==> BEValue(img[2..4]) == (|img| - 4) % 0x1_0000)
  }

  /** Every page the table serves has the length facts of its page code. */
  lemma VpdPageLength(dev: Device, nexus: Nexus, page: byte, byte0: byte)
    requires page in EVPD_PAGES
    ensures VpdPageShape(VpdPage(dev, nexus, page, byte0), page)
  {
    if page == 0x00 {
      Evpd00Length(dev, byte0);
    } else if page == 0x80 {
      Evpd80Length(dev, byte0);
    } else if page == 0x83 {
      Evpd83Length(dev, nexus.port, byte0);
    } else if page == 0x86 {
      Evpd86Length(dev, byte0);
    } else if page == 0xb0 {
      EvpdB0Length(dev);
    } else if page == 0xb1 {
      EvpdB1Length(dev);
    } else {
      EvpdB2Length(dev);
    }
  }

  lemma Evpd00Length(dev: Device, byte0: byte)
    ensures VpdPageShape(Evpd00(dev, byte0), 0x00)
  {
  }

  lemma Evpd80Length(dev: Device, byte0: byte)
    ensures VpdPageShape(Evpd80(dev, byte0), 0x80)
  {
  }

  lemma Evpd83Length(dev: Device, port: Option<Port>, byte0: byte)
    ensures VpdPageShape(Evpd83(dev, port, byte0), 0x83)
  {
    var img := Evpd83(dev, port, byte0);
    assert img[1] == img[..2][1] == 0x83;
  }

  lemma Evpd86Length(dev: Device, byte0: byte)
    ensures VpdPageShape(Evpd86(dev, byte0), 0x86)
  {
  }

  lemma EvpdB0Length(dev: Device)
    ensures VpdPageShape(EvpdB0(dev), 0xb0)
  {
  }

  lemma EvpdB1Length(dev: Device)
    ensures VpdPageShape(EvpdB1(dev), 0xb1)
  {
  }

  lemma EvpdB2Length(dev: Device)
    ensures VpdPageShape(EvpdB2(dev), 0xb2)
  {
    BE2(4);
  }

  /** Standard INQUIRY data: the reply length buf[4]+5 is the 96 bytes built. */
  lemma StdInquiryLayout(dev: Device, nexus: Nexus, byte0: byte)
    ensures StdInquiry(dev, nexus, byte0)[4] + 5 == |StdInquiry(dev, nexus, byte0)| == INQUIRY_STD_LEN
    ensures StdInquiry(dev, nexus, byte0)[3] == 2
    ensures StdInquiry(dev, nexus, byte0)[8..16] == StrNCpy(dev.vendorId, 8)
    ensures StdInquiry(dev, nexus, byte0)[58..60] == [0x00, 0x80]
    ensures var k := |VersionDescriptors(nexus.port)| + 54;
      StdInquiry(dev, nexus, byte0)[k..k + 4] == [0x04, 0x60, 0x04, 0xc0]
  {
  }

  /** target_fill_alua_data */
  method FillAluaData(port: Option<Port>, buf: array<byte>)
    requires buf.Length > 5
    modifies buf
    ensures buf[..] == old(buf[..])[5 := AluaByte(port)]
  {
    buf[5] := 0x80;
    if port.Some? && port.value.tgPtGp.Some? {
      buf[5] := Or(buf[5], port.value.tgPtGp.value.accessType);
    }
  }

  /** The version descriptors from byte 58 on, through the cursor `off`. */
  method PutVersionDescriptors(port: Option<Port>, buf: array<byte>)
    requires buf.Length >= INQUIRY_STD_LEN
    requires forall i :: 58 <= i < INQUIRY_STD_LEN ==> buf[i] == 0
    modifies buf
    ensures buf[58..INQUIRY_STD_LEN] == VersionArea(port)
    ensures buf[..58] == old(buf[..58])
    ensures buf[INQUIRY_STD_LEN..] == old(buf[INQUIRY_STD_LEN..])
  {
    ghost var o := buf[..];
    var off := 58;
    PutBytes(buf, off, [0x00, 0x80]);
    off := off + 2;
    ghost var written: seq<byte> := [0x00, 0x80];
    var tail: seq<byte> := [0x04, 0x60, 0x04, 0xc0];
    if port.Some? && port.value.fabricVersDesc.Some? {
      PutBytes(buf, off, port.value.fabricVersDesc.value);
      SpliceConsecutive(o, 58, written, port.value.fabricVersDesc.value);
      written := written + port.value.fabricVersDesc.value;
      off := off + 2;
      assert written + tail == VersionDescriptors(port);
    } else {
      assert written + tail == VersionDescriptors(port);
    }
    PutBytes(buf, off, tail);
    SpliceConsecutive(o, 58, written, tail);
    VersionAreaSplice(o, buf[..], port);
  }

  /** Version descriptors spliced in at byte 58 over zeros make the version area. */
  lemma VersionAreaSplice(o: seq<byte>, b: seq<byte>, port: Option<Port>)
    requires |o| >= INQUIRY_STD_LEN
    requires forall i :: 58 <= i < INQUIRY_STD_LEN ==> o[i] == 0
    requires b == Splice(o, 58, VersionDescriptors(port))
    ensures b[58..INQUIRY_STD_LEN] == VersionArea(port)
    ensures b[..58] == o[..58] && b[INQUIRY_STD_LEN..] == o[INQUIRY_STD_LEN..]
  {
    var v := VersionDescriptors(port);
    assert b[58..INQUIRY_STD_LEN] == v + o[58 + |v|..INQUIRY_STD_LEN];
    assert o[58 + |v|..INQUIRY_STD_LEN] == Zeros(38 - |v|);
  }

  /** Bytes 1-7 of the standard data, byte 0 already holding the peripheral byte. */
  method PutStdHeader(dev: Device, nexus: Nexus, buf: array<byte>)
    requires buf.Length >= INQUIRY_STD_LEN
    requires forall i :: 1 <= i < 8 ==> buf[i] == 0
    modifies buf
    ensures buf[..8] == StdHeader(dev, nexus, old(buf[0]))
    ensures buf[8..] == old(buf[8..])
  {
    if dev.deviceType == TYPE_TAPE {
      buf[1] := 0x80;
    }
    buf[2] := dev.deviceRev;
    buf[3] := 2;
    if dev.aluaEmulated {
      FillAluaData(nexus.port, buf);
    }
    buf[6] := 0x10;
    buf[7] := 0x02;
    buf[4] := 91;
  }

  /** Vendor, product and revision at bytes 8-35 (the three strncpy calls). */
  method PutStdIdentification(dev: Device, buf: array<byte>)
    requires buf.Length >= INQUIRY_STD_LEN
    modifies buf
    ensures buf[8..36] == StdIdentification(dev)
    ensures buf[..8] == old(buf[..8])
    ensures buf[36..] == old(buf[36..])
  {
    ghost var o := buf[..];
    var vendor, model, revision := StrNCpy(dev.vendorId, 8), StrNCpy(dev.model, 16), StrNCpy(dev.revision, 4);
    PutBytes(buf, 8, vendor);
    PutBytes(buf, 16, model);
    SpliceConsecutive(o, 8, vendor, model);
    PutBytes(buf, 32, revision);
    SpliceConsecutive(o, 8, vendor + model, revision);
    SpliceParts(o, 8, StdIdentification(dev));
  }

  /** target_emulate_inquiry_std: fills bytes 1-95 after the peripheral byte. */
  method EmulateInquiryStd(dev: Device, nexus: Nexus, buf: array<byte>)
    requires buf.Length >= INQUIRY_STD_LEN
    requires ZeroTail(buf, 1)
    modifies buf
    ensures buf[..INQUIRY_STD_LEN] == StdInquiry(dev, nexus, old(buf[0]))
    ensures ZeroTail(buf, INQUIRY_STD_LEN)
  {
    ghost var zeros := buf[8..];
    assert forall i :: 0 <= i < |zeros| ==> zeros[i] == 0;
    PutStdHeader(dev, nexus, buf);
    ghost var h := buf[..8];
    PutStdIdentification(dev, buf);
    assert buf[36..] == zeros[28..];
    PutVersionDescriptors(nexus.port, buf);
    assert buf[..58] == h + StdIdentification(dev) + Zeros(22) by {
      assert buf[..58] == buf[..8] + buf[8..36] + buf[36..58];
    }
    assert buf[INQUIRY_STD_LEN..] == zeros[88..];
    assert buf[..INQUIRY_STD_LEN] == buf[..58] + buf[58..INQUIRY_STD_LEN];
  }

  /** target_emulate_evpd_00: with a unit serial, the table's page codes from byte 4 on. */
  method EmulateEvpd00(dev: Device, buf: array<byte>)
    requires buf.Length >= 4 && buf.Length >= |Evpd00(dev, buf[0])|
    requires buf[1] == 0x00
    requires ZeroTail(buf, 2)
    modifies buf
    ensures buf[..|Evpd00(dev, old(buf[0]))|] == Evpd00(dev, old(buf[0]))
    ensures ZeroTail(buf, |Evpd00(dev, old(buf[0]))|)
  {
    if dev.unitSerial.Some? {
      buf[3] := |EVPD_PAGES|;
      var p := 0;
      while p < |EVPD_PAGES|
        invariant 0 <= p <= |EVPD_PAGES|
        invariant buf[..4] == [old(buf[0]), 0x00, 0, |EVPD_PAGES|]
        invariant buf[4..4 + p] == EVPD_PAGES[..p]
        invariant ZeroTail(buf, 4 + p)
      {
        buf[p + 4] := EVPD_PAGES[p];
        p := p + 1;
      }
      assert buf[..4 + |EVPD_PAGES|] == buf[..4] + buf[4..4 + |EVPD_PAGES|];
    }
  }

  /** A handler that fills a fixed layout: the page image over the zeroed buffer. */
  method PutPage(img: seq<byte>, buf: array<byte>)
    requires 2 <= |img| <= buf.Length
    requires ZeroTail(buf, |img|)
    modifies buf
    ensures buf[..|img|] == img
    ensures ZeroTail(buf, |img|)
  {
    PutBytes(buf, 0, img);
  }

  /**
   * Writes the VPD page `EVPD_PAGES[p]` through its handler; the dispatcher
   * has already set bytes 0 and 1.
   */
  method EmulateVpd(dev: Device, nexus: Nexus, p: nat, buf: array<byte>)
    requires p < |EVPD_PAGES|
    requires buf.Length >= 4 && buf.Length >= |VpdPage(dev, nexus, EVPD_PAGES[p], buf[0])|
    requires buf[1] == EVPD_PAGES[p]
    requires ZeroTail(buf, 2)
    modifies buf
    ensures var img := VpdPage(dev, nexus, EVPD_PAGES[p], old(buf[0]));
      buf[..|img|] == img && ZeroTail(buf, |img|)
  {
    var page := EVPD_PAGES[p];
    var byte0 := buf[0];
    if page == 0x00 {
      assert VpdPage(dev, nexus, page, byte0) == Evpd00(dev, byte0);
      EmulateEvpd00(dev, buf);
    } else if page == 0x83 {
      assert VpdPage(dev, nexus, page, byte0) == Evpd83(dev, nexus.port, byte0);
      EmulateEvpd83(dev, nexus.port, buf);
    } else {
      var img := VpdPage(dev, nexus, page, byte0);
      PutPage(img, buf);
    }
  }

  /**
   * The reply INQUIRY produces: the page image, or INVALID FIELD IN CDB
   * when EVPD is clear with a nonzero page code or set with a page code the
   * table does not serve.
   */
  function Inquiry(dev: Device, nexus: Nexus, cdb: seq<byte>): (r: Result<seq<byte>>)
    requires |cdb| >= 3
    ensures r.Ok? ==> |r.value| >= 4 && (cdb[1] % 2 == 0 ==> |r.value| == INQUIRY_STD_LEN)
    ensures r.Err? ==> r == Err(-EINVAL, InvalidCdbField)
  {
    var byte0 := if nexus.virtLun0 then 0x3f else dev.deviceType;
    if cdb[1] % 2 == 0 then
      if cdb[2] != 0 then Err(-EINVAL, InvalidCdbField) else Ok(StdInquiry(dev, nexus, byte0))
    else if cdb[2] in EVPD_PAGES then Ok(VpdPage(dev, nexus, cdb[2], byte0))
    else Err(-EINVAL, InvalidCdbField)
  }

  /** How many bytes of the buffer INQUIRY may write (at least the peripheral byte). */
  function InquirySpan(dev: Device, nexus: Nexus, cdb: seq<byte>): nat
    requires |cdb| >= 3
  {
    match Inquiry(dev, nexus, cdb)
    case Ok(img) => |img|
    case Err(_, _) => 1
  }

  /** The value the emulator returns: buf[4]+5 for standard data, buf[3]+4 for a VPD page. */
  function ReplyLength(cdb: seq<byte>, img: seq<byte>): nat
    requires |cdb| >= 3 && |img| >= (if cdb[1] % 2 == 0 then 5 else 4)
  {
    if cdb[1] % 2 == 0 then img[4] as int + 5 else img[3] as int + 4
  }

  /**
   * An INQUIRY that succeeds returns 96 for standard data; for a VPD page
   * byte 1 echoes the requested page code and the returned length is the
   * page's size modulo the one-byte length field.
   */
  lemma InquiryReplyLength(dev: Device, nexus: Nexus, cdb: seq<byte>)
    requires |cdb| >= 3
    requires Inquiry(dev, nexus, cdb).Ok?
    ensures var img := Inquiry(dev, nexus, cdb).value;
      |img| >= (if cdb[1] % 2 == 0 then 5 else 4) &&
      (cdb[1] % 2 == 0 ==> ReplyLength(cdb, img) == |img| == INQUIRY_STD_LEN) &&
      (cdb[1] % 2 == 1 ==> img[1] == cdb[2] && ReplyLength(cdb, img) == (|img| - 4) % 256 + 4)
  {
    var byte0 := if nexus.virtLun0 then 0x3f else dev.deviceType;
    if cdb[1] % 2 == 0 {
      StdInquiryLayout(dev, nexus, byte0);
    } else {
      VpdPageLength(dev, nexus, cdb[2], byte0);
    }
  }

  /** The table entry `p` matched: echo the page code, run the handler, reply buf[3]+4 bytes. */
  method InquiryVpd(dev: Device, nexus: Nexus, p: nat, buf: array<byte>) returns (n: nat)
    requires p < |EVPD_PAGES|
    requires buf.Length >= 4 && buf.Length >= |VpdPage(dev, nexus, EVPD_PAGES[p], buf[0])|
    requires ZeroTail(buf, 1)
    modifies buf
    ensures var img := VpdPage(dev, nexus, EVPD_PAGES[p], old(buf[0]));
      buf[..|img|] == img && (ZeroTail(buf, |img|))
      && n == img[3] as int + 4
  {
    buf[1] := EVPD_PAGES[p];
    EmulateVpd(dev, nexus, p, buf);
    n := buf[3] as int + 4;
  }

  /**
   * target_emulate_inquiry: sets the peripheral byte, then either builds the
   * standard data or scans the handler table for the requested VPD page.
   */
  method EmulateInquiry(dev: Device, nexus: Nexus, cdb: seq<byte>, buf: array<byte>)
    returns (r: Result<nat>)
    requires |cdb| >= 3
    requires buf.Length >= Max(InquirySpan(dev, nexus, cdb), 5)
    requires ZeroTail(buf, 0)
    modifies buf
    ensures r.Err? <==>
      (cdb[1] % 2 == 0 && cdb[2] != 0) || (cdb[1] % 2 == 1 && cdb[2] !in EVPD_PAGES)
    ensures r.Err? ==> r == Err(-EINVAL, InvalidCdbField)
    ensures match Inquiry(dev, nexus, cdb)
      case Ok(img) =>
        r == Ok(ReplyLength(cdb, img)) && buf[..|img|] == img
        && ZeroTail(buf, |img|)
      case Err(_, _) =>
        buf[0] == (if nexus.virtLun0 then 0x3f else dev.deviceType)
        && ZeroTail(buf, 1)
  {
    var byte0: byte := if nexus.virtLun0 then 0x3f else dev.deviceType;
    buf[0] := byte0;
    if cdb[1] % 2 == 0 {
      if cdb[2] != 0 {
        return Err(-EINVAL, InvalidCdbField);
      }
      EmulateInquiryStd(dev, nexus, buf);
      StdInquiryLayout(dev, nexus, byte0);
      return Ok(buf[4] as int + 5);
    }
    var p := 0;
    while p < |EVPD_PAGES|
      invariant 0 <= p <= |EVPD_PAGES|
      invariant cdb[2] !in EVPD_PAGES[..p]
      invariant buf[0] == byte0 && ZeroTail(buf, 1)
    {
      if cdb[2] == EVPD_PAGES[p] {
        var n := InquiryVpd(dev, nexus, p, buf);
        return Ok(n);
      }
      assert EVPD_PAGES[..p + 1] == EVPD_PAGES[..p] + [EVPD_PAGES[p]];
      p := p + 1;
    }
    assert EVPD_PAGES[..p] == EVPD_PAGES;
    return Err(-EINVAL, InvalidCdbField);
  }

  /** SE_INQUIRY_BUF: the size of the bounce buffer for a short data-in buffer. */
  const SE_INQUIRY_BUF: nat := 512

  /** The bytes INQUIRY leaves at the start of its buffer: the reply, or just the peripheral byte. */
  function InquiryImage(dev: Device, nexus: Nexus, cdb: seq<byte>): (img: seq<byte>)
    requires |cdb| >= 3
    ensures |img| <= InquirySpan(dev, nexus, cdb)
  {
    match Inquiry(dev, nexus, cdb)
    case Ok(img) => img
    case Err(_, _) => [if nexus.virtLun0 then 0x3f else dev.deviceType]
  }

  /** What target_emulate_inquiry returns: the reply length or the error. */
  function InquiryReply(dev: Device, nexus: Nexus, cdb: seq<byte>): Result<nat>
    requires |cdb| >= 3
  {
    match Inquiry(dev, nexus, cdb)
    case Ok(img) => Ok(ReplyLength(cdb, img))
    case Err(rc, reason) => Err(rc, reason)
  }

  /**
   * The whole command: when the data-in buffer is shorter than
   * SE_INQUIRY_BUF and was not allocated by the core, the reply is built in
   * a zeroed bounce buffer (its allocation may fail, `allocOk`) and the
   * first data_length bytes are copied back.
   */
  method TargetEmulateInquiry(dev: Device, nexus: Nexus, cdb: seq<byte>, mapBuf: array<byte>,
                              noAlloc: bool, allocOk: bool)
    returns (r: Result<nat>)
    requires |cdb| >= 3
    requires InquirySpan(dev, nexus, cdb) <=
      (if mapBuf.Length < SE_INQUIRY_BUF && noAlloc then SE_INQUIRY_BUF else mapBuf.Length)
    requires mapBuf.Length >= SE_INQUIRY_BUF || noAlloc
    requires forall i :: 0 <= i < mapBuf.Length ==> mapBuf[i] == 0
    modifies mapBuf
    ensures mapBuf.Length < SE_INQUIRY_BUF && noAlloc && !allocOk ==>
      r == Err(-ENOMEM, LogicalUnitCommunicationFailure) && mapBuf[..] == old(mapBuf[..])
    ensures !(mapBuf.Length < SE_INQUIRY_BUF && noAlloc && !allocOk) ==>
      r == InquiryReply(dev, nexus, cdb)
      && mapBuf[..] == Padded(InquiryImage(dev, nexus, cdb), Max(mapBuf.Length, SE_INQUIRY_BUF))[..mapBuf.Length]
  {
    if mapBuf.Length < SE_INQUIRY_BUF && noAlloc {
      if !allocOk {
        return Err(-ENOMEM, LogicalUnitCommunicationFailure);
      }
      var buf := new byte[SE_INQUIRY_BUF](_ => 0);
      r := EmulateInquiry(dev, nexus, cdb, buf);
      InquiryBufferImage(dev, nexus, cdb, buf[..]);
      PutBytes(mapBuf, 0, buf[..mapBuf.Length]);
    } else {
      r := EmulateInquiry(dev, nexus, cdb, mapBuf);
      InquiryBufferImage(dev, nexus, cdb, mapBuf[..]);
    }
  }

  /**
   * As written, the 512-byte bounce buffer does not hold every page 83h: a
   * unit serial of 254 characters and a port WWN of 223 give a longer page,
   * which the handlers write past the bounce buffer's end.
   */
  lemma Evpd83OverrunsBounce(dev: Device, nexus: Nexus, serial: seq<byte>, p: Port)
    requires dev.unitSerial == Some(serial) && StrLen(serial) >= 254
    requires nexus.port == Some(p) && StrLen(p.wwn) >= 223
    ensures InquirySpan(dev, nexus, [0x12, 1, 0x83]) > SE_INQUIRY_BUF
  {
    Evpd83Span(dev, nexus, [0x12, 1, 0x83]);
    Evpd83BodyLong(dev, serial, p);
  }

  /** An INQUIRY for page 83h spans the page: its 4-byte header and the designators. */
  lemma Evpd83Span(dev: Device, nexus: Nexus, cdb: seq<byte>)
    requires |cdb| >= 3 && cdb[1] % 2 == 1 && cdb[2] == 0x83
    ensures InquirySpan(dev, nexus, cdb) == 4 + |Evpd83Body(dev, nexus.port)|
  {
    assert cdb[2] in EVPD_PAGES;
  }

  /** The body of that page: at least 12 + 254 bytes of T10 designator and 4 + 233 of SCSI name. */
  lemma Evpd83BodyLong(dev: Device, serial: seq<byte>, p: Port)
    requires dev.unitSerial == Some(serial) && StrLen(serial) >= 254
    requires StrLen(p.wwn) >= 223
    ensures |Evpd83Body(dev, Some(p))| > SE_INQUIRY_BUF - 4
  {
    Designators4(NaaPart(dev), T10VendorDesignator(dev), PortPart(dev, Some(p)), VolumePart(dev));
    ScsiNameLength(p);
    assert |T10VendorDesignator(dev)| >= 12 + StrLen(serial);
    assert |PortPart(dev, Some(p))| >= |ScsiNameDesignator(p)|;
  }

  /** A buffer holding the image then zeros is the padded image. */
  lemma InquiryBufferImage(dev: Device, nexus: Nexus, cdb: seq<byte>, b: seq<byte>)
    requires |cdb| >= 3
    requires |InquiryImage(dev, nexus, cdb)| <= |b|
    requires b[..|InquiryImage(dev, nexus, cdb)|] == InquiryImage(dev, nexus, cdb)
    requires forall i :: |InquiryImage(dev, nexus, cdb)| <= i < |b| ==> b[i] == 0
    ensures b == Padded(InquiryImage(dev, nexus, cdb), |b|)
  {
  }
}
