# A verified model of the SCSI target emulation, IBLOCK backend, task management and bufoops logger

This project models, in Dafny, four pieces of a Linux storage appliance kernel:

- **SCSI command emulation** (`drivers/target/target_core_cdb.c`). It covers:
  - INQUIRY with its standard data and the vital product data pages 00h, 80h, 83h, 86h, B0h, B1h and B2h;
  - READ CAPACITY (10) and (16);
  - MODE SENSE (6/10) with its page handlers and block descriptors, and MODE SELECT;
  - REQUEST SENSE, UNMAP, WRITE SAME, COMPARE AND WRITE, SYNCHRONIZE CACHE and the no-op command;
  - the rewriting of a task's CDB for its own LBA and sector count.
  
  The data-in buffer is an `array<byte>`. Every handler is a method proved equal to a function that describes the reply's bytes, and lemmas decode those bytes back into the fields the standard defines.
- **The IBLOCK block backend** (`drivers/target/target_core_iblock.c`). It covers:
  - the SCSI-block to 512-byte-sector conversion and the read-capacity rescaling;
  - the split of a scatter-gather list into bios, submitted in batches;
  - the request's pending count, and the completion by whichever party drops the last reference;
  - the COMPARE AND WRITE miscompare decision and its sense data;
  - the pass-through completions `iblock_ps_endio` and `iblock_ps_endpr`;
  - the command-memory request;
  - SYNCHRONIZE CACHE with and without IMMED.
- **Task management** (`drivers/target/target_core_tmr.c`): the TMR request setup, ABORT TASK, the TAS policy, the PREEMPT AND ABORT filter and LUN RESET with its queue drain.
- **The bufoops logger** (`drivers/char/bufoops.c`). It covers:
  - the module parameters and the sizing of the buffer;
  - the header page;
  - the ring of dump records, which are written in place;
  - the bounds check on mmap.

Integer widths are modelled where they matter: u8/u16/u32/u64 fields, `sector_t` arithmetic and C's `int` and `unsigned long`. The operations follow the code as written. Where it differs from what it evidently intends, the intended version is modelled beside it, with lemmas saying where the two agree and an input where they do not; see "## Findings".

Files:
- `common.dfy` holds bytes, big- and little-endian encodings, C strings and array stores.
- `target_types.dfy` holds the device, port and sense-reason types.
- `inquiry.dfy`, `mode_pages.dfy`, `read_capacity.dfy`, `request_sense.dfy`, `backend_commands.dfy`, `unmap.dfy` and `task_cdb.dfy` model target_core_cdb.c.
- `iblock.dfy` and `iblock_submit.dfy` model target_core_iblock.c.
- `tmr.dfy` models target_core_tmr.c.
- `bufoops.dfy` models bufoops.c.

## Model

| member | source | states |
|---|---|---|
| Inquiry.VersionDescriptors | drivers/target/target_core_cdb.c:121-134 | the version descriptors are SAM-4, the fabric's own descriptor only when the port has one, then SPC-4 and SBC-3: 8 bytes with a fabric descriptor, 6 without |
| Inquiry.StdHeader | drivers/target/target_core_cdb.c:83-107 | bytes 0-7 of the standard data form an 8-byte header; its fields are stated by Inquiry.PutStdHeader and Inquiry.StdInquiryLayout |
| Inquiry.StdIdentification | drivers/target/target_core_cdb.c:109-111 | vendor, product and revision fields, NUL-padded by strncpy, fill exactly bytes 8-35 (28 bytes) |
| Inquiry.VersionArea | drivers/target/target_core_cdb.c:123-134 | the version-descriptor area from byte 58 to the end of the 96 bytes is 38 bytes, with zeros after the descriptors |
| Inquiry.StdInquiry | drivers/target/target_core_cdb.c:69-137 | standard INQUIRY data is exactly 96 bytes |
| Inquiry.StdInquiryLayout | drivers/target/target_core_cdb.c:98-136 | the reply length buf[4]+5 equals the 96 bytes built; RESPONSE DATA FORMAT is 2; the vendor id sits at bytes 8-15; SAM-4 opens the descriptors at 58 and SPC-4, SBC-3 follow right after the optional fabric descriptor |
| Inquiry.AlignmentField | drivers/target/target_core_cdb.c:547-550 | UNMAP GRANULARITY ALIGNMENT is a 4-byte field |
| Inquiry.HexToBin | drivers/target/target_core_cdb.c:180-184 | a character's digit value is in 0..15 exactly when it is a hex digit, and -1 otherwise |
| Inquiry.NaaVendorSpecific | drivers/target/target_core_cdb.c:164-194 | the vendor-specific identifier derived from the unit serial is 13 bytes |
| Inquiry.NaaSkipsNonHex | drivers/target/target_core_cdb.c:180-184 | a non-hex character anywhere in the serial is skipped: inserting one leaves the digit stream unchanged |
| Inquiry.PackIgnoresLaterDigits | drivers/target/target_core_cdb.c:180 | the walk stops after 13 output bytes: digits beyond the 26th never reach the identifier |
| Inquiry.NaaStopsAtNul | drivers/target/target_core_cdb.c:180 | the walk stops at the serial's NUL: nothing after it affects the identifier |
| Inquiry.PutNibble | drivers/target/target_core_cdb.c:186-192 | one digit stores exactly one byte: the high nibble of the next byte (`=`) or the low nibble OR-ed into the current one, and the pending flag and count advance accordingly |
| Inquiry.NaaStep | drivers/target/target_core_cdb.c:180-193 | one character of the walk keeps the relation between the bytes written, the digits read and the serial prefix consumed |
| Inquiry.NaaParseDone | drivers/target/target_core_cdb.c:180 | when the walk stops (NUL or 13 bytes) the digits read pack to the whole identifier |
| Inquiry.ParseNaaVendorSpecific | drivers/target/target_core_cdb.c:164-194 | the loop writes exactly the 13-byte identifier (digits packed high nibble first) over the zeroed area and nothing else |
| Inquiry.ProdLen | drivers/target/target_core_cdb.c:271-272 | prod_len drops exactly the trailing blanks: everything after it is a blank and the byte before it is not |
| Inquiry.ProductLength | drivers/target/target_core_cdb.c:271-272 | the trimming loop computes prod_len |
| Inquiry.NaaDesignator | drivers/target/target_core_cdb.c:230-263 | the NAA designator is 20 bytes, the length the page's `len` adds |
| Inquiry.Hex4 | drivers/target/target_core_cdb.c:429-430 | `%04x` of the portal-group tag is 4 characters |
| Inquiry.VolumeNameLen | drivers/target/target_core_cdb.c:452 | corrected: the intended volume-name length is the whole name or its first 64 bytes, never more |
| Inquiry.VolumeNameLenAsWritten | drivers/target/target_core_cdb.c:452 | as written: the length min_t(u8, strlen, 64) is at most 64 and at most strlen, and equals min(strlen, 64) for names under 256 bytes |
| Inquiry.VolumeNameDesignator | drivers/target/target_core_cdb.c:450-462 | as written: the designator is code set 3, type 8, a length byte counting its payload (at most 64), and the name's first bytes; for names under 256 bytes it is the intended designator |
| Inquiry.NaaDesignatorWellFormed | drivers/target/target_core_cdb.c:230-263 | the NAA designator's DESIGNATOR LENGTH (0x10) equals its payload |
| Inquiry.T10VendorDesignatorWellFormed | drivers/target/target_core_cdb.c:270-294 | the T10 vendor designator's length byte (id_len) equals its payload: vendor, trimmed product, ':' and serial |
| Inquiry.PortGroupDesignatorsWellFormed | drivers/target/target_core_cdb.c:314-394 | the relative target port, target port group and LU group designators each carry DESIGNATOR LENGTH 4 over a 4-byte payload |
| Inquiry.ScsiNameDesignatorWellFormed | drivers/target/target_core_cdb.c:403-446 | the SCSI name designator's length byte equals its padded payload |
| Inquiry.VolumeNameDesignatorWellFormed | drivers/target/target_core_cdb.c:450-462 | as written: the volume-name designator's length byte equals its payload |
| Inquiry.ScsiNameLength | drivers/target/target_core_cdb.c:403-444 | the SCSI name string is strlen(wwn)+10 rounded up to a multiple of 4; it starts with the wwn and the byte after ",t,0x" and the four hex digits is the NUL |
| Inquiry.VolumeNameCapped | drivers/target/target_core_cdb.c:450-462 | corrected: the intended volume-name designator carries min(strlen, 64) bytes, the name's first ones, under a length byte that counts them |
| Inquiry.AppendDesignator | drivers/target/target_core_cdb.c:217-462 | writing a designator at the cursor extends the page body by it, advances the cursor by its length and leaves the header and the bytes after it untouched |
| Inquiry.PutNaaDesignator | drivers/target/target_core_cdb.c:230-264 | bytes 4-23 hold the NAA designator, the header is untouched, and only byte 24 past it may be written (the parse's 13th byte) |
| Inquiry.AppendGroupDesignators | drivers/target/target_core_cdb.c:337-394 | with emulated ALUA the target port group and LU group designators are appended when their groups exist, and nothing else is written |
| Inquiry.AppendPortDesignators | drivers/target/target_core_cdb.c:298-447 | with a port, the relative port, group and SCSI name designators are appended in that order |
| Inquiry.WriteIdentityDesignators | drivers/target/target_core_cdb.c:217-294 | from byte 4: the NAA designator when there is a unit serial, then the T10 vendor designator |
| Inquiry.AppendPortPart | drivers/target/target_core_cdb.c:298-447 | the port designators are appended only when the LUN has a port |
| Inquiry.AppendVolumePart | drivers/target/target_core_cdb.c:450-462 | as written: the volume-name designator, with its length narrowed to 8 bits, is appended only when the backend reports a name |
| Inquiry.WriteEvpd83Body | drivers/target/target_core_cdb.c:217-462 | as written: `len` equals the number of bytes written after the 4-byte header, and they are the designators in order |
| Inquiry.EmulateEvpd83 | drivers/target/target_core_cdb.c:201-466 | as written: the buffer holds the device identification page whose bytes 2-3 give the designators' total length; nothing past it is written |
| Inquiry.Evpd83 | drivers/target/target_core_cdb.c:201-466 | as written: the device identification page is byte 0, page code 83h, a PAGE LENGTH counting the designators modulo 2^16, then the designators |
| Inquiry.LengthPrefixed | drivers/target/target_core_cdb.c:464-465 | a page of byte 0, code 83h, two length bytes and the body is 4 bytes longer than the body, and bytes 2-3 read back big-endian as the body's length modulo 2^16 |
| Inquiry.VpdPage | drivers/target/target_core_cdb.c:635-646 | every page the handler table serves has at least its 4-byte header |
| Inquiry.VpdPageLength | drivers/target/target_core_cdb.c:715-720 | for every served page, buf[3]+4 (or the 16-bit length in bytes 2-3 for 0x83) counts the page's bytes after its header |
| Inquiry.Evpd00Length | drivers/target/target_core_cdb.c:650-665 | supported-pages page: buf[3] (7) counts the page codes listed after the header |
| Inquiry.Evpd80Length | drivers/target/target_core_cdb.c:144-161 | unit serial page: buf[3] counts the serial and its NUL |
| Inquiry.Evpd83Length | drivers/target/target_core_cdb.c:464-465 | device identification page: bytes 2-3 hold the body length big-endian |
| Inquiry.Evpd86Length | drivers/target/target_core_cdb.c:470-479 | extended INQUIRY page: buf[3] is 0x3c and counts the page |
| Inquiry.EvpdB0Length | drivers/target/target_core_cdb.c:483-556 | block limits page: buf[3] is 0x3c with thin provisioning and 0x10 without, each counting the bytes written |
| Inquiry.EvpdB1Length | drivers/target/target_core_cdb.c:560-567 | block device characteristics page: buf[3] is 0x3c and counts the page |
| Inquiry.EvpdB2Length | drivers/target/target_core_cdb.c:571-630 | thin provisioning page: the length 4 in bytes 2-3 counts the page |
| Inquiry.FillAluaData | drivers/target/target_core_cdb.c:39-66 | only byte 5 changes, to the TPGS/ACC bits derived from the port |
| Inquiry.PutVersionDescriptors | drivers/target/target_core_cdb.c:121-134 | bytes 58-95 become the version area and nothing else changes |
| Inquiry.PutStdHeader | drivers/target/target_core_cdb.c:83-107 | bytes 1-7 are set from the device (RMB for tape, revision, format 2, ALUA bits, MultiP, CmdQue) with byte 0 kept |
| Inquiry.PutStdIdentification | drivers/target/target_core_cdb.c:109-111 | bytes 8-35 become the three strncpy fields and nothing else changes |
| Inquiry.EmulateInquiryStd | drivers/target/target_core_cdb.c:69-137 | the first 96 bytes become the standard data over the given peripheral byte and nothing past them is written |
| Inquiry.EmulateEvpd00 | drivers/target/target_core_cdb.c:650-665 | the supported-pages page lists the table's codes in order, only when the unit serial is set |
| Inquiry.PutPage | drivers/target/target_core_cdb.c:470-630 | a fixed-layout handler leaves exactly its page image over the zeroed buffer |
| Inquiry.EmulateVpd | drivers/target/target_core_cdb.c:715-720 | the table entry's handler writes its page image and nothing past it |
| Inquiry.Inquiry | drivers/target/target_core_cdb.c:696-726 | INQUIRY fails INVALID FIELD IN CDB (-EINVAL) and only so; a success is the 96-byte standard data when EVPD is clear, otherwise a page of at least 4 bytes |
| Inquiry.InquiryReplyLength | drivers/target/target_core_cdb.c:710-720 | a successful INQUIRY returns buf[4]+5 = 96 for standard data; for a VPD page byte 1 echoes the page code and buf[3]+4 is the page length modulo the one-byte field |
| Inquiry.InquiryVpd | drivers/target/target_core_cdb.c:716-720 | a matched entry echoes the page code in byte 1, writes the page, and returns buf[3]+4 |
| Inquiry.EmulateInquiry | drivers/target/target_core_cdb.c:696-726 | the command fails exactly when EVPD is clear with a nonzero page code or set with a code outside 00/80/83/86/b0/b1/b2; otherwise the buffer holds the reply and the return is its length field plus 4 (or 5) |
| Inquiry.InquiryImage | drivers/target/target_core_cdb.c:696-726 | what INQUIRY leaves in its buffer never exceeds the bytes the emulators may touch |
| Inquiry.TargetEmulateInquiry | drivers/target/target_core_cdb.c:667-736 | when a bounce buffer is needed and cannot be allocated the command fails LOGICAL UNIT COMMUNICATION FAILURE (-ENOMEM) with the data buffer untouched; otherwise the data buffer receives the first data_length bytes of the zero-padded reply, for any reply that fits the buffer the handlers write into (the 512-byte bounce buffer, or the mapped buffer itself) |
| Inquiry.Evpd83OverrunsBounce | drivers/target/target_core_cdb.c:684-693 | as written, a page 83h for a 254-character unit serial and a 223-character port WWN is longer than the 512-byte bounce buffer |
| Inquiry.VolumeNameLenNarrowing | drivers/target/target_core_cdb.c:452 | as written, min_t(u8, ...) gives the intended length exactly for names under 256 bytes or whose length mod 256 is at least 64; a 300-byte name is cut to 44 bytes instead of 64 |
| ModePages.ControlQueueByteValue | drivers/target/target_core_cdb.c:870-874 | control page byte 3 is 0x00 or 0x10 by the reordering attribute, plus 0x08 (NUAR) when reservations are offloaded |
| ModePages.ControlParams | drivers/target/target_core_cdb.c:841-922 | the control page's parameters after its 2-byte header are 10 bytes |
| ModePages.ModePage | drivers/target/target_core_cdb.c:817-958 | each handler's page is 20 bytes for caching and 12 for the other three, whatever the page control |
| ModePages.ModePageHeaders | drivers/target/target_core_cdb.c:817-958 | every page starts with its table page code and a PAGE LENGTH counting the bytes after the 2-byte header |
| ModePages.HandlerTableShape | drivers/target/target_core_cdb.c:960-969 | the handler table's page codes are distinct and below 40h, and every subpage is 00h |
| ModePages.ModeSenseRwRecovery | drivers/target/target_core_cdb.c:817-829 | writes the read-write error recovery page (01h) at the cursor and returns its 12 bytes |
| ModePages.ModeSenseInformationalExceptions | drivers/target/target_core_cdb.c:946-958 | writes the informational exceptions page (1Ch) and returns 12 |
| ModePages.ModeSenseCaching | drivers/target/target_core_cdb.c:928-944 | writes the caching page (08h), WCE from the write-cache attribute and read-ahead disabled unless PC=1, and returns 20 |
| ModePages.ModeSenseControl | drivers/target/target_core_cdb.c:831-926 | writes the control page (0Ah) and returns 12; with PC=1 only its header |
| ModePages.PutPageHeader | drivers/target/target_core_cdb.c:820-821 | a page's first two bytes are its code and PAGE LENGTH |
| ModePages.ControlParameters | drivers/target/target_core_cdb.c:841-922 | the control page fields (D_SENSE, queue byte, UA_INTLCK_CTRL, TAS, busy timeout, extended self-test time) land at bytes 2-11 |
| ModePages.PutQueueByte | drivers/target/target_core_cdb.c:870-874 | byte 3 of the control page becomes the queue byte and nothing else changes |
| ModePages.EmulateModePage | drivers/target/target_core_cdb.c:1113 | calling a table entry's handler writes that page at the cursor and returns its length |
| ModePages.DeviceSpecificBits | drivers/target/target_core_cdb.c:1067-1074 | the device-specific byte has WP exactly for read-only access and DPOFUA exactly for a disk with write cache and FUA emulation |
| ModePages.DeviceSpecificValue | drivers/target/target_core_cdb.c:971-997 | the device-specific byte is the sum of those two bits (0x80, 0x10) |
| ModePages.BlockDescriptor | drivers/target/target_core_cdb.c:999-1006 | the short block descriptor with its length byte is 9 bytes |
| ModePages.LongBlockDescriptor | drivers/target/target_core_cdb.c:1008-1021 | the long form writes 12 bytes while the block count fits 32 bits and 20 after it |
| ModePages.LongBlockDescLen | drivers/target/target_core_cdb.c:1008-1021 | corrected partner: the return value the code evidently intends counts every byte written, 20 above 32 bits |
| ModePages.LongBlockDescLenCounts | drivers/target/target_core_cdb.c:1008-1021 | the corrected length is the 4 header bytes plus the BLOCK DESCRIPTOR LENGTH the bytes themselves report |
| ModePages.ModeSenseHeader | drivers/target/target_core_cdb.c:1061-1095 | the bytes the mode parameter header and block descriptor store are 4 to 24 (all 20 of a long descriptor); where the pages start is ModePages.HeaderCursor |
| ModePages.HeaderCursor | drivers/target/target_core_cdb.c:1061-1095 | as written: the cursor after the header is at least 4 and at most the header's length, equal to it exactly when no LONGLBA descriptor is reported, and every header byte from two past it is zero |
| ModePages.LongLbaTail | drivers/target/target_core_cdb.c:1013-1020 | with a LONGLBA descriptor the header is 24 bytes and its last, the BLOCK LENGTH's low byte, is zero |
| ModePages.AllPages | drivers/target/target_core_cdb.c:964-969 | the four pages in table order are 56 bytes |
| ModePages.WildcardListsEveryPage | drivers/target/target_core_cdb.c:1105-1118 | page 3Fh with subpage 00h or FFh emits every handler, in table order, since `(subpage & ~req) == 0` holds for them all and the 6-byte cut at 255 is never reached |
| ModePages.FindHandler | drivers/target/target_core_cdb.c:1123-1128 | the scan returns the first entry with that page and subpage, and None exactly when there is none |
| ModePages.SetModeDataLength | drivers/target/target_core_cdb.c:1141-1145 | setting MODE DATA LENGTH keeps the reply's length |
| ModePages.ModeSensePages | drivers/target/target_core_cdb.c:1098-1139 | the pages selected are never more than the table's 56 bytes |
| ModePages.SetModeDataLengthCounts | drivers/target/target_core_cdb.c:1141-1145 | the stored MODE DATA LENGTH is length-2 big-endian (10-byte CDB) or length-1 (6-byte) |
| ModePages.ModeSense | drivers/target/target_core_cdb.c:1061-1145 | as written: MODE SENSE fails exactly when choosing the pages fails, with its return code and reason; a reply is the header up to the cursor followed by the pages |
| ModePages.ModeSenseDataLength | drivers/target/target_core_cdb.c:1061-1145 | as written: a successful MODE SENSE reply is at most 80 bytes and its MODE DATA LENGTH counts exactly the bytes after the field, pages included from the cursor on |
| ModePages.ModeSenseWriteProtect | drivers/target/target_core_cdb.c:971-985 | sets WP (0x80) in the byte, for every device type |
| ModePages.ModeSenseDpoFua | drivers/target/target_core_cdb.c:987-997 | sets DPOFUA (0x10) for a disk and nothing for other types |
| ModePages.WriteDeviceSpecific | drivers/target/target_core_cdb.c:1067-1074 | the header's device-specific byte becomes the WP/DPOFUA value and nothing else changes |
| ModePages.ModeSenseBlockDesc | drivers/target/target_core_cdb.c:999-1006 | writes length 8, the block count saturated at 0xffffffff and block length 512, and returns 9 |
| ModePages.ModeSenseLongBlockDesc | drivers/target/target_core_cdb.c:1008-1021 | as written: writes the long block descriptor and returns the source's count, 12 while the block count fits 32 bits and 17 (not 20) above it |
| ModePages.ModeSenseLongLba | drivers/target/target_core_cdb.c:1013-1020 | above 32 bits: LONGLBA, BLOCK DESCRIPTOR LENGTH 16, the 64-bit count and block length 512, 20 bytes |
| ModePages.WriteBlockDescriptors | drivers/target/target_core_cdb.c:1079-1095 | as written: DBD, LLBAA and the CDB size choose none, the short or the long descriptor; the header is written over the zeroed buffer and the cursor ends at HeaderCursor, the header's end except 3 bytes short of it after a LONGLBA descriptor |
| ModePages.WriteModeSenseHeader | drivers/target/target_core_cdb.c:1061-1095 | as written: the header and block descriptor are written over the zeroed buffer, the bytes after them stay zero, and `length` is HeaderCursor |
| ModePages.FindModePage | drivers/target/target_core_cdb.c:1123-1128 | the index loop finds what FindHandler specifies |
| ModePages.WildcardStep | drivers/target/target_core_cdb.c:1112-1117 | one more table entry adds its page exactly when its subpage is covered by the request's |
| ModePages.AppendModePage | drivers/target/target_core_cdb.c:1113-1116 | a handler called at the cursor appends its page to those already written |
| ModePages.WriteWildcardPages | drivers/target/target_core_cdb.c:1105-1118 | the wildcard loop writes exactly the selected pages in table order and advances the cursor by their length |
| ModePages.PutModeDataLength | drivers/target/target_core_cdb.c:1141-1145 | only the one or two length bytes change |
| ModePages.ModeSenseImage | drivers/target/target_core_cdb.c:1023-1155 | what MODE SENSE leaves in its buffer is at most 80 bytes |
| ModePages.EmulateModeSense | drivers/target/target_core_cdb.c:1061-1155 | as written: the return value and the buffer are the specified reply: INVALID FIELD IN CDB for 3Fh with another subpage, UNKNOWN MODE PAGE for a page not in the table, else the header up to the cursor, then the pages (over the last 3 descriptor bytes after a LONGLBA descriptor), and MODE DATA LENGTH |
| ModePages.WriteModePages | drivers/target/target_core_cdb.c:1098-1139 | on success the pages are written and the cursor moves past them; on failure nothing is written |
| ModePages.TargetEmulateModeSense | drivers/target/target_core_cdb.c:1023-1155 | as written: a failed bounce allocation gives -ENOMEM with LOGICAL UNIT COMMUNICATION FAILURE; an unknown page through a bounce buffer returns before the copy-back, leaving the caller's buffer as it was; otherwise the buffer receives the first data_length bytes of ModeSense's reply |
| ModePages.NothingChangeable | drivers/target/target_core_cdb.c:824-825 | with PC=1 every byte after a page's header is zero: nothing is reported changeable |
| ModePages.EmulateModeSelect | drivers/target/target_core_cdb.c:1157-1210 | the scan, the page built in a zeroed buffer and memcmp decide what ModeSelect specifies |
| ModePages.ModeSelect | drivers/target/target_core_cdb.c:1157-1210 | MODE SELECT answers GOOD, INVALID FIELD IN CDB or UNKNOWN MODE PAGE (all -EINVAL) and nothing else, and anything but INVALID FIELD IN CDB needs PF set |
| ModePages.LowPageCode | drivers/target/target_core_cdb.c:1180-1181 | a page code below 40h survives the 3Fh mask and has the SPF bit clear |
| ModePages.TablePageCode | drivers/target/target_core_cdb.c:1180-1184 | so does every table page code |
| ModePages.ModeSelectAcceptsOnlyCurrent | drivers/target/target_core_cdb.c:1174-1199 | MODE SELECT succeeds exactly when PF is set and the bytes at offset 4 (6-byte) or 8 (10-byte) equal a table page's PC=0 output byte for byte, subpage taken only when bit 40h is set |
| ModePages.ModeSenseSelectRoundTrip | drivers/target/target_core_cdb.c:1023-1210 | sending back the current-values page MODE SENSE (with DBD) reported, with PF set and the same CDB size, is accepted |
| ModePages.ModeSenseReportsCurrentPage | drivers/target/target_core_cdb.c:1123-1145 | as written: MODE SENSE for a table page with PC=0 reports that page's current values from the header cursor on |
| ModePages.ModeSensePagesCurrent | drivers/target/target_core_cdb.c:1123-1128 | the page list for a table page with PC=0 is that page's current values |
| ModePages.SetModeDataLengthKeepsTail | drivers/target/target_core_cdb.c:1141-1145 | setting the length leaves every byte from the device-specific byte on alone |
| ModePages.LongBlockDescLenShort | drivers/target/target_core_cdb.c:1008-1021 | as written, a block count above 32 bits returns 17 for the 20 bytes written, disagreeing with the descriptor's own length field, so the next page overwrites the BLOCK LENGTH bytes 0, 2, 0 |
| ReadCapacity.ReturnedLba10 | drivers/target/target_core_cdb.c:760-763 | the returned LBA is the last LBA when it is below FFFFFFFFh and FFFFFFFFh otherwise |
| ReadCapacity.ReadCapacity10 | drivers/target/target_core_cdb.c:755-778 | READ CAPACITY(10) fails, always INVALID FIELD IN CDB with -EINVAL, exactly when PMI is clear and LOGICAL BLOCK ADDRESS bytes 2-5 are not all zero; a reply is 8 bytes |
| ReadCapacity.ReadCapacity16 | drivers/target/target_core_cdb.c:790-814 | READ CAPACITY(16) returns 32 bytes |
| ReadCapacity.ReadCapacity10Decodes | drivers/target/target_core_cdb.c:755-778 | READ CAPACITY(10) fails INVALID FIELD IN CDB exactly when PMI is clear and the LBA field is nonzero; otherwise its 8 bytes decode to the saturated last LBA and the block length |
| ReadCapacity.ReadCapacity16Decodes | drivers/target/target_core_cdb.c:790-810 | the reply decodes to the full 64-bit last LBA and the block length, and byte 14 is C0h (TPE and LBPRZ) exactly when UNMAP or WRITE SAME thin provisioning is emulated, else 0 |
| ReadCapacity.EmulateReadCapacity | drivers/target/target_core_cdb.c:738-779 | a refused CDB leaves the buffer untouched; otherwise the first 8 bytes become the reply and 8 is returned |
| ReadCapacity.EmulateReadCapacity16 | drivers/target/target_core_cdb.c:781-815 | the zeroed buffer ends up holding the 32-byte reply and 32 is returned |
| RequestSense.SenseData | drivers/target/target_core_cdb.c:1229-1264 | the sense bytes REQUEST SENSE leaves are 18 |
| RequestSense.SenseDataFormat | drivers/target/target_core_cdb.c:1229-1264 | a current error in fixed format (70h) whose sense key is UNIT ATTENTION exactly when one was pending, else NO SENSE; with an 18-byte buffer ADDITIONAL SENSE LENGTH is 10 and the attention's ASC/ASCQ are reported, with a shorter one byte 7 is 0 |
| RequestSense.EmulateRequestSense | drivers/target/target_core_cdb.c:1212-1269 | DESC set fails -ENOSYS with INVALID FIELD IN CDB and writes nothing; otherwise, for any allocation length, bytes 0, 2 and 7 of the fixed-format sense data are written, the ADDITIONAL SENSE LENGTH and ASC/ASCQ only when the allocation length is at least 18, and 18 is returned |
| BackendCommands.WriteSameRangeReachesEnd | drivers/target/target_core_cdb.c:1413-1416 | corrected: an explicit count is the range; a zero count from an LBA on the medium covers every block through the last LBA |
| BackendCommands.WriteSame | drivers/target/target_core_cdb.c:1392-1473 | as written: UNSUPPORTED SCSI OPCODE exactly when neither operation exists; at most one backend call, a write-same only when the backend has it and a discard only when it has discard and not write-same, at the task's LBA with the as-written range narrowed to the u32 parameter; with write-same the backend's return code is returned |
| BackendCommands.WriteSameFallback | drivers/target/target_core_cdb.c:1392-1473 | as written: UNSUPPORTED SCSI OPCODE exactly when neither discard nor write-same exists; do_write_same is always preferred and its return code returned; otherwise blocks are discarded exactly when UNMAP (flag 08h) is set, -ENOSYS when not, GOOD exactly when the discard succeeds; the range is the explicit count, or for a zero count last LBA - lba modulo 2^32 |
| BackendCommands.CompareAndWrite | drivers/target/target_core_cdb.c:1476-1498 | without do_compare_and_write the command fails UNSUPPORTED SCSI OPCODE with no call; otherwise CDB byte 13 is passed on and the backend's return code returned |
| BackendCommands.SynchronizeCache | drivers/target/target_core_cdb.c:1500-1514 | without do_sync_cache the command fails UNSUPPORTED SCSI OPCODE with no call; otherwise the flush is issued and 0 returned |
| BackendCommands.Noop | drivers/target/target_core_cdb.c:1516-1521 | completes GOOD with no backend call |
| Unmap.OutOfRangeAgrees | drivers/target/target_core_cdb.c:1324 | without 64-bit wrap-around the check as written is the intended lba+range > last LBA+1 |
| Unmap.DescCountIsQuotient | drivers/target/target_core_cdb.c:1294-1302 | the descriptor count is min(data_length-8, bd_dl)/16, 0 for a negative size |
| Unmap.Walk | drivers/target/target_core_cdb.c:1312-1366 | as written: at most one backend call per descriptor, each a write-same or a discard whose range is within max_unmap_lba_count and passes the 64-bit range check |
| Unmap.Unmap | drivers/target/target_core_cdb.c:1275-1375 | as written: a backend call is made only when do_discard exists, never more than max_unmap_block_desc_count of them, and each within max_unmap_lba_count and passing the 64-bit range check |
| Unmap.WalkDiscardsInOrder | drivers/target/target_core_cdb.c:1312-1366 | without do_write_same the descriptors are discarded in order, one call each, stopping at the first that fails validation or whose discard fails; earlier discards stay done |
| Unmap.WalkCompletedValid | drivers/target/target_core_cdb.c:1302-1328 | as written: when UNMAP completes, the count was within max_unmap_block_desc_count and every descriptor's range within max_unmap_lba_count and passing the 64-bit range check as written; where lba + range and the last LBA + 1 do not wrap, on the medium |
| Unmap.GetBE | drivers/target/target_core_cdb.c:1298-1314 | get_unaligned_beN reads the big-endian value of the n bytes |
| Unmap.ZeroFill | drivers/target/target_core_cdb.c:1346 | memset clears the first n bytes and nothing else |
| Unmap.EmulateUnmap | drivers/target/target_core_cdb.c:1275-1375 | as written: the return, sense reason and backend calls are the specified Unmap (UNSUPPORTED SCSI OPCODE without do_discard, INVALID PARAMETER LIST for too many descriptors, the walk with the wrapping 64-bit range check otherwise), and the buffer is cleared only before the do_write_same hand-off |
| Unmap.UnmapDescriptors | drivers/target/target_core_cdb.c:1312-1374 | as written: the descriptor loop from byte 8 computes the specified walk, range check in 64-bit arithmetic included |
| Unmap.UnmapStep | drivers/target/target_core_cdb.c:1313-1365 | as written: one turn either ends the walk with its result or discards descriptor p and keeps the loop relation for p+16; the range check compares lba + range and the last LBA + 1 modulo 2^64 |
| TaskCdb.LbaModulus | drivers/target/target_core_cdb.c:1537-1564 | the LBA field width is positive: 2^21, 2^32 or 2^64 values |
| TaskCdb.TaskCdb | drivers/target/target_core_cdb.c:1527-1569 | rewriting keeps the CDB's length |
| TaskCdb.TaskCdbFields | drivers/target/target_core_cdb.c:1532-1568 | a non-data CDB is copied unchanged; for a data CDB of 6/10/12/16/32 bytes the LBA and transfer fields decode to the task's LBA and sectors truncated to the field (21 and 8 bits for 6 bytes), and every other byte is the initiator's |
| TaskCdb.Lba21Bytes | drivers/target/target_core_cdb.c:1540-1542 | the three shifted and masked stores are the 21-bit LBA big-endian |
| TaskCdb.PutCdb6Fields | drivers/target/target_core_cdb.c:1538-1544 | bytes 1-3 get the 21-bit LBA and byte 4 the low byte of the count |
| TaskCdb.PutDataFields | drivers/target/target_core_cdb.c:1537-1567 | the switch stores the LBA and count at each length's offsets and widths, nothing else |
| TaskCdb.GetTaskCdb | drivers/target/target_core_cdb.c:1527-1569 | the first cdb_len bytes of the destination become the rewritten CDB |
| BackendCommands.WriteSameRangeAsWrittenShort | drivers/target/target_core_cdb.c:1413-1416 | as written, a zero count from an LBA on the medium stops at the last LBA without writing it, one block fewer than intended |
| BackendCommands.WriteSameRangeExample | drivers/target/target_core_cdb.c:1413-1416 | as written, a 100-block medium from LBA 0 gets 99 blocks, where 100 are intended |
| BackendCommands.WriteSameArgNarrows | drivers/target/target_core_iblock.c:838 | as written, the range reaches do_write_same as a u32: a zero count from LBA 0 on a device whose last LBA is 2^33 - 1 passes 2^32 - 1 blocks, while the intended 2^33 blocks narrow to 0 |
| Unmap.OutOfRangeWraps | drivers/target/target_core_cdb.c:1324 | as written, a descriptor at LBA 2^64 - 1 of 2 blocks on a 1001-block medium wraps and passes the range check |
| Iblock.BlockLba | drivers/target/target_core_iblock.c:773-786 | the conversion fails exactly for a block size other than 512, 1024, 2048 or 4096, with LOGICAL UNIT COMMUNICATION FAILURE and -ENOSYS |
| Iblock.BlockLbaKeepsAddress | drivers/target/target_core_iblock.c:773-780 | the converted sector times 512 is the byte address lba * block size whenever it fits in 64 bits |
| Iblock.DoWriteSame | drivers/target/target_core_iblock.c:838-910 | an unknown block size is refused with -ENOSYS; a pass-through request gets the converted sector and range << 9 truncated to 32 bits; without write_same_fn it is UNSUPPORTED SCSI OPCODE with -EIO; otherwise the converted sector and the range go to write_same_fn |
| Iblock.DoCompareAndWrite | drivers/target/target_core_iblock.c:912-1004 | the same conversion; a pass-through request gets length 0; without compare_and_write_fn it is UNSUPPORTED SCSI OPCODE with -EIO; otherwise the converted sector and the range go to compare_and_write_fn |
| Iblock.WriteMode | drivers/target/target_core_iblock.c:754-767 | READ exactly for data from the device; WRITE_FUA exactly when the write cache is not emulated or emulated FUA writes meet a FUA command |
| Iblock.ReadCapWithBlockSize | drivers/target/target_core_iblock.c:433-504 | as written: the backing device's last LBA, size / backing - 1 in 64-bit arithmetic, is reported unchanged when either block size is outside 512/1024/2048/4096, and never grows when the configured block is larger |
| Iblock.ReadCapRescales | drivers/target/target_core_iblock.c:433-504 | the last LBA is the backing device's last LBA multiplied by backing/configured for a smaller configured block, divided by configured/backing for a larger one, unchanged otherwise |
| Iblock.GetBlocks | drivers/target/target_core_iblock.c:1097-1104 | corrected: for a device of at least one block of either size the last LBA is below its byte size; below one block the 64-bit subtraction wraps to 2^64 - 1 |
| Iblock.GetBlocksWithinDevice | drivers/target/target_core_iblock.c:1097-1104 | the corrected count reports the last whole configured block: blocks 0..r fit in the device and one more does not |
| Iblock.ReadCapPastEnd | drivers/target/target_core_iblock.c:433-504 | as written, an 8704-byte device with 4096-byte blocks reports LBA 2, whose block ends past the device, and a 40960-byte device with 512-byte blocks reports 72 of its 79 |
| Iblock.CawDecision | drivers/target/target_core_iblock.c:1179-1192 | the task succeeds exactly when no bio failed and the matched length reaches the bio size; a shorter match with no error is MISCOMPARE DURING VERIFY at that length |
| Iblock.CmdMemRequest | drivers/target/target_core_iblock.c:384-416 | the buffer is data_length bytes, at least one 512-byte sector for WRITE SAME; the request completes through ps_endpr as a PR offload exactly when a reservation is offloaded by a command with no opcode, through ps_endio with its own opcode otherwise |
| Iblock.AllocCmdMem | drivers/target/target_core_iblock.c:384-416 | the allocation's error is returned and records no request; on success the request is recorded and 0 returned |
| Iblock.EmulateSyncCache | drivers/target/target_core_iblock.c:523-543 | with IMMED the command completes GOOD first and the flush carries no command; without IMMED only the flush, carrying the command, is submitted |
| Iblock.EndIoFlush | drivers/target/target_core_iblock.c:507-517 | a flush carrying the command completes it, good exactly when the flush succeeded; one without completes nothing |
| Iblock.SyncCacheCompletesOnce | drivers/target/target_core_iblock.c:507-543 | SYNCHRONIZE CACHE completes exactly once, good when IMMED is set or the flush succeeded |
| Iblock.Request.constructor | drivers/target/target_core_iblock.c:214-227 | a new request has pending count 1 (the submitter's), no error, no bio and no completion |
| Iblock.Request.Outcome | drivers/target/target_core_iblock.c:1129-1136 | success is only reported when no bio failed |
| Iblock.Request.Release | drivers/target/target_core_iblock.c:1129-1136 | dropping a reference decrements pending; exactly the drop that reaches 0 completes the task, with MISCOMPARE DURING VERIFY recorded for a short match |
| Iblock.Request.GetBio | drivers/target/target_core_iblock.c:676-710 | an allocated bio takes one more pending reference; nothing else changes |
| Iblock.Request.SetRetval | drivers/target/target_core_iblock.c:980 | compare_and_write_fn stores the matched length; nothing else changes |
| Iblock.Request.BioDone | drivers/target/target_core_iblock.c:1106-1193 | a failed or not-up-to-date bio counts one error; its reference is dropped; the task is completed now exactly when it was the last reference, never before |
| Iblock.Request.SubmitterDone | drivers/target/target_core_iblock.c:825-828 | the submitter drops its reference; the task completes now exactly when no bio is in flight |
| Iblock.CompletesOnceDrained | drivers/target/target_core_iblock.c:1117-1136 | once every reference is dropped the task has been completed, and never successfully after a bio error |
| Iblock.MiscompareSense | drivers/target/target_core_iblock.c:243-252 | the miscompare sense keeps the buffer's length |
| Iblock.MiscompareSenseDecodes | drivers/target/target_core_iblock.c:243-252 | the sense reads back as F0h, sense key MISCOMPARE, ADDITIONAL SENSE LENGTH 10, ASC 1Dh/ASCQ 0 and the offset big-endian in bytes 3-6; every other byte is unchanged |
| Iblock.WriteMiscompareSense | drivers/target/target_core_iblock.c:243-252 | the stores leave exactly the miscompare sense in the buffer |
| Iblock.Command.constructor | drivers/target/target_core_iblock.c:229-351 | a command with a zeroed sense buffer, GOOD status, no sense reason and no completion |
| Iblock.Command.PsEndio | drivers/target/target_core_iblock.c:229-259 | COMPARE AND WRITE with a matched length below data_length records CHECK CONDITION, MISCOMPARE DURING VERIFY and the 18-byte sense; it and every non-negative CAW result complete successfully, any other request exactly when its result is 0 |
| Iblock.Command.PsEndpr | drivers/target/target_core_iblock.c:261-351 | an error is a RESERVATION CONFLICT completed at once; REQUEST SENSE copies or builds the sense in the data buffer and counts 18; another command counts execute_task's result; the count ends the command as EndWithCount says |
| Iblock.Command.ReturnSense | drivers/target/target_core_iblock.c:283-307 | with a non-GOOD status the saved 18 sense bytes are copied and the status becomes GOOD; otherwise a fixed-format NO SENSE header is written |
| Iblock.Command.EndWithCount | drivers/target/target_core_iblock.c:325-350 | a negative count clears ACTIVE and SENT and fails the request; a positive one completes GOOD, and a count below data_length adds the shortfall to the residual (setting it when UNDERFLOW was clear) and becomes data_length; 0 ends nothing |
| IblockSubmit.QueueBio | drivers/target/target_core_iblock.c:806-815 | a full bio joins the queue, and a queue reaching IBLOCK_MAX_BIO_PER_TASK bios is submitted as one batch; no bio is lost or reordered |
| IblockSubmit.SplitComplete | drivers/target/target_core_iblock.c:798-823 | once every entry is placed, the bios carry the entries in order, all but the last full, each starting where the previous ones end, and there are exactly the bios needed |
| IblockSubmit.SplitStopped | drivers/target/target_core_iblock.c:811-813 | when an allocation fails the submitted bios are full, laid out from the start sector and carry a prefix of the entries, fewer bios than needed |
| IblockSubmit.SubmitEntries | drivers/target/target_core_iblock.c:788-829 | the loop succeeds exactly when the allocations cover the bios needed; then the submissions are well batched and split the entries, and the submitter's reference is dropped; otherwise a prefix in full bios stays submitted and the submitter keeps its reference |
| IblockSubmit.DoTask | drivers/target/target_core_iblock.c:733-836 | a pass-through task returns 0 with no bio, handing exec_ps_buf_fn the command's LBA unconverted and xparam 0; an unknown block size is -ENOSYS, a failed allocation -ENOMEM, both LOGICAL UNIT COMMUNICATION FAILURE; otherwise the entries are split from the converted sector and submitted with the write mode above |
| Tmr.TasAbort | drivers/target/target_core_tmr.c:57-75 | one or two calls, the last finishing the command as an abort (removing it exactly when no front-end reference remains); the first is TASK ABORTED, and there are two, exactly when a reference remains and the reset came over the command's own nexus or TAS is set |
| Tmr.TasPolicy | drivers/target/target_core_tmr.c:57-75 | a command is finished once, last, and removed exactly when no front-end reference remains; TASK ABORTED is sent exactly when a reference remains and the reset came over the command's own nexus or TAS is set (stated on the finished and sent lists) |
| Tmr.KeyListed | drivers/target/target_core_tmr.c:77-90 | the walk over the registrations finds `key` exactly when some registration carries it |
| Tmr.PreemptSkips | drivers/target/target_core_tmr.c:77-90 | a command is left alone exactly when there is an abort list and no registration on it carries the command's reservation key |
| Tmr.Session.constructor | drivers/target/target_core_tmr.c:92-154 | a session with its node ACL and command list |
| Tmr.TmrCmd.constructor | drivers/target/target_core_tmr.c:43-54 | a command with a referenced task tag, not yet a TMR CDB and with no request |
| Tmr.TmrCmd.ReqInit | drivers/target/target_core_tmr.c:43-54 | the command becomes a TMR CDB whose request points back at it and records the fabric's request and the function; tag and response unchanged |
| Tmr.ResetInitiator | drivers/target/target_core_tmr.c:249-258 | an initiator is known only when there is a request with a command that has a session |
| Tmr.Device.constructor | drivers/target/target_core_tmr.c:222-299 | a device with its TAS setting, reset handler and queue, queue_cnt counting the queue, no SPC-2 reservation and no resets |
| Tmr.FindTask | drivers/target/target_core_tmr.c:101-120 | the first command from index i of this device with the referenced tag, or none when no command there matches |
| Tmr.AbortTask | drivers/target/target_core_tmr.c:92-154 | no match or a completed match answers TASK DOES NOT EXIST and changes nothing; otherwise exactly that command leaves the session list, is referenced, cancelled, sent TASK ABORTED and released (twice when ACK_KREF), and the answer is FUNCTION COMPLETE |
| Tmr.AbortTaskRemovesOne | drivers/target/target_core_tmr.c:121-146 | the list after a successful abort is the old one with exactly the aborted command removed |
| Tmr.Mark | drivers/target/target_core_tmr.c:190-191 | a drained command is marked aborted and no longer queued, keeping its identity |
| Tmr.DrainCmdList | drivers/target/target_core_tmr.c:156-220 | the queue keeps in order exactly the commands not drained, queue_cnt drops by the number drained, and every drained command is resolved in drain order |
| Tmr.MoveToDrainList | drivers/target/target_core_tmr.c:175-193 | the scan leaves queued the commands a preempt skips or the PROUT command itself and moves every other, marked, to the drain list in order |
| Tmr.ScanStep | drivers/target/target_core_tmr.c:176-193 | one command is either left queued or moved, counted off queue_cnt |
| Tmr.ResolveDrainList | drivers/target/target_core_tmr.c:195-219 | the drain list is resolved front to back: a TMR finished as an abort, every other command by the TAS policy |
| Tmr.DrainStep | drivers/target/target_core_tmr.c:175-193 | one more scanned command extends exactly one of the kept and drained lists |
| Tmr.DrainPartition | drivers/target/target_core_tmr.c:175-193 | the kept and drained commands together are exactly the old queue: none lost or made up |
| Tmr.KeptNotDrained | drivers/target/target_core_tmr.c:181-188 | every command left queued was on the queue and is one the drain does not take |
| Tmr.DrainedAreTaken | drivers/target/target_core_tmr.c:190-193 | the drained commands are the taken ones, in order, each marked aborted and not queued |
| Tmr.Taken | drivers/target/target_core_tmr.c:175-193 | every taken command was queued and is one the drain takes |
| Tmr.ResolvedOnceEach | drivers/target/target_core_tmr.c:195-219 | the commands finished as aborts are exactly the drain list, once each, in drain order |
| Tmr.ResetCalls | drivers/target/target_core_tmr.c:259-298 | the drain's calls are preceded by the backend reset exactly when PR offload is on and the backend has one, and followed by the wait exactly when that reset started successfully; without it the calls are the drain's alone |
| Tmr.LunReset | drivers/target/target_core_tmr.c:222-299 | 0 is returned and the reset counted; the queue is drained under the device's TAS for the requesting initiator; a reset with no preempt list releases an SPC-2 reservation and any other keeps it; the backend reset is started and waited for when PR offload is on |
| Tmr.ResetKeepsQueueCount | drivers/target/target_core_tmr.c:175-193 | if queue_cnt counted the queue before a LUN RESET it counts it after |
| Bufoops.RoundDownPow2 | drivers/char/bufoops.c:153-154 | rounddown_pow_of_two gives the largest power of two p with p <= n < 2p |
| Bufoops.ParamPow2 | drivers/char/bufoops.c:153-154 | the parameter in use is a power of two: the default for 0, otherwise the given value rounded down to within a factor of two |
| Bufoops.DefaultsPow2 | drivers/char/bufoops.c:33-34 | the default record size 2^18 and record count 8 are powers of two |
| Bufoops.GuardExact | drivers/char/bufoops.c:156-159 | num_rec > ULONG_MAX / rec_size holds exactly when the product exceeds ULONG_MAX |
| Bufoops.SizingFacts | drivers/char/bufoops.c:156-167 | for power-of-two sizes the division guard is exact, a product that passes it is computed without wrap-around, and one record fits in the dump area |
| Bufoops.Header | drivers/char/bufoops.c:48-52 | the header is three u64 fields, 24 bytes |
| Bufoops.HeaderDecodes | drivers/char/bufoops.c:142-147 | a reader decodes hdr_size as PAGE_SIZE and rec_size and num_rec as the values in use |
| Bufoops.CopyLengths | drivers/char/bufoops.c:86-90 | each copy is at most its string; together they fill min(l1 + l2, rec_size - off - 1) bytes, leaving the record's last byte free; s1 is copied only after all of s2 fits |
| Bufoops.Record | drivers/char/bufoops.c:79-93 | a record is exactly rec_size bytes |
| Bufoops.RecordKeepsTail | drivers/char/bufoops.c:79-93 | the record starts with the timestamp line, then holds the last n bytes of s1 followed by s2 (n all of them or as many as fit), then NULs, and its last byte is NUL |
| Bufoops.NextPosCycles | drivers/char/bufoops.c:95-97 | corrected: from record k the next position is record (k + 1) mod num_rec |
| Bufoops.SlotInside | drivers/char/bufoops.c:77-79 | record k of num_rec lies inside the dump area |
| Bufoops.NextPosAsWrittenAgrees | drivers/char/bufoops.c:95-97 | while the dump area fits in an int, the int pos agrees with the intended position |
| Bufoops.NextPosAsWrittenNoWrap | drivers/char/bufoops.c:95-97 | as written, while pos + rec_size fits in an int the step is the intended NextPos |
| Bufoops.NextPosAsWrittenWrap | drivers/char/bufoops.c:95-97 | as written, once pos + rec_size passes INT_MAX (below 2^32) the negative int, read as an unsigned long, is at least any accepted dump area, so pos returns to 0 |
| Bufoops.AdvanceAsWritten | drivers/char/bufoops.c:95-97 | as written, from record k the step goes to record k + 1 modulo num_rec while the sum fits in an int, and to record 0 once it passes INT_MAX |
| Bufoops.StepPos | drivers/char/bufoops.c:95-97 | as written: `pos += rec_size` in a 32-bit int, then 0 once pos, compared as an unsigned long, reaches dump_buf_size, which is NextPosAsWritten |
| Bufoops.AdvanceStaysValid | drivers/char/bufoops.c:95-99 | as written, the position Advance moves to is a whole record of the area (record k + 1 modulo num_rec, or 0 after the wrap) and fits in an int |
| Bufoops.NextPosAsWrittenSkipsRecords | drivers/char/bufoops.c:95-97 | as written, with rec_size 2^31 and num_rec 2 on a 64-bit kernel pos goes back to 0 after the first dump, where the intended position is the second record |
| Bufoops.MmapAsWrittenAgrees | drivers/char/bufoops.c:121-122 | without wrap-around the check as written accepts exactly the mappings that end inside the buffer |
| Bufoops.MmapAsWrittenWraps | drivers/char/bufoops.c:121-122 | as written, a two-page mapping at page offset 2^52 - 1 on a 64-bit kernel wraps to 4096 and is accepted though it lies far outside the buffer |
| Bufoops.MmapPagesInside | drivers/char/bufoops.c:106-112 | corrected: for a mapping that ends inside the buffer without wrap-around, every page the fault handler serves lies inside the buffer |
| Bufoops.Logger.constructor | drivers/char/bufoops.c:36-59 | the module parameters as given, and empty sizes, buffer and position |
| Bufoops.Logger.Init | drivers/char/bufoops.c:149-175 | the parameters are rounded; init succeeds exactly when num_rec * rec_size fits below ULONG_MAX - PAGE_SIZE and the allocation succeeds, else -ENOMEM; on success the zeroed buffer holds the header and pos is record 0 |
| Bufoops.Logger.TakeParams | drivers/char/bufoops.c:153-154 | the record size and count become the rounded parameters, both powers of two |
| Bufoops.Logger.SizeBuffer | drivers/char/bufoops.c:156-167 | the sizes are accepted exactly when the dump area leaves room for the header page below ULONG_MAX; then dump_buf_size is the product and buf_size one page more |
| Bufoops.Logger.InitHeader | drivers/char/bufoops.c:142-147 | the header is written at the start of the buffer and nothing else changes |
| Bufoops.Logger.DoDump | drivers/char/bufoops.c:62-100 | as written: other reasons change nothing; an oops or panic replaces the record at pos with the dump's record, moves pos as Advance does (the next record in the cycle while pos + rec_size fits in an int) and clears its first byte; the logger stays consistent |
| Bufoops.Logger.WriteRecord | drivers/char/bufoops.c:77-93 | the record slot at pos holds the dump's record and nothing else changes |
| Bufoops.DumpRecordAt | drivers/char/bufoops.c:79-93 | the memset and the copies of the ends of s2 and s1 leave the record at cur holding the dump's record and change nothing else |
| Bufoops.Logger.Advance | drivers/char/bufoops.c:95-99 | as written: pos becomes the int sum pos + rec_size reset to 0 once, as an unsigned long, it reaches dump_buf_size; the record index moves one on modulo num_rec while the sum fits in an int and to 0 once it passes INT_MAX; only that record's first byte is cleared |
| Bufoops.Logger.Mmap | drivers/char/bufoops.c:118-126 | as written: the result is the check with (vm_pgoff << PAGE_SHIFT) + len computed modulo ULONG_MAX + 1, -EINVAL or 0; without wrap-around a mapping is accepted exactly when it ends inside the buffer |
| Bufoops.FillRecord | drivers/char/bufoops.c:79-93 | the memset and copies leave the slot holding the timestamp, both tails and zeros, and nothing else changes |
| Bufoops.RecordImage | drivers/char/bufoops.c:79-93 | the memset and three copies into a slot produce the record's image |

## Left out

- Locking, RCU, atomics and concurrency: spinlocks, `atomic_dec_and_test` and waits for completion are single atomic steps; `kref` gets and puts, `transport_*` callbacks and `cancel_work_sync` are recorded as calls, not executed.
- Logging (`pr_err`, `pr_debug`, `WARN`) is not modelled.
- Inquiry.TargetEmulateInquiry: the mapped data-in buffer is taken as zero-filled, as the transport allocates it for control CDBs. Whenever no bounce buffer is used (SCF_PASSTHROUGH_SG_TO_MEM_NOALLOC clear, or data_length at least SE_INQUIRY_BUF), the handlers write into it directly; a buffer that is not zero-filled is not modelled, and there every byte the handlers skip keeps its old value, so "zero-padded" holds only for a zeroed buffer.
- Inquiry.TargetEmulateInquiry: on the bounce path the reply must fit in SE_INQUIRY_BUF. The source writes a longer page 83h past the end of its 512-byte `kzalloc` (Inquiry.Evpd83OverrunsBounce gives such an input); that overrun is memory corruption and is not modelled. The same holds for a mapped buffer shorter than the reply.
- Iblock.DoWriteSame and Iblock.DoCompareAndWrite: `Submit` stands for everything after the capability check. A failed `iblock_get_bio` or `bio_add_page` (-ENOMEM with LOGICAL UNIT COMMUNICATION FAILURE) is not modelled, and neither is the return code of `write_same_fn` / `compare_and_write_fn`.
- ModePages.TargetEmulateModeSense: the mapped data-in buffer is taken as zero-filled, as for INQUIRY. Whenever no bounce buffer is used (SCF_PASSTHROUGH_SG_TO_MEM_NOALLOC clear, or data_length at least SE_MODE_PAGE_BUF), the handlers write into it directly; a buffer that is not zero-filled is not modelled, and "over the zeroed buffer" holds only for a zeroed one.
- ReadCapacity.EmulateReadCapacity16: the mapped buffer is taken as zero-filled. The source writes into it directly, so with a fabric-supplied buffer the reserved bytes keep their old values, which the model does not capture.
- RequestSense.EmulateRequestSense: the mapped buffer is taken as zero-filled. The source writes into it directly, so with a fabric-supplied buffer the bytes it skips keep their old values, which the model does not capture.
- Memory allocation: `kmalloc`, `kzalloc`, `vmalloc_user`, `bio_alloc` and `iblock_ps_alloc` succeed or fail according to an input (`allocOk`, `allocLimit`, `allocErr`), except in Iblock.DoWriteSame and Iblock.DoCompareAndWrite, as stated below.
- Freeing memory (`kfree`, `vfree`, `bio_put`) is not modelled.
- Device lookups are inputs: `i_size_read`, `bdev_logical_block_size`, the ALUA target port group and the fabric's port and WWN names.
- The pass-through request queue (`exec_ps_buf_fn`, `write_same_fn`, `compare_and_write_fn`) is a foreign call. Its arguments and return code are modelled; its effect on the medium is not.
- `bio_add_page` and the queue's segment limits: a bio takes entries up to its vector count (`maxPages`). A queue that refuses a shorter entry, the endless loop the comment in `iblock_do_task` warns about, is not modelled.
- Iblock.Request.BioDone: only BIO_UPTODATE and the error code of a finished bio are modelled. The data it moved is not.
- Iblock.CawDecision: `bio_size` is an input. The model does not derive it from the scatter-gather list.
- IblockSubmit.DoTask: after a failed allocation the bios still queued are freed with `bio_put`, which does not drop their pending references. The model keeps those references, as written, and does not model the freeing itself.
- Flushes in SYNCHRONIZE CACHE: `bio_alloc` and `submit_bio` of the flush are recorded as events; the flush itself is not modelled.
- Tmr.LunReset: `num_resets` is modelled as an unbounded `nat`, because its width is not part of the modelled files.
- Tmr.LunReset: the transport's wait for the backend's reset is a recorded `WaitForReset` call.
- Tmr.AbortTask: command state bits other than complete, aborted, queued and ACK_KREF are not modelled.
- Inquiry.EmulateInquiry: the source dereferences the port's `lun_sep` before the handlers test it. The model treats the port as optional, as the handlers do.
- BackendCommands.WriteSameFallback: the check that WRITE SAME data is all zeros before a discard only logs in the source, so it is not modelled.
- TaskCdb.GetTaskCdb: the `u32` sector count of the task is truncated to each CDB's field width as written. A range larger than the field is not split.
- Configfs attributes, module load and unload, HBA and device creation, `misc_register` and `kmsg_dump_register` are outside the modelled operations.
- Bufoops: the mmap fault handler and `vm_ops` are not modelled beyond the bounds they rely on (Bufoops.MmapPagesInside).
- Bufoops: the timestamp line `sprintf` writes is an input (`stamp`), and its terminating NUL falls inside the memset record.
- Bufoops: PAGE_SIZE is 4096, and the header is stored little-endian.
- Bufoops: ULONG_MAX is that of a 32-bit or a 64-bit kernel.
- Bufoops.Logger.DoDump requires the timestamp line to be shorter than the record. With rec_size at or below its length, the source's `sprintf` already writes past the record, and `rec_size - off - 1` wraps.
- Bufoops: a single record (`num_rec` 1) is modelled as written. Each dump clears the first byte of the record it has just written.
- Simultaneous dumps are not modelled. The source has no locking for them either.

## Findings

| source | as written | input that shows it | evidently intended | confidence | as-written member | corrected member |
|---|---|---|---|---|---|---|
| drivers/target/target_core_cdb.c:1008-1021 | the long block descriptor path returns 17 after writing 20 bytes | a device with more than 2^32 blocks and MODE SENSE(10) with LLBAA set | return 20, the bytes written | high; not executed | ModePages.LongBlockDescLenShort | ModePages.LongBlockDescLenCounts |
| drivers/target/target_core_cdb.c:452 | `min_t(u8, strlen(name), 64)` truncates the length to 8 bits first | a 300-byte volume name reports 44 bytes | min(strlen, 64) | high; not executed | Inquiry.VolumeNameLenNarrowing | Inquiry.VolumeNameCapped |
| drivers/target/target_core_cdb.c:1413-1416 | a zero count becomes get_blocks() - lba, where get_blocks() is the last LBA | a 100-block medium from LBA 0 gets 99 blocks | last LBA + 1 - lba | medium; not executed | BackendCommands.WriteSameRangeExample | BackendCommands.WriteSameRangeReachesEnd |
| drivers/target/target_core_iblock.c:838 | do_write_same and do_discard take the range as a u32 | a zero-count WRITE SAME from LBA 0 on a device whose last LBA is 2^33 - 1 | a range that covers the medium, or a refusal | medium; not executed | BackendCommands.WriteSameArgNarrows | BackendCommands.WriteSameRangeReachesEnd |
| drivers/target/target_core_cdb.c:1324 | `lba + range > get_blocks() + 1` in 64-bit arithmetic wraps | LBA 2^64 - 1, 2 blocks, a 1001-block medium | reject descriptors past the medium | high; not executed | Unmap.OutOfRangeWraps | Unmap.OutOfRangeAgrees |
| drivers/target/target_core_iblock.c:433-504 | the backing device's last LBA is rescaled instead of the byte size | 8704 bytes of 512-byte sectors exposed as 4096-byte blocks reports last LBA 2 | the last whole configured block, size / block size - 1 | high; not executed | Iblock.ReadCapPastEnd | Iblock.GetBlocksWithinDevice |
| drivers/char/bufoops.c:121-122 | `(vm_pgoff << PAGE_SHIFT) + len` wraps in an unsigned long | two pages at page offset 2^52 - 1 on a 64-bit kernel | reject mappings past the buffer | high; not executed | Bufoops.MmapAsWrittenWraps | Bufoops.MmapPagesInside |
| drivers/char/bufoops.c:95-97 | `pos` is an `int`, so `pos += rec_size` wraps | rec_size 2^31, num_rec 2 on a 64-bit kernel | cycle through every record | medium; not executed | Bufoops.NextPosAsWrittenSkipsRecords | Bufoops.NextPosCycles |
