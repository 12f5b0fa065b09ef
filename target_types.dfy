/*
 * The state of the generic SCSI target core that the command emulators read:
 * the device (its subsystem-device configuration, its attributes and which
 * optional backend operations it provides), the port the command arrived
 * through, and the sense reasons an emulator records on failure.
 */
module TargetTypes {
  import opened Common

  /** cmd->scsi_sense_reason values the emulators and the iblock backend set. */
  datatype SenseReason =
    | InvalidCdbField                 // TCM_INVALID_CDB_FIELD
    | UnknownModePage                 // TCM_UNKNOWN_MODE_PAGE
    | UnsupportedScsiOpcode           // TCM_UNSUPPORTED_SCSI_OPCODE
    | InvalidParameterList            // TCM_INVALID_PARAMETER_LIST
    | AddressOutOfRange               // TCM_ADDRESS_OUT_OF_RANGE
    | MiscompareDuringVerify          // TCM_MISCOMPARE_DURING_VERIFY
    | ReservationConflict             // TCM_RESERVATION_CONFLICT
    | LogicalUnitCommunicationFailure // TCM_LOGICAL_UNIT_COMMUNICATION_FAILURE

  /**
   * The outcome of an emulator that builds a reply: its value, or the
   * negative errno it returns together with the sense reason it recorded.
   */
  datatype Result<T> = Ok(value: T) | Err(rc: int, reason: SenseReason)

  /**
   * The outcome of an emulator that acts on the device:
   *   Good     - it completed the task itself with GOOD status and returned 0;
   *   Returned - it returned rc without completing the task (a backend
   *              operation's return code, which completes the task itself);
   *   Failed   - it returned the error rc, recording `reason` when it set one.
   */
  datatype Disposition =
    | Good
    | Returned(rc: int)
    | Failed(rc: int, reason: Option<SenseReason>)

  /**
   * A call an emulator makes into the backend, recorded in the order made:
   * do_write_same, do_discard, do_compare_and_write, do_sync_cache. The
   * range parameter of do_write_same and do_discard is a u32.
   */
  datatype BackendCall =
    | WriteSameCall(lba: u64, range: u32)
    | DiscardCall(lba: u64, range: u32)
    | CompareAndWriteCall(blocks: byte)
    | SyncCacheCall

  /** Fixed-format sense data offsets and the sense keys the emulators use. */
  const SPC_SENSE_KEY_OFFSET: nat := 2
  const SPC_ASC_KEY_OFFSET: nat := 12
  const SPC_ASCQ_KEY_OFFSET: nat := 13
  const NO_SENSE: byte := 0x00
  const UNIT_ATTENTION: byte := 0x06
  const MISCOMPARE: byte := 0x0e

  const TYPE_DISK: byte := 0x00
  const TYPE_TAPE: byte := 0x01

  /** OUI the NAA designator carries (PURE_OUI, 24A937h). */
  const PURE_OUI: nat := 0x24A937

  type Bytes2 = s: seq<byte> | |s| == 2 witness [0, 0]
  type Bytes8 = s: seq<byte> | |s| == 8 witness [0, 0, 0, 0, 0, 0, 0, 0]
  type Bytes16 = s: seq<byte> | |s| == 16
    witness [0, 0, 0, 0, 0, 0, 0, 0, 0, 0, 0, 0, 0, 0, 0, 0]

  /** The se_dev_attrib values the emulators consult (all u32 in the source). */
  datatype DevAttrib = DevAttrib(
    blockSize: u32,
    emulateWriteCache: u32,
    emulateFuaWrite: u32,
    emulateTpu: u32,
    emulateTpws: u32,
    emulateTas: bool,
    emulateRestReord: u32,
    emulateUaIntlckCtrl: u32,
    fabricMaxSectors: u32,
    optimalSectors: u32,
    maxUnmapLbaCount: u32,
    maxUnmapBlockDescCount: u32,
    unmapGranularity: u32,
    unmapGranularityAlignment: u32,
    isNonrot: bool)

  /** Which optional se_subsystem_api operations the backend provides. */
  datatype Capabilities = Capabilities(
    discard: bool,          // do_discard
    writeSame: bool,        // do_write_same
    compareAndWrite: bool,  // do_compare_and_write
    lunReset: bool,         // do_lun_reset
    syncCache: bool)        // do_sync_cache

  /**
   * A device as the emulators see it.
   *   vendorId    - the PURE_VENDOR_ID string, 8 characters;
   *   model       - t10_wwn.model, 16 characters;
   *   unitSerial  - t10_wwn.unit_serial, present iff SDF_EMULATED_VPD_UNIT_SERIAL;
   *   luGpId      - the id of the device's ALUA logical unit group, when it is in one;
   *   volumeName  - what get_volume_name returns, when the backend has one;
   *   blocks      - get_blocks(), the last addressable LBA;
   *   offloadPr   - the target_core_offload_pr module parameter.
   */
  datatype Device = Device(
    deviceType: byte,
    deviceRev: byte,
    vendorId: Bytes8,
    model: Bytes16,
    revision: seq<byte>,
    unitSerial: Option<seq<byte>>,
    aluaEmulated: bool,
    luGpId: Option<u16>,
    volumeName: Option<seq<byte>>,
    blocks: u64,
    attrib: DevAttrib,
    caps: Capabilities,
    offloadPr: bool)

  /** The ALUA target port group a port belongs to. */
  datatype TgPtGp = TgPtGp(id: u16, accessType: byte)

  /**
   * The se_port (lun->lun_sep) a command came through and the fabric
   * callbacks' answers for its portal group.
   */
  datatype Port = Port(
    protoIdent: byte,              // get_fabric_proto_ident
    rtpi: u16,                     // sep_rtpi
    tgPtGp: Option<TgPtGp>,        // present when both the member and its group exist
    wwn: seq<byte>,                // tpg_get_wwn, a C string
    tpgt: u16,                     // tpg_get_tag
    fabricVersDesc: Option<Bytes2>) // get_fabric_vers_desc, when the fabric has it

  /** What an INQUIRY or MODE SENSE knows about the I_T nexus and the LUN. */
  datatype Nexus = Nexus(
    port: Option<Port>,  // lun->lun_sep
    virtLun0: bool,      // the device is the portal group's virtual LUN 0
    readOnly: bool)      // the LUN is mapped read-only
}
