/*
 * REQUEST SENSE (SPC-4 section 6.29): fixed-format sense data reporting
 * the pending unit attention, if there is one, or NO SENSE.
 */
module RequestSense {
  import opened Common
  import opened TargetTypes

  /**
   * The unit attention core_scsi3_ua_clear_for_request_sense reports (and
   * clears) for the initiator, if one is pending.
   */
  datatype UnitAttention = UnitAttention(asc: byte, ascq: byte)

  /**
   * The first 18 bytes of the data-in buffer after REQUEST SENSE: current
   * error in fixed format with the UNIT ATTENTION or NO SENSE key; the
   * ADDITIONAL SENSE LENGTH and the unit attention's ASC/ASCQ only when the
   * buffer has room for all 18 bytes (`full`).
   */
  function SenseData(ua: Option<UnitAttention>, full: bool): (d: seq<byte>)
    ensures |d| == 18
  {
    var key := if ua.Some? then UNIT_ATTENTION else NO_SENSE;
    var asc := if full && ua.Some? then ua.value.asc else 0;
    var ascq := if full && ua.Some? then ua.value.ascq else 0;
    [0x70, 0, key, 0, 0, 0, 0, if full then 0x0a else 0x00] + Zeros(4) + [asc, ascq] + Zeros(4)
  }

  /**
   * The sense data is a current error in fixed format whose sense key says
   * whether a unit attention was pending; with room for it, its ADDITIONAL
   * SENSE LENGTH counts the bytes after byte 7 and the unit attention's
   * ASC/ASCQ are reported.
   */
  lemma SenseDataFormat(ua: Option<UnitAttention>, full: bool)
    ensures var d := SenseData(ua, full);
      d[0] == 0x70
      && d[SPC_SENSE_KEY_OFFSET] == (if ua.Some? then UNIT_ATTENTION else NO_SENSE)
      && (full ==> d[7] as int + 8 == |d|)
      && (!full ==> d[7] == 0)
      && (full && ua.Some? ==> d[SPC_ASC_KEY_OFFSET] == ua.value.asc && d[SPC_ASCQ_KEY_OFFSET] == ua.value.ascq)
      && (ua.None? ==> d[SPC_ASC_KEY_OFFSET] == 0 && d[SPC_ASCQ_KEY_OFFSET] == 0)
  {
  }

  /**
   * target_emulate_request_sense with allocation length `dataLength` on the
   * zeroed, mapped data-in buffer `buf` (a mapping holds at least the 18
   * bytes of fixed-format sense data, whatever dataLength is): descriptor
   * format (DESC) is refused with ENOSYS and INVALID FIELD IN CDB; anything
   * else reports 18 bytes, even when dataLength is shorter than that.
   */
  method EmulateRequestSense(cdb: seq<byte>, ua: Option<UnitAttention>, dataLength: nat, buf: array<byte>)
    returns (r: Result<nat>)
    requires |cdb| >= 2 && buf.Length >= 18
    requires forall i :: 0 <= i < buf.Length ==> buf[i] == 0
    modifies buf
    ensures Bit(cdb[1], 0) ==> r == Err(-ENOSYS, InvalidCdbField) && buf[..] == old(buf[..])
    ensures !Bit(cdb[1], 0) ==> r == Ok(18)
    ensures !Bit(cdb[1], 0) ==>
      forall i :: 0 <= i < buf.Length ==> buf[i] == if i < 18 then SenseData(ua, dataLength >= 18)[i] else 0
  {
    if Bit(cdb[1], 0) {
      return Err(-ENOSYS, InvalidCdbField);
    }
    buf[0] := 0x70;
    if ua.Some? {
      // CURRENT ERROR, UNIT ATTENTION
      buf[SPC_SENSE_KEY_OFFSET] := UNIT_ATTENTION;
      if dataLength < 18 {
        buf[7] := 0x00;
        return Ok(18);
      }
      buf[SPC_ASC_KEY_OFFSET] := ua.value.asc;
      buf[SPC_ASCQ_KEY_OFFSET] := ua.value.ascq;
      buf[7] := 0x0a;
    } else {
      // CURRENT ERROR, NO SENSE
      buf[SPC_SENSE_KEY_OFFSET] := NO_SENSE;
      if dataLength < 18 {
        buf[7] := 0x00;
        return Ok(18);
      }
      buf[SPC_ASC_KEY_OFFSET] := 0x00;
      buf[7] := 0x0a;
    }
    return Ok(18);
  }
}
