// The SR040-specific helpers of the API layer: the extended configuration
// TLV builder, the device information parser, the calibration-status
// notification handler, and the builders of the proprietary SET_TRIM_VALUES
// and TEST_START commands, which step a pointer through the command buffer.
module Sr040Internal {
  import opened Bytes
  import opened UwbApiTypes
  import opened UwbApiInternal

  // Device information ids.
  const UCI_EXT_PARAM_ID_DEVICE_NAME: u8 := 0xE3
  const UCI_EXT_PARAM_ID_FIRMWARE_VERSION: u8 := 0xE4
  const UCI_EXT_PARAM_ID_DEVICE_VERSION: u8 := 0xE5
  const UCI_EXT_PARAM_ID_SERIAL_NUMBER: u8 := 0xE6
  const UCI_EXT_PARAM_ID_DSP_VERSION: u8 := 0xE7
  const UCI_EXT_PARAM_ID_RANGER4_VERSION: u8 := 0xE8
  const UCI_EXT_PARAM_ID_CCC_VERSION: u8 := 0xE9

  /** `UCI_EXT_PARAM_ID_DEVICE_NAME_LEN`, `..._SERIAL_NUMBER_LEN` and
      `..._CCC_VERSION_LEN`: the sizes of the three arrays. */
  const DEV_INFO_ARRAY_LEN: nat := 8

  /** `UCI_MSG_BLD_HDR0(p, UCI_MT_CMD, UCI_GID_PROPRIETARY)`. */
  const PROPRIETARY_CMD_HDR0: u8 := 0x2E
  const EXT_UCI_MSG_TEST_START_CMD: u8 := 0x20
  const EXT_UCI_MSG_SET_TRIM_VALUES_CMD: u8 := 0x26
  const UCI_MSG_HDR_SIZE: nat := 4
  const UCI_MAX_PAYLOAD_SIZE: nat := 0xFF

  /** `eCalibStatus` FAILURE. */
  const CALIB_FAILURE: u8 := 2

  // ---------------------------------------------------------------------
  // getExtTLVBuffer

  /** The two-byte ids DPD_ENTRY_TIMEOUT, HPD_ENTRY_TIMEOUT,
      RX_RADIO_CFG_IDXS, TX_MAX_BLOCK_NUM and TX_RADIO_CFG_IDXS, and the
      one-byte ids STS_INDEX_RESTART, TX_POWER_ID, RX_PHY_LOGGING_ENBL,
      TX_PHY_LOGGING_ENBL and NBIC_CONF_ID. */
  function ExtWidth(id: u8): Width
  {
    if id in {0xE9, 0xEA, 0xFB, 0xA1, 0xFC} then Two
    else if id in {0xF9, 0xF2, 0xF4, 0xF5, 0xE6} then One
    else Unknown
  }

  /** `getExtTLVBuffer`. */
  method GetExtTlvBuffer(paramId: u8, value: seq<u8>) returns (length: u8, tlv: seq<u8>)
    requires ValueSize(ExtWidth(paramId), 0) <= |value|
    ensures tlv == Tlv([paramId], ExtWidth(paramId), 0, value)
    ensures length == |tlv|
  {
    length, tlv := WriteTlv([paramId], ExtWidth(paramId), 0, value);
  }

  /** Two-byte ids give 4 bytes, the value low byte first; one-byte ids 3;
      any other id only itself. */
  lemma ExtTlvShape(paramId: u8, value: seq<u8>)
    requires 2 <= |value|
    ensures var t := Tlv([paramId], ExtWidth(paramId), 0, value);
      && (ExtWidth(paramId) == Two ==> |t| == 4 && t[..2] == [paramId, 2] && LE16(t[2], t[3]) == U16At(value, 0))
      && (ExtWidth(paramId) == One ==> t == [paramId, 1, value[0]])
      && (ExtWidth(paramId) == Unknown ==> t == [paramId])
  {
    var t := Tlv([paramId], ExtWidth(paramId), 0, value);
    if ExtWidth(paramId) == Two {
      assert t[2..4] == value[..2] == ToLE16(U16At(value, 0));
    }
  }

  // ---------------------------------------------------------------------
  // parseDeviceInfo

  /** Copies `length` bytes into one of the 8-byte arrays. When `checked`
      is false the copy is as the code does it, without looking at the
      array's size; when true a longer value is refused, as the SR100T parser
      refuses one. None stands for that refusal. */
  function CopyField(dst: seq<u8>, src: seq<u8>, checked: bool): Option<seq<u8>>
  {
    if checked && |src| > DEV_INFO_ARRAY_LEN then None else Some(Overlay(dst, src))
  }

  /** The device information records from offset `k`: a parameter id, a
      length and the value. The three arrays take `length` bytes; the
      version entries read their fixed number of bytes whatever the length
      says; an unknown id consumes only its id and length bytes. */
  function DevInfoFrom(data: seq<u8>, k: nat, info: Sr040DevInfo, checked: bool): Parsed<Sr040DevInfo>
    decreases |data| - k
  {
    if |data| <= k then Done(true, info)
    else if |data| < k + 2 then PastEnd
    else
      var id := data[k];
      var length := data[k + 1];
      var j := k + 2;
      if id == UCI_EXT_PARAM_ID_DEVICE_NAME || id == UCI_EXT_PARAM_ID_SERIAL_NUMBER || id == UCI_EXT_PARAM_ID_CCC_VERSION then
        if |data| < j + length then PastEnd
        else
          var dst := if id == UCI_EXT_PARAM_ID_DEVICE_NAME then info.devName
                     else if id == UCI_EXT_PARAM_ID_SERIAL_NUMBER then info.serialNo else info.cccVersion;
          match CopyField(dst, data[j..j + length], checked)
          case None => Done(false, info)
          case Some(field) =>
            var next := if id == UCI_EXT_PARAM_ID_DEVICE_NAME then info.(devName := field)
                        else if id == UCI_EXT_PARAM_ID_SERIAL_NUMBER then info.(serialNo := field)
                        else info.(cccVersion := field);
            DevInfoFrom(data, j + length, next, checked)
      else if id == UCI_EXT_PARAM_ID_FIRMWARE_VERSION || id == UCI_EXT_PARAM_ID_DSP_VERSION then
        if |data| < j + 3 then PastEnd
        else
          var next := if id == UCI_EXT_PARAM_ID_FIRMWARE_VERSION
                      then info.(fwMajor := data[j], fwMinor := data[j + 1], fwPatchVersion := data[j + 2])
                      else info.(dspMajor := data[j], dspMinor := data[j + 1], dspPatchVersion := data[j + 2]);
          DevInfoFrom(data, j + 3, next, checked)
      else if id == UCI_EXT_PARAM_ID_DEVICE_VERSION || id == UCI_EXT_PARAM_ID_RANGER4_VERSION then
        if |data| < j + 2 then PastEnd
        else
          var next := if id == UCI_EXT_PARAM_ID_DEVICE_VERSION
                      then info.(devMajor := data[j], devMinor := data[j + 1])
                      else info.(bbMajor := data[j], bbMinor := data[j + 1]);
          DevInfoFrom(data, j + 2, next, checked)
      else DevInfoFrom(data, j, info, checked)
  }

  /** `parseDeviceInfo`: fails on empty data, then walks the records with a
      byte index. `data` has `manufacturerLength` bytes, a `UINT8`. */
  method ParseDeviceInfo(data: seq<u8>, info: Sr040DevInfo) returns (r: Parsed<Sr040DevInfo>)
    requires |data| < 0x100
    ensures r == if |data| == 0 then Done(false, info) else DevInfoFrom(data, 0, info, false)
  {
    if |data| == 0 {
      return Done(false, info);
    }
    var index: nat := 0;
    var cur := info;
    while index < |data|
      invariant DevInfoFrom(data, 0, info, false) == DevInfoFrom(data, index, cur, false)
      decreases |data| - index
    {
      if |data| < index + 2 {
        return PastEnd;
      }
      var paramId := data[index];
      var length := data[index + 1];
      index := index + 2;
      if paramId == UCI_EXT_PARAM_ID_DEVICE_NAME {
        if |data| < index + length {
          return PastEnd;
        }
        cur := cur.(devName := Overlay(cur.devName, data[index..index + length]));
        index := index + length;
      } else if paramId == UCI_EXT_PARAM_ID_FIRMWARE_VERSION {
        if |data| < index + 3 {
          return PastEnd;
        }
        cur := cur.(fwMajor := data[index], fwMinor := data[index + 1], fwPatchVersion := data[index + 2]);
        index := index + 3;
      } else if paramId == UCI_EXT_PARAM_ID_DEVICE_VERSION {
        if |data| < index + 2 {
          return PastEnd;
        }
        cur := cur.(devMajor := data[index], devMinor := data[index + 1]);
        index := index + 2;
      } else if paramId == UCI_EXT_PARAM_ID_SERIAL_NUMBER {
        if |data| < index + length {
          return PastEnd;
        }
        cur := cur.(serialNo := Overlay(cur.serialNo, data[index..index + length]));
        index := index + length;
      } else if paramId == UCI_EXT_PARAM_ID_DSP_VERSION {
        if |data| < index + 3 {
          return PastEnd;
        }
        cur := cur.(dspMajor := data[index], dspMinor := data[index + 1], dspPatchVersion := data[index + 2]);
        index := index + 3;
      } else if paramId == UCI_EXT_PARAM_ID_RANGER4_VERSION {
        if |data| < index + 2 {
          return PastEnd;
        }
        cur := cur.(bbMajor := data[index], bbMinor := data[index + 1]);
        index := index + 2;
      } else if paramId == UCI_EXT_PARAM_ID_CCC_VERSION {
        if |data| < index + length {
          return PastEnd;
        }
        cur := cur.(cccVersion := Overlay(cur.cccVersion, data[index..index + length]));
        index := index + length;
      }
    }
    return Done(true, cur);
  }

  /** An id the parser does not know consumes only its id and length
      bytes: its value bytes are read as the next record. */
  lemma UnknownIdConsumesTwoBytes(data: seq<u8>, k: nat, info: Sr040DevInfo, checked: bool)
    requires k + 2 <= |data| && !(0xE3 <= data[k] <= 0xE9)
    ensures DevInfoFrom(data, k, info, checked) == DevInfoFrom(data, k + 2, info, checked)
  {
  }

  /** The version entries read their fixed byte counts whatever the length
      byte says: three for the firmware, two for the device version. */
  lemma VersionsReadFixedCounts(data: seq<u8>, k: nat, info: Sr040DevInfo, checked: bool)
    requires k + 5 <= |data|
    ensures data[k] == UCI_EXT_PARAM_ID_FIRMWARE_VERSION ==>
      DevInfoFrom(data, k, info, checked) ==
      DevInfoFrom(data, k + 5, info.(fwMajor := data[k + 2], fwMinor := data[k + 3], fwPatchVersion := data[k + 4]), checked)
    ensures data[k] == UCI_EXT_PARAM_ID_DEVICE_VERSION ==>
      DevInfoFrom(data, k, info, checked) ==
      DevInfoFrom(data, k + 4, info.(devMajor := data[k + 2], devMinor := data[k + 3]), checked)
  {
  }

  /** The structure's three arrays have their declared size. */
  predicate DevInfoFits(info: Sr040DevInfo)
  {
    |info.devName| == DEV_INFO_ARRAY_LEN && |info.serialNo| == DEV_INFO_ARRAY_LEN && |info.cccVersion| == DEV_INFO_ARRAY_LEN
  }

  /** As written, a device name of nine bytes is copied whole into the
      8-byte `devName`: the write runs one byte past the array. */
  lemma DeviceNameOverflows(name: seq<u8>, info: Sr040DevInfo)
    requires |name| == 9 && DevInfoFits(info)
    ensures var r := DevInfoFrom([UCI_EXT_PARAM_ID_DEVICE_NAME, 9] + name, 0, info, false);
      r.Done? && r.ok && |r.value.devName| == 9 > DEV_INFO_ARRAY_LEN
  {
    var data := [UCI_EXT_PARAM_ID_DEVICE_NAME, 9] + name;
    assert data[2..11] == name;
    var next := info.(devName := Overlay(info.devName, name));
    assert DevInfoFrom(data, 11, next, false) == Done(true, next);
  }

  /** With the length check the SR100T parser has, every finished parse
      leaves the three arrays their declared size, whatever the device
      sends. */
  lemma {:induction false} CheckedDevInfoStaysInBounds(data: seq<u8>, k: nat, info: Sr040DevInfo)
    requires DevInfoFits(info)
    ensures DevInfoFrom(data, k, info, true).Done? ==> DevInfoFits(DevInfoFrom(data, k, info, true).value)
    decreases |data| - k
  {
    if k + 2 <= |data| {
      var j, next := CheckedDevInfoStep(data, k, info);
      if DevInfoFrom(data, k, info, true) != Done(false, info) {
        CheckedDevInfoStaysInBounds(data, j, next);
      }
    }
  }

  /** One record of the checked parse from a state whose arrays fit: it
      fails, refuses the record, or goes on at `j` with arrays that fit. */
  lemma CheckedDevInfoStep(data: seq<u8>, k: nat, info: Sr040DevInfo) returns (j: nat, next: Sr040DevInfo)
    requires DevInfoFits(info) && k + 2 <= |data|
    ensures k < j <= |data| && DevInfoFits(next)
    ensures var r := DevInfoFrom(data, k, info, true);
      r.Done? ==> r == Done(false, info) || r == DevInfoFrom(data, j, next, true)
  {
    var id := data[k];
    var length := data[k + 1];
    j, next := k + 2, info;
    if id == UCI_EXT_PARAM_ID_DEVICE_NAME || id == UCI_EXT_PARAM_ID_SERIAL_NUMBER || id == UCI_EXT_PARAM_ID_CCC_VERSION {
      if j + length <= |data| && length as nat <= DEV_INFO_ARRAY_LEN {
        var src := data[j..j + length];
        next := if id == UCI_EXT_PARAM_ID_DEVICE_NAME then info.(devName := Overlay(info.devName, src))
                else if id == UCI_EXT_PARAM_ID_SERIAL_NUMBER then info.(serialNo := Overlay(info.serialNo, src))
                else info.(cccVersion := Overlay(info.cccVersion, src));
        j := j + length as nat;
      }
    } else if id == UCI_EXT_PARAM_ID_FIRMWARE_VERSION || id == UCI_EXT_PARAM_ID_DSP_VERSION {
      if j + 3 <= |data| {
        next := if id == UCI_EXT_PARAM_ID_FIRMWARE_VERSION
                then info.(fwMajor := data[j], fwMinor := data[j + 1], fwPatchVersion := data[j + 2])
                else info.(dspMajor := data[j], dspMinor := data[j + 1], dspPatchVersion := data[j + 2]);
        j := j + 3;
      }
    } else if id == UCI_EXT_PARAM_ID_DEVICE_VERSION || id == UCI_EXT_PARAM_ID_RANGER4_VERSION {
      if j + 2 <= |data| {
        next := if id == UCI_EXT_PARAM_ID_DEVICE_VERSION
                then info.(devMajor := data[j], devMinor := data[j + 1])
                else info.(bbMajor := data[j], bbMinor := data[j + 1]);
        j := j + 2;
      }
    }
  }

  /** One device information entry as the device reports it. */
  datatype DevInfoEntry =
    | DeviceName(name: seq<u8>)
    | FirmwareVersion(major: u8, minor: u8, patch: u8)
    | DeviceVersion(major: u8, minor: u8)
    | SerialNumber(serial: seq<u8>)
    | DspVersion(major: u8, minor: u8, patch: u8)
    | Ranger4Version(major: u8, minor: u8)
    | CccVersion(ccc: seq<u8>)

  /** An entry whose value fits its array. */
  predicate EntryFits(e: DevInfoEntry)
  {
    match e
    case DeviceName(name) => |name| <= DEV_INFO_ARRAY_LEN
    case SerialNumber(serial) => |serial| <= DEV_INFO_ARRAY_LEN
    case CccVersion(ccc) => |ccc| <= DEV_INFO_ARRAY_LEN
    case _ => true
  }

  /** The record of one entry, with the length its value has. */
  function EncodeEntry(e: DevInfoEntry): (r: seq<u8>)
    requires EntryFits(e)
    ensures 2 <= |r|
  {
    match e
    case DeviceName(name) => [UCI_EXT_PARAM_ID_DEVICE_NAME, |name| as u8] + name
    case FirmwareVersion(major, minor, patch) => [UCI_EXT_PARAM_ID_FIRMWARE_VERSION, 3, major, minor, patch]
    case DeviceVersion(major, minor) => [UCI_EXT_PARAM_ID_DEVICE_VERSION, 2, major, minor]
    case SerialNumber(serial) => [UCI_EXT_PARAM_ID_SERIAL_NUMBER, |serial| as u8] + serial
    case DspVersion(major, minor, patch) => [UCI_EXT_PARAM_ID_DSP_VERSION, 3, major, minor, patch]
    case Ranger4Version(major, minor) => [UCI_EXT_PARAM_ID_RANGER4_VERSION, 2, major, minor]
    case CccVersion(ccc) => [UCI_EXT_PARAM_ID_CCC_VERSION, |ccc| as u8] + ccc
  }

  /** The records of a list of entries. */
  function EncodeEntries(es: seq<DevInfoEntry>): seq<u8>
    requires forall i :: 0 <= i < |es| ==> EntryFits(es[i])
  {
    if es == [] then [] else EncodeEntry(es[0]) + EncodeEntries(es[1..])
  }

  /** What one entry sets. */
  function ApplyEntry(info: Sr040DevInfo, e: DevInfoEntry): Sr040DevInfo
  {
    match e
    case DeviceName(name) => info.(devName := Overlay(info.devName, name))
    case FirmwareVersion(major, minor, patch) => info.(fwMajor := major, fwMinor := minor, fwPatchVersion := patch)
    case DeviceVersion(major, minor) => info.(devMajor := major, devMinor := minor)
    case SerialNumber(serial) => info.(serialNo := Overlay(info.serialNo, serial))
    case DspVersion(major, minor, patch) => info.(dspMajor := major, dspMinor := minor, dspPatchVersion := patch)
    case Ranger4Version(major, minor) => info.(bbMajor := major, bbMinor := minor)
    case CccVersion(ccc) => info.(cccVersion := Overlay(info.cccVersion, ccc))
  }

  /** The entries applied in order. */
  function ApplyEntries(info: Sr040DevInfo, es: seq<DevInfoEntry>): Sr040DevInfo
    decreases |es|
  {
    if es == [] then info else ApplyEntries(ApplyEntry(info, es[0]), es[1..])
  }

  /** Both the parser as written and the checked one read back what the
      device reports: entries whose values fit their arrays parse
      successfully to the structure with each entry applied in order. */
  lemma {:induction false} DevInfoRoundTrip(pre: seq<u8>, es: seq<DevInfoEntry>, info: Sr040DevInfo, checked: bool)
    requires forall i :: 0 <= i < |es| ==> EntryFits(es[i])
    ensures DevInfoFrom(pre + EncodeEntries(es), |pre|, info, checked) == Done(true, ApplyEntries(info, es))
    decreases |es|
  {
    if es != [] {
      var rec := EncodeEntry(es[0]);
      assert pre + EncodeEntries(es) == (pre + rec) + EncodeEntries(es[1..]);
      DevInfoStep(pre, es[0], EncodeEntries(es[1..]), info, checked);
      DevInfoRoundTrip(pre + rec, es[1..], ApplyEntry(info, es[0]), checked);
    }
  }

  /** The parser's step over one entry's record. */
  lemma DevInfoStep(pre: seq<u8>, e: DevInfoEntry, rest: seq<u8>, info: Sr040DevInfo, checked: bool)
    requires EntryFits(e)
    ensures DevInfoFrom(pre + EncodeEntry(e) + rest, |pre|, info, checked)
      == DevInfoFrom(pre + EncodeEntry(e) + rest, |pre + EncodeEntry(e)|, ApplyEntry(info, e), checked)
  {
    var rec := EncodeEntry(e);
    var data := pre + rec + rest;
    assert data[|pre|..|pre| + |rec|] == rec;
    if e.DeviceName? || e.SerialNumber? || e.CccVersion? {
      ArrayEntryStep(data, |pre|, e, info, checked);
    } else {
      FixedEntryStep(data, |pre|, e, info, checked);
    }
  }

  /** The step over a record that fills one of the three arrays. */
  lemma ArrayEntryStep(data: seq<u8>, k: nat, e: DevInfoEntry, info: Sr040DevInfo, checked: bool)
    requires (e.DeviceName? || e.SerialNumber? || e.CccVersion?) && EntryFits(e)
    requires k + |EncodeEntry(e)| <= |data| && data[k..k + |EncodeEntry(e)|] == EncodeEntry(e)
    ensures DevInfoFrom(data, k, info, checked) == DevInfoFrom(data, k + |EncodeEntry(e)|, ApplyEntry(info, e), checked)
  {
    var v := ArrayRecordBytes(data, k, e);
  }

  /** Where the id, the length and the value of an array record lie. */
  lemma ArrayRecordBytes(data: seq<u8>, k: nat, e: DevInfoEntry) returns (v: seq<u8>)
    requires (e.DeviceName? || e.SerialNumber? || e.CccVersion?) && EntryFits(e)
    requires k + |EncodeEntry(e)| <= |data| && data[k..k + |EncodeEntry(e)|] == EncodeEntry(e)
    ensures v == if e.DeviceName? then e.name else if e.SerialNumber? then e.serial else e.ccc
    ensures |EncodeEntry(e)| == 2 + |v| && data[k] == EncodeEntry(e)[0] && data[k + 1] == |v| as u8
    ensures data[k + 2..k + 2 + |v|] == v
  {
    var rec := EncodeEntry(e);
    v := if e.DeviceName? then e.name else if e.SerialNumber? then e.serial else e.ccc;
    assert rec == [rec[0], |v| as u8] + v;
    assert data[k] == rec[0] && data[k + 1] == |v| as u8;
    assert data[k + 2..k + 2 + |v|] == rec[2..] == v;
  }

  /** The step over a version record. */
  lemma FixedEntryStep(data: seq<u8>, k: nat, e: DevInfoEntry, info: Sr040DevInfo, checked: bool)
    requires !(e.DeviceName? || e.SerialNumber? || e.CccVersion?)
    requires k + |EncodeEntry(e)| <= |data| && data[k..k + |EncodeEntry(e)|] == EncodeEntry(e)
    ensures DevInfoFrom(data, k, info, checked) == DevInfoFrom(data, k + |EncodeEntry(e)|, ApplyEntry(info, e), checked)
  {
    var rec := EncodeEntry(e);
    assert data[k] == rec[0] && data[k + 1] == rec[1] && data[k + 2] == rec[2] && data[k + 3] == rec[3] by {
      assert data[k..k + |rec|][0] == rec[0] && data[k..k + |rec|][1] == rec[1];
      assert data[k..k + |rec|][2] == rec[2] && data[k..k + |rec|][3] == rec[3];
    }
    if |rec| == 5 {
      assert data[k + 4] == rec[4] by {
        assert data[k..k + |rec|][4] == rec[4];
      }
    }
  }

  // ---------------------------------------------------------------------
  // handle_calib_status_ntf

  /** `handle_calib_status_ntf`: the calibration status is FAILURE unless
      the notification has a byte, which then is the status. */
  function CalibStatusNtf(p: seq<u8>): (status: u8)
    ensures |p| == 0 ==> status == CALIB_FAILURE
    ensures 0 < |p| ==> status == p[0]
  {
    if |p| == 0 then CALIB_FAILURE else p[0]
  }

  // ---------------------------------------------------------------------
  // formCalibrationCommand

  /** `phDdfsToneConfigData_t`. */
  datatype DdfsTone = DdfsTone(channelNo: u8, rfu: u8, txDdfsTone0RegVal: u32, txDdfsTone1RegVal: u32,
                               spurDuration: u32, gainvalsetRegVal: u8, gainByPassEnblRegVal: u8, spurPeriodicity: u16)

  /** A calibration parameter and the data the caller's pointer designates
      for it; `Other` is an id `formCalibrationCommand` does not know. */
  datatype CalibParam =
    | TxPowerDiff(channelNo: u8, signVal: u8, absoluteVal: u8)
    | FreqDiff(channelNo: u8, signVal: u8, absoluteFreqOffset: u32)
    | AntennaDelay(channelNo: u8, antennaDelay: u16)
    | CurrentLimitValue(limit: u8)
    | TempCompensFlag(flag: u8)
    | TxAdaptivePowerCalc(channelNo: u8, powerIdRms: u8, peakDelta: u8)
    | DdfsToneValues(tones: seq<DdfsTone>)
    | DpdTimerPenaltyUs(penalty: u32)
    | Other(paramId: u8)

  /** The DDFS data is an array of four tone configurations, and `Other`
      carries an id without a known length. */
  predicate CalibValid(c: CalibParam)
  {
    && (c.DdfsToneValues? ==> |c.tones| == 4)
    && (c.Other? ==> CalibLen(c.paramId) == 0)
  }

  /** `eCalibParam`. */
  function CalibId(c: CalibParam): u8
  {
    match c
    case TxPowerDiff(_, _, _) => 0
    case FreqDiff(_, _, _) => 1
    case AntennaDelay(_, _) => 2
    case CurrentLimitValue(_) => 3
    case TempCompensFlag(_) => 5
    case TxAdaptivePowerCalc(_, _, _) => 6
    case DdfsToneValues(_) => 7
    case DpdTimerPenaltyUs(_) => 8
    case Other(id) => id
  }

  /** The `*_LEN` of each known parameter. */
  function CalibLen(id: u8): nat
  {
    if id == 0 then 3 else if id == 1 then 6 else if id == 2 then 3 else if id == 3 then 1
    else if id == 5 then 1 else if id == 6 then 3 else if id == 7 then 72 else if id == 8 then 4 else 0
  }

  /** One tone configuration, multi-byte fields low byte first. */
  function EncodeTone(t: DdfsTone): (r: seq<u8>)
    ensures |r| == 18
  {
    [t.channelNo, t.rfu] + ToLE32(t.txDdfsTone0RegVal) + ToLE32(t.txDdfsTone1RegVal) + ToLE32(t.spurDuration)
    + [t.gainvalsetRegVal, t.gainByPassEnblRegVal] + ToLE16(t.spurPeriodicity)
  }

  /** The tone configurations in order. */
  function EncodeTones(ts: seq<DdfsTone>): (r: seq<u8>)
    ensures |r| == 18 * |ts|
  {
    if ts == [] then [] else EncodeTones(ts[..|ts| - 1]) + EncodeTone(ts[|ts| - 1])
  }

  /** The value bytes of a known parameter. */
  function CalibValue(c: CalibParam): seq<u8>
  {
    match c
    case TxPowerDiff(ch, sign, abs) => [ch, sign, abs]
    case FreqDiff(ch, sign, offset) => [ch, sign] + ToLE32(offset)
    case AntennaDelay(ch, delay) => [ch] + ToLE16(delay)
    case CurrentLimitValue(limit) => [limit]
    case TempCompensFlag(flag) => [flag]
    case TxAdaptivePowerCalc(ch, rms, peak) => [ch, rms, peak]
    case DdfsToneValues(tones) => EncodeTones(tones)
    case DpdTimerPenaltyUs(penalty) => ToLE32(penalty)
    case Other(_) => []
  }

  /** The SET_TRIM_VALUES command: the header's three bytes, then for a known
      parameter the payload length, one parameter, its id, its length and
      its value. An unknown id leaves only the three header bytes. */
  function CalibrationCommand(c: CalibParam): seq<u8>
  {
    [PROPRIETARY_CMD_HDR0, EXT_UCI_MSG_SET_TRIM_VALUES_CMD, 0x00]
    + (if c.Other? then [] else [(3 + CalibLen(CalibId(c))) as u8, 1, CalibId(c), CalibLen(CalibId(c)) as u8] + CalibValue(c))
  }

  /** `formCalibrationCommand`: writes the command through a moving pointer
      and sets the command length to the payload length plus the header. */
  method FormCalibrationCommand(c: CalibParam) returns (cmd: seq<u8>, commandLength: u16)
    requires CalibValid(c)
    ensures cmd == CalibrationCommand(c)
    ensures commandLength as nat == 3 + CalibLen(CalibId(c)) + UCI_MSG_HDR_SIZE
  {
    var payloadLen: u16 := 3;
    cmd := [PROPRIETARY_CMD_HDR0, EXT_UCI_MSG_SET_TRIM_VALUES_CMD, 0x00];
    var id := CalibId(c);
    if !c.Other? {
      var len := CalibLen(id) as u8;
      payloadLen := payloadLen + CalibLen(id) as u16;
      cmd := cmd + [payloadLen as u8, 1, id, len];
      var value := WriteCalibValue(c);
      cmd := cmd + value;
    }
    commandLength := payloadLen + UCI_MSG_HDR_SIZE as u16;
  }

  /** The value part of `formCalibrationCommand`'s switch. */
  method WriteCalibValue(c: CalibParam) returns (v: seq<u8>)
    requires CalibValid(c) && !c.Other?
    ensures v == CalibValue(c)
  {
    match c {
      case TxPowerDiff(ch, sign, abs) =>
        v := [ch, sign, abs];
      case FreqDiff(ch, sign, offset) =>
        v := [ch, sign];
        v := v + ToLE32(offset);
      case AntennaDelay(ch, delay) =>
        v := [ch];
        v := v + ToLE16(delay);
      case CurrentLimitValue(limit) =>
        v := [limit];
      case TempCompensFlag(flag) =>
        v := [flag];
      case TxAdaptivePowerCalc(ch, rms, peak) =>
        v := [ch, rms, peak];
      case DdfsToneValues(tones) =>
        v := [];
        for loopCnt := 0 to 4
          invariant v == EncodeTones(tones[..loopCnt])
        {
          assert tones[..loopCnt + 1][..loopCnt] == tones[..loopCnt];
          v := v + EncodeTone(tones[loopCnt]);
        }
        assert tones[..4] == tones;
      case DpdTimerPenaltyUs(penalty) =>
        v := ToLE32(penalty);
    }
  }

  /** For every parameter the API passes, the length byte is the payload's
      size and the command length the whole command's: the payload is 3
      bytes plus the parameter's length. */
  lemma CalibrationCommandLengths(c: CalibParam)
    requires CalibValid(c) && !c.Other?
    ensures var cmd := CalibrationCommand(c);
      && |cmd| == 3 + 4 + CalibLen(CalibId(c))
      && cmd[3] as nat == |cmd| - UCI_MSG_HDR_SIZE
      && |CalibValue(c)| == CalibLen(CalibId(c))
  {
  }

  /** An id the builder does not know leaves three bytes written but a
      command length of 7; the API rejects such ids before calling it. */
  lemma UnknownCalibIdLength(id: u8)
    ensures |CalibrationCommand(Other(id))| == 3
  {
  }

  /** Reads one tone configuration back. */
  function DecodeTone(v: seq<u8>): DdfsTone
    requires |v| == 18
  {
    DdfsTone(v[0], v[1], U32At(v, 2), U32At(v, 6), U32At(v, 10), v[14], v[15], U16At(v, 16))
  }

  /** Reads tone configurations back, 18 bytes each. */
  function DecodeTones(v: seq<u8>): seq<DdfsTone>
    requires |v| % 18 == 0
    decreases |v|
  {
    if v == [] then [] else DecodeTones(v[..|v| - 18]) + [DecodeTone(v[|v| - 18..])]
  }

  /** Reads a parameter's value back, given its id. */
  function DecodeCalibValue(id: u8, v: seq<u8>): CalibParam
    requires CalibLen(id) != 0 && |v| == CalibLen(id)
  {
    if id == 0 then TxPowerDiff(v[0], v[1], v[2])
    else if id == 1 then FreqDiff(v[0], v[1], U32At(v, 2))
    else if id == 2 then AntennaDelay(v[0], U16At(v, 1))
    else if id == 3 then CurrentLimitValue(v[0])
    else if id == 5 then TempCompensFlag(v[0])
    else if id == 6 then TxAdaptivePowerCalc(v[0], v[1], v[2])
    else if id == 7 then DdfsToneValues(DecodeTones(v))
    else DpdTimerPenaltyUs(U32At(v, 0))
  }

  /** Reads a SET_TRIM_VALUES command back to its parameter. */
  function DecodeCalibration(cmd: seq<u8>): Option<CalibParam>
  {
    if |cmd| < 7 || cmd[..3] != [PROPRIETARY_CMD_HDR0, EXT_UCI_MSG_SET_TRIM_VALUES_CMD, 0x00] || cmd[4] != 1 then None
    else
      var id := cmd[5];
      if CalibLen(id) == 0 || cmd[6] as nat != CalibLen(id) || |cmd| - 7 != CalibLen(id) || cmd[3] as nat != 3 + CalibLen(id) then None
      else Some(DecodeCalibValue(id, cmd[7..]))
  }

  lemma ToneRoundTrip(t: DdfsTone)
    ensures DecodeTone(EncodeTone(t)) == t
  {
    var v := EncodeTone(t);
    ReadBackLE32([t.channelNo, t.rfu], t.txDdfsTone0RegVal, ToLE32(t.txDdfsTone1RegVal) + ToLE32(t.spurDuration) + [t.gainvalsetRegVal, t.gainByPassEnblRegVal] + ToLE16(t.spurPeriodicity));
    assert v == [t.channelNo, t.rfu] + ToLE32(t.txDdfsTone0RegVal) + (ToLE32(t.txDdfsTone1RegVal) + ToLE32(t.spurDuration) + [t.gainvalsetRegVal, t.gainByPassEnblRegVal] + ToLE16(t.spurPeriodicity));
    ReadBackLE32([t.channelNo, t.rfu] + ToLE32(t.txDdfsTone0RegVal), t.txDdfsTone1RegVal, ToLE32(t.spurDuration) + [t.gainvalsetRegVal, t.gainByPassEnblRegVal] + ToLE16(t.spurPeriodicity));
    assert v == [t.channelNo, t.rfu] + ToLE32(t.txDdfsTone0RegVal) + ToLE32(t.txDdfsTone1RegVal) + (ToLE32(t.spurDuration) + [t.gainvalsetRegVal, t.gainByPassEnblRegVal] + ToLE16(t.spurPeriodicity));
    ReadBackLE32([t.channelNo, t.rfu] + ToLE32(t.txDdfsTone0RegVal) + ToLE32(t.txDdfsTone1RegVal), t.spurDuration, [t.gainvalsetRegVal, t.gainByPassEnblRegVal] + ToLE16(t.spurPeriodicity));
    assert v == [t.channelNo, t.rfu] + ToLE32(t.txDdfsTone0RegVal) + ToLE32(t.txDdfsTone1RegVal) + ToLE32(t.spurDuration) + ([t.gainvalsetRegVal, t.gainByPassEnblRegVal] + ToLE16(t.spurPeriodicity));
    ReadBackLE16(v[..16], t.spurPeriodicity, []);
    assert v == v[..16] + ToLE16(t.spurPeriodicity) + [];
  }

  lemma {:induction false} TonesRoundTrip(ts: seq<DdfsTone>)
    ensures DecodeTones(EncodeTones(ts)) == ts
    decreases |ts|
  {
    if ts != [] {
      var n := |ts| - 1;
      TonesSplit(ts);
      TonesRoundTrip(ts[..n]);
      ToneRoundTrip(ts[n]);
      LastSplit(ts);
    }
  }

  lemma LastSplit<T>(s: seq<T>)
    requires s != []
    ensures s == s[..|s| - 1] + [s[|s| - 1]]
  {
  }

  /** The last 18 bytes of the encoding are the last tone, the bytes before
      them the tones before it. */
  lemma TonesSplit(ts: seq<DdfsTone>)
    requires ts != []
    ensures DecodeTones(EncodeTones(ts))
      == DecodeTones(EncodeTones(ts[..|ts| - 1])) + [DecodeTone(EncodeTone(ts[|ts| - 1]))]
  {
    var v := EncodeTones(ts);
    var n := |ts| - 1;
    assert v[..|v| - 18] == EncodeTones(ts[..n]);
    assert v[|v| - 18..] == EncodeTone(ts[n]);
  }

  /** Each value reads back to its parameter. */
  lemma CalibValueRoundTrip(c: CalibParam)
    requires CalibValid(c) && !c.Other?
    ensures |CalibValue(c)| == CalibLen(CalibId(c))
    ensures DecodeCalibValue(CalibId(c), CalibValue(c)) == c
  {
    var v := CalibValue(c);
    match c
    case FreqDiff(ch, sign, offset) =>
      assert U32At(v, 2) == offset by {
        ReadBackLE32([ch, sign], offset, []);
        assert v == [ch, sign] + ToLE32(offset) + [];
      }
    case AntennaDelay(ch, delay) =>
      assert U16At(v, 1) == delay by {
        ReadBackLE16([ch], delay, []);
        assert v == [ch] + ToLE16(delay) + [];
      }
    case DdfsToneValues(tones) =>
      assert DecodeTones(v) == tones by {
        TonesRoundTrip(tones);
      }
    case DpdTimerPenaltyUs(penalty) =>
      assert U32At(v, 0) == penalty by {
        ReadBackLE32([], penalty, []);
        assert v == [] + ToLE32(penalty) + [];
      }
    case _ =>
  }

  /** The command reads back to the parameter it was built from. */
  lemma CalibrationRoundTrip(c: CalibParam)
    requires CalibValid(c) && !c.Other?
    ensures DecodeCalibration(CalibrationCommand(c)) == Some(c)
  {
    var cmd := CalibrationCommand(c);
    CalibValueRoundTrip(c);
    assert cmd[7..] == CalibValue(c);
    assert cmd[..3] == [PROPRIETARY_CMD_HDR0, EXT_UCI_MSG_SET_TRIM_VALUES_CMD, 0x00];
  }

  // ---------------------------------------------------------------------
  // formTestModeCommand

  /** `eTestMode` with the parameters each mode sends; `InvalidMode` is any
      other value of the enumeration. `psdu` has `psduLen`, a `UINT8`,
      bytes. */
  datatype TestMode =
    | ReceiveMode(slotType: u8, startDelay: u16, eventCounterMax: u32, timeOut: u16)
    | TransmitMode(slotType: u8, startDelay: u16, eventCounterMax: u32, txCycleTime: u32, psdu: seq<u8>)
    | ContinuousWaveMode
    | LoopBackMode
    | InitiatorMode(isPsduEncrypted: u8)
    | LoopBackModeNvmAndSave
    | InvalidMode

  predicate TestModeValid(m: TestMode)
  {
    m.TransmitMode? ==> |m.psdu| < 0x100
  }

  /** One test parameter: its id, its length and its value. */
  function Param(id: u8, value: seq<u8>): (r: seq<u8>)
    requires |value| < 0x100
    ensures |r| == 2 + |value| && r[0] == id && r[1] as nat == |value| && r[2..] == value
  {
    [id, |value| as u8] + value
  }

  /** The payload: the number of parameters, then the parameters, the mode
      itself first. */
  function TestPayload(m: TestMode): seq<u8>
    requires TestModeValid(m)
  {
    match m
    case ReceiveMode(slot, delay, ecm, timeOut) =>
      [5] + Param(0x00, [0x00]) + Param(0x02, [slot]) + Param(0x01, ToLE16(delay))
      + Param(0x05, ToLE32(ecm)) + Param(0x04, ToLE16(timeOut))
    case TransmitMode(slot, delay, ecm, cycle, psdu) =>
      [6] + Param(0x00, [0x01]) + Param(0x02, [slot]) + Param(0x01, ToLE16(delay))
      + Param(0x05, ToLE32(ecm)) + Param(0x06, ToLE32(cycle)) + Param(0x03, psdu)
    case ContinuousWaveMode => [1] + Param(0x00, [0x02])
    case LoopBackMode => [1] + Param(0x00, [0x03])
    case InitiatorMode(enc) => [2] + Param(0x00, [0x04]) + Param(0x07, [enc])
    case LoopBackModeNvmAndSave => [1] + Param(0x00, [0x05])
    case InvalidMode => []
  }

  /** The payload length as the code adds it up, one byte for the count,
      two per parameter and the value lengths, kept in a `UINT8`. */
  function PayloadLenAsWritten(m: TestMode): u8
  {
    match m
    case ReceiveMode(_, _, _, _) => 1 + 5 * 2 + 1 + 2 + 1 + 4 + 2
    case TransmitMode(_, _, _, _, psdu) => ((1 + 6 * 2 + 1 + 2 + 1 + 4 + 4 + |psdu|) % 0x100) as u8
    case InitiatorMode(_) => 1 + 2 * 2 + 1 + 1
    case InvalidMode => 0
    case _ => 1 + 1 * 2 + 1
  }

  /** The TEST_START command as written. */
  function TestModeCommand(m: TestMode): seq<u8>
    requires TestModeValid(m)
  {
    [PROPRIETARY_CMD_HDR0, EXT_UCI_MSG_TEST_START_CMD, 0x00, PayloadLenAsWritten(m)] + TestPayload(m)
  }

  /** `formTestModeCommand`: false for an unknown mode, which leaves the
      command length as it was; otherwise the command and a length of the
      payload length plus the header. */
  method FormTestModeCommand(m: TestMode, oldLength: u16) returns (ok: bool, cmd: seq<u8>, commandLength: u16)
    requires TestModeValid(m)
    ensures ok <==> !m.InvalidMode?
    ensures ok ==> cmd == TestModeCommand(m)
    ensures ok ==> commandLength as nat == PayloadLenAsWritten(m) as nat + UCI_MSG_HDR_SIZE
    ensures !ok ==> cmd == [PROPRIETARY_CMD_HDR0, EXT_UCI_MSG_TEST_START_CMD, 0x00] && commandLength == oldLength
  {
    cmd := [PROPRIETARY_CMD_HDR0, EXT_UCI_MSG_TEST_START_CMD, 0x00];
    if m.InvalidMode? {
      return false, cmd, oldLength;
    }
    var payloadLen, payload := WriteTestPayload(m);
    cmd := cmd + [payloadLen] + payload;
    commandLength := payloadLen as u16 + UCI_MSG_HDR_SIZE as u16;
    ok := true;
  }

  /** The switch of `formTestModeCommand`: the length it adds up and the
      parameters it writes after it. */
  method WriteTestPayload(m: TestMode) returns (payloadLen: u8, payload: seq<u8>)
    requires TestModeValid(m) && !m.InvalidMode?
    ensures payloadLen == PayloadLenAsWritten(m) && payload == TestPayload(m)
  {
    match m {
      case ReceiveMode(slot, delay, ecm, timeOut) =>
        payloadLen := 1 + 5 * 2 + 1 + 2 + 1 + 4 + 2;
        payload := [5];
        payload := payload + Param(0x00, [0x00]);
        payload := payload + Param(0x02, [slot]);
        payload := payload + Param(0x01, ToLE16(delay));
        payload := payload + Param(0x05, ToLE32(ecm));
        payload := payload + Param(0x04, ToLE16(timeOut));
      case TransmitMode(slot, delay, ecm, cycle, psdu) =>
        payloadLen := ((1 + 6 * 2 + 1 + 2 + 1 + 4 + 4 + |psdu|) % 0x100) as u8;
        payload := [6];
        payload := payload + Param(0x00, [0x01]);
        payload := payload + Param(0x02, [slot]);
        payload := payload + Param(0x01, ToLE16(delay));
        payload := payload + Param(0x05, ToLE32(ecm));
        payload := payload + Param(0x06, ToLE32(cycle));
        payload := payload + Param(0x03, psdu);
      case ContinuousWaveMode =>
        payloadLen := 1 + 1 * 2 + 1;
        payload := [1] + Param(0x00, [0x02]);
      case LoopBackMode =>
        payloadLen := 1 + 1 * 2 + 1;
        payload := [1] + Param(0x00, [0x03]);
      case InitiatorMode(enc) =>
        payloadLen := 1 + 2 * 2 + 1 + 1;
        payload := [2] + Param(0x00, [0x04]);
        payload := payload + Param(0x07, [enc]);
      case LoopBackModeNvmAndSave =>
        payloadLen := 1 + 1 * 2 + 1;
        payload := [1] + Param(0x00, [0x05]);
    }
  }

  /** The length the code adds up counts the payload's bytes exactly when
      they fit in a `UINT8`; beyond that it has wrapped. */
  lemma TestModeLengthIffFits(m: TestMode)
    requires TestModeValid(m) && !m.InvalidMode?
    ensures PayloadLenAsWritten(m) as nat == |TestPayload(m)| % 0x100
    ensures (PayloadLenAsWritten(m) as nat + UCI_MSG_HDR_SIZE == |TestModeCommand(m)|) <==> |TestPayload(m)| <= UCI_MAX_PAYLOAD_SIZE
  {
  }

  /** Only a transmit command can outgrow the length byte: its payload is
      25 bytes plus the PSDU. */
  lemma TestPayloadSizes(m: TestMode)
    requires TestModeValid(m) && !m.InvalidMode?
    ensures m.TransmitMode? ==> |TestPayload(m)| == 25 + |m.psdu|
    ensures !m.TransmitMode? ==> |TestPayload(m)| <= 21
  {
  }

  /** As written, a transmit command with a 231-byte PSDU announces a
      payload of 0 bytes and a command of 4, though it is 260 bytes long. */
  lemma TransmitLengthWraps(slot: u8, delay: u16, ecm: u32, cycle: u32, psdu: seq<u8>)
    requires |psdu| == 231
    ensures var m := TransmitMode(slot, delay, ecm, cycle, psdu);
      && PayloadLenAsWritten(m) == 0
      && |TestModeCommand(m)| == 260
  {
  }

  /** The builder as evidently intended: a payload longer than the largest
      UCI control payload is refused instead of having its length truncated. */
  method FormTestModeCommandChecked(m: TestMode, oldLength: u16) returns (ok: bool, cmd: seq<u8>, commandLength: u16)
    requires TestModeValid(m)
    ensures ok <==> !m.InvalidMode? && |TestPayload(m)| <= UCI_MAX_PAYLOAD_SIZE
    ensures ok ==> cmd == TestModeCommand(m) && commandLength as nat == |cmd|
    ensures ok ==> cmd[3] as nat == |cmd| - UCI_MSG_HDR_SIZE
    ensures !ok ==> commandLength == oldLength
  {
    if m.TransmitMode? && 25 + |m.psdu| > UCI_MAX_PAYLOAD_SIZE {
      TestPayloadSizes(m);
      return false, [PROPRIETARY_CMD_HDR0, EXT_UCI_MSG_TEST_START_CMD, 0x00], oldLength;
    }
    ok, cmd, commandLength := FormTestModeCommand(m, oldLength);
    if ok {
      TestPayloadSizes(m);
      TestModeLengthIffFits(m);
    }
  }
}
