// The SR100T-specific helpers of the API layer: the builders of extended
// configuration TLVs, the parsers of the extended device information and of
// the debug parameters, and the do-calibration notification handler.
module Sr100tInternal {
  import opened Bytes
  import opened UwbApiTypes
  import opened UwbApiInternal

  const EXTENDED_DEVICE_INFO_ID: u8 := 0xE3
  const EXTENDED_APP_CONFIG_ID: u8 := 0xE3
  const EXTENDED_DEVICE_CONFIG_ID: u8 := 0xE4
  const EXTENDED_DEBUG_CONFIG_ID: u8 := 0xE4
  const EXTENDED_TEST_CONFIG_ID: u8 := 0xE5

  const UCI_EXT_PARAM_ID_DEVICE_NAME: u8 := 0x00
  const UCI_EXT_PARAM_ID_FW_VERSION: u8 := 0x01
  const UCI_EXT_PARAM_ID_NXP_UCI_VER: u8 := 0x02
  const UCI_EXT_PARAM_ID_NXP_CHIP_ID: u8 := 0x03

  const UWBD_VERSION_LENGTH_MAX: u8 := 3
  const DEV_NAME_SIZE: nat := 48
  const NXP_CHIP_ID_SIZE: nat := 16

  // ---------------------------------------------------------------------
  // The four extended TLV builders

  /** Extended application configuration ids with a one-byte value:
      TOA_MODE, CIR_CAPTURE_MODE, MAC_PAYLOAD_ENCRYPTION,
      SESSION_SYNC_ATTEMPTS, SESSION_SCHED_ATTEMPTS, SCHED_STATUS_NTF and
      TX_POWER_DELTA_FCC. The two RFU ids have none. */
  function ExtAppConfigWidth(id: u8): Width
  {
    if id in {0x00, 0x01, 0x02, 0x05, 0x06, 0x07, 0x08} then One else Unknown
  }

  /** RSSI_AVG_FILT_CNT, RSSI_CALIBRATION_OPTION and AGC_GAIN_VAL_RX. */
  function ExtTestConfigWidth(id: u8): Width
  {
    if id == 0x00 then Four else if id == 0x01 then One else if id == 0x02 then Two else Unknown
  }

  /** DPD_ENTRY_TIMEOUT, then DPD_WAKEUP_SRC and WTX_COUNT. */
  function ExtDeviceConfigWidth(id: u8): Width
  {
    if id == 0x04 then Two else if id in {0x02, 0x03} then One else Unknown
  }

  /** The logging switches DATA_LOGGER_NTF .. RFRAME_LOG_NTF, then the six
      thread ids THREAD_SECURE .. THREAD_RANGING. */
  function ExtDebugConfigWidth(id: u8): Width
  {
    if 0x10 <= id <= 0x13 then One else if id <= 0x05 then Two else Unknown
  }

  /** `getExtAppConfigTLVBuffer`. */
  method GetExtAppConfigTlvBuffer(paramId: u8, value: seq<u8>) returns (length: u8, tlv: seq<u8>)
    requires ValueSize(ExtAppConfigWidth(paramId), 0) <= |value|
    ensures tlv == Tlv([EXTENDED_APP_CONFIG_ID, paramId], ExtAppConfigWidth(paramId), 0, value)
    ensures length == |tlv|
  {
    length, tlv := WriteTlv([EXTENDED_APP_CONFIG_ID, paramId], ExtAppConfigWidth(paramId), 0, value);
  }

  /** `getExtTestConfigTLVBuffer`. */
  method GetExtTestConfigTlvBuffer(paramId: u8, value: seq<u8>) returns (length: u8, tlv: seq<u8>)
    requires ValueSize(ExtTestConfigWidth(paramId), 0) <= |value|
    ensures tlv == Tlv([EXTENDED_TEST_CONFIG_ID, paramId], ExtTestConfigWidth(paramId), 0, value)
    ensures length == |tlv|
  {
    length, tlv := WriteTlv([EXTENDED_TEST_CONFIG_ID, paramId], ExtTestConfigWidth(paramId), 0, value);
  }

  /** `getExtDeviceConfigTLVBuffer`. */
  method GetExtDeviceConfigTlvBuffer(paramId: u8, value: seq<u8>) returns (length: u8, tlv: seq<u8>)
    requires ValueSize(ExtDeviceConfigWidth(paramId), 0) <= |value|
    ensures tlv == Tlv([EXTENDED_DEVICE_CONFIG_ID, paramId], ExtDeviceConfigWidth(paramId), 0, value)
    ensures length == |tlv|
  {
    length, tlv := WriteTlv([EXTENDED_DEVICE_CONFIG_ID, paramId], ExtDeviceConfigWidth(paramId), 0, value);
  }

  /** `getExtDebugConfigTLVBuffer`. */
  method GetExtDebugConfigTlvBuffer(paramId: u8, value: seq<u8>) returns (length: u8, tlv: seq<u8>)
    requires ValueSize(ExtDebugConfigWidth(paramId), 0) <= |value|
    ensures tlv == Tlv([EXTENDED_DEBUG_CONFIG_ID, paramId], ExtDebugConfigWidth(paramId), 0, value)
    ensures length == |tlv|
  {
    length, tlv := WriteTlv([EXTENDED_DEBUG_CONFIG_ID, paramId], ExtDebugConfigWidth(paramId), 0, value);
  }

  /** A known extended application id gives 0xE3, the id, 1 and the value
      byte; any other id gives only 0xE3 and the id. */
  lemma ExtAppConfigTlvShape(paramId: u8, value: seq<u8>)
    requires 1 <= |value|
    ensures ExtAppConfigWidth(paramId) == One ==>
      Tlv([EXTENDED_APP_CONFIG_ID, paramId], One, 0, value) == [0xE3, paramId, 1, value[0]]
    ensures ExtAppConfigWidth(paramId) == Unknown ==>
      Tlv([EXTENDED_APP_CONFIG_ID, paramId], Unknown, 0, value) == [0xE3, paramId]
    ensures paramId == 0x03 || paramId == 0x04 || 0x09 <= paramId <==> ExtAppConfigWidth(paramId) == Unknown
  {
  }

  /** The extended test values follow 0xE5 and the id, low byte first: the
      filter count in four bytes, the gain in two, the calibration option in
      one. */
  lemma ExtTestConfigTlvShape(paramId: u8, value: seq<u8>)
    requires 4 <= |value|
    ensures var t := Tlv([EXTENDED_TEST_CONFIG_ID, paramId], ExtTestConfigWidth(paramId), 0, value);
      && t[..2] == [0xE5, paramId]
      && (paramId == 0x00 ==> |t| == 7 && t[2] == 4 && LE32(t[3], t[4], t[5], t[6]) == U32At(value, 0))
      && (paramId == 0x01 ==> t == [0xE5, 0x01, 1, value[0]])
      && (paramId == 0x02 ==> |t| == 5 && t[2] == 2 && LE16(t[3], t[4]) == U16At(value, 0))
      && (paramId > 0x02 ==> t == [0xE5, paramId])
  {
    var w := ExtTestConfigWidth(paramId);
    var t := Tlv([EXTENDED_TEST_CONFIG_ID, paramId], w, 0, value);
    if paramId == 0x00 {
      assert t[3..7] == value[..4] == ToLE32(U32At(value, 0));
    } else if paramId == 0x02 {
      assert t[3..5] == value[..2] == ToLE16(U16At(value, 0));
    }
  }

  /** DPD_ENTRY_TIMEOUT is two bytes low first after 0xE4 and the id; the
      wake-up source and WTX count one byte. */
  lemma ExtDeviceConfigTlvShape(paramId: u8, value: seq<u8>)
    requires 2 <= |value|
    ensures var t := Tlv([EXTENDED_DEVICE_CONFIG_ID, paramId], ExtDeviceConfigWidth(paramId), 0, value);
      && (paramId == 0x04 ==> |t| == 5 && t[..3] == [0xE4, 0x04, 2] && LE16(t[3], t[4]) == U16At(value, 0))
      && (paramId == 0x02 || paramId == 0x03 ==> t == [0xE4, paramId, 1, value[0]])
      && (paramId !in {0x02, 0x03, 0x04} ==> t == [0xE4, paramId])
  {
    var t := Tlv([EXTENDED_DEVICE_CONFIG_ID, paramId], ExtDeviceConfigWidth(paramId), 0, value);
    if paramId == 0x04 {
      assert t[3..5] == value[..2] == ToLE16(U16At(value, 0));
    }
  }

  /** The thread ids are two bytes low first after 0xE4 and the id; the
      logging switches one byte. */
  lemma ExtDebugConfigTlvShape(paramId: u8, value: seq<u8>)
    requires 2 <= |value|
    ensures var t := Tlv([EXTENDED_DEBUG_CONFIG_ID, paramId], ExtDebugConfigWidth(paramId), 0, value);
      && (paramId <= 0x05 ==> |t| == 5 && t[..3] == [0xE4, paramId, 2] && LE16(t[3], t[4]) == U16At(value, 0))
      && (0x10 <= paramId <= 0x13 ==> t == [0xE4, paramId, 1, value[0]])
      && (0x05 < paramId < 0x10 || 0x13 < paramId ==> t == [0xE4, paramId])
  {
    var t := Tlv([EXTENDED_DEBUG_CONFIG_ID, paramId], ExtDebugConfigWidth(paramId), 0, value);
    if paramId <= 0x05 {
      assert t[3..5] == value[..2] == ToLE16(U16At(value, 0));
    }
  }

  // ---------------------------------------------------------------------
  // parseDeviceInfo

  /** The device information records from offset `k` of `data`: each is
      the extended id 0xE3 (not checked), a parameter id, a length and the
      value. The name and the chip id are refused when longer than their
      arrays, the two versions unless three bytes long, and any other id
      stops the parse with failure. */
  function DevInfoFrom(data: seq<u8>, k: nat, info: Sr100tDevInfo): Parsed<Sr100tDevInfo>
    decreases |data| - k
  {
    if |data| <= k then Done(true, info)
    else if |data| < k + 3 then PastEnd
    else
      var id := data[k + 1];
      var length := data[k + 2];
      var j := k + 3;
      if id == UCI_EXT_PARAM_ID_DEVICE_NAME then
        if length as nat > DEV_NAME_SIZE then Done(false, info)
        else if |data| < j + length then PastEnd
        else DevInfoFrom(data, j + length, info.(devNameLen := length, devName := Overlay(info.devName, data[j..j + length])))
      else if id == UCI_EXT_PARAM_ID_FW_VERSION then
        if length != UWBD_VERSION_LENGTH_MAX then Done(false, info)
        else if |data| < j + 3 then PastEnd
        else DevInfoFrom(data, j + 3, info.(fwMajor := data[j], fwMinor := data[j + 1] / 16, fwRc := data[j + 2]))
      else if id == UCI_EXT_PARAM_ID_NXP_UCI_VER then
        if length != UWBD_VERSION_LENGTH_MAX then Done(false, info)
        else if |data| < j + 3 then PastEnd
        else DevInfoFrom(data, j + 3, info.(nxpUciMajor := data[j], nxpUciMinor := data[j + 1], nxpUciPatch := data[j + 2]))
      else if id == UCI_EXT_PARAM_ID_NXP_CHIP_ID then
        if length as nat > NXP_CHIP_ID_SIZE then Done(false, info)
        else if |data| < j + length then PastEnd
        else DevInfoFrom(data, j + length, info.(nxpChipId := Overlay(info.nxpChipId, data[j..j + length])))
      else Done(false, info)
  }

  /** One pass of `parseDeviceInfo`'s loop: the record at `index`. Either
      the parse stops here with `r`, or it goes on from `next` with `cur`. */
  method ParseRecord(data: seq<u8>, index0: nat, info: Sr100tDevInfo)
    returns (stop: bool, r: Parsed<Sr100tDevInfo>, next: nat, cur: Sr100tDevInfo)
    requires index0 < |data|
    ensures stop ==> r == DevInfoFrom(data, index0, info)
    ensures !stop ==> index0 < next && DevInfoFrom(data, index0, info) == DevInfoFrom(data, next, cur)
  {
    stop, r, next, cur := true, PastEnd, index0, info;
    if |data| < index0 + 3 {
      return;
    }
    var index := index0 + 1;
    var paramId := data[index];
    index := index + 1;
    var length := data[index];
    index := index + 1;
    if paramId == UCI_EXT_PARAM_ID_DEVICE_NAME {
      if length as nat > DEV_NAME_SIZE {
        return true, Done(false, info), index, info;
      }
      if |data| < index + length {
        return;
      }
      cur := info.(devNameLen := length, devName := Overlay(info.devName, data[index..index + length]));
      next := index + length;
    } else if paramId == UCI_EXT_PARAM_ID_FW_VERSION {
      if length != UWBD_VERSION_LENGTH_MAX {
        return true, Done(false, info), index, info;
      }
      if |data| < index + 3 {
        return;
      }
      var fwVersionMinor := data[index + 1];
      cur := info.(fwMajor := data[index], fwMinor := fwVersionMinor / 16, fwRc := data[index + 2]);
      next := index + 3;
    } else if paramId == UCI_EXT_PARAM_ID_NXP_UCI_VER {
      if length != UWBD_VERSION_LENGTH_MAX {
        return true, Done(false, info), index, info;
      }
      if |data| < index + 3 {
        return;
      }
      cur := info.(nxpUciMajor := data[index], nxpUciMinor := data[index + 1], nxpUciPatch := data[index + 2]);
      next := index + 3;
    } else if paramId == UCI_EXT_PARAM_ID_NXP_CHIP_ID {
      if length as nat > NXP_CHIP_ID_SIZE {
        return true, Done(false, info), index, info;
      }
      if |data| < index + length {
        return;
      }
      cur := info.(nxpChipId := Overlay(info.nxpChipId, data[index..index + length]));
      next := index + length;
    } else {
      return true, Done(false, info), index, info;
    }
    stop := false;
  }

  /** `parseDeviceInfo`: fails at once on empty data, then walks the
      records with a byte index. `data` has `manufacturerLength` bytes, a
      `UINT8`. */
  method ParseDeviceInfo(data: seq<u8>, info: Sr100tDevInfo) returns (r: Parsed<Sr100tDevInfo>)
    requires |data| < 0x100
    ensures r == if |data| == 0 then Done(false, info) else DevInfoFrom(data, 0, info)
  {
    if |data| == 0 {
      return Done(false, info);
    }
    var index: nat := 0;
    var cur := info;
    while index < |data|
      invariant DevInfoFrom(data, 0, info) == DevInfoFrom(data, index, cur)
      decreases |data| - index
    {
      var stop;
      stop, r, index, cur := ParseRecord(data, index, cur);
      if stop {
        return;
      }
    }
    return Done(true, cur);
  }

  /** The structure's arrays have their declared sizes. */
  predicate DevInfoFits(info: Sr100tDevInfo)
  {
    |info.devName| == DEV_NAME_SIZE && |info.nxpChipId| == NXP_CHIP_ID_SIZE && info.devNameLen as nat <= DEV_NAME_SIZE
  }

  /** The length checks keep every copy inside its array: whatever the
      device sends, a parse that finishes leaves the arrays their sizes and
      the name length within the name array. */
  lemma {:induction false} DevInfoStaysInBounds(data: seq<u8>, k: nat, info: Sr100tDevInfo)
    requires DevInfoFits(info)
    ensures DevInfoFrom(data, k, info).Done? ==> DevInfoFits(DevInfoFrom(data, k, info).value)
    decreases |data| - k
  {
    if k < |data| && k + 3 <= |data| {
      var id := data[k + 1];
      var length := data[k + 2];
      var j := k + 3;
      if id == UCI_EXT_PARAM_ID_DEVICE_NAME && length as nat <= DEV_NAME_SIZE && j + length <= |data| {
        DevInfoStaysInBounds(data, j + length, info.(devNameLen := length, devName := Overlay(info.devName, data[j..j + length])));
      } else if id == UCI_EXT_PARAM_ID_FW_VERSION && length == 3 && j + 3 <= |data| {
        DevInfoStaysInBounds(data, j + 3, info.(fwMajor := data[j], fwMinor := data[j + 1] / 16, fwRc := data[j + 2]));
      } else if id == UCI_EXT_PARAM_ID_NXP_UCI_VER && length == 3 && j + 3 <= |data| {
        DevInfoStaysInBounds(data, j + 3, info.(nxpUciMajor := data[j], nxpUciMinor := data[j + 1], nxpUciPatch := data[j + 2]));
      } else if id == UCI_EXT_PARAM_ID_NXP_CHIP_ID && length as nat <= NXP_CHIP_ID_SIZE && j + length <= |data| {
        DevInfoStaysInBounds(data, j + length, info.(nxpChipId := Overlay(info.nxpChipId, data[j..j + length])));
      }
    }
  }

  /** One device information entry as the device reports it. */
  datatype DevInfoEntry =
    | DeviceName(name: seq<u8>)
    | FwVersion(major: u8, minor: u8, rc: u8)
    | UciVersion(major: u8, minor: u8, patch: u8)
    | ChipId(id: seq<u8>)

  /** An entry the parser accepts. */
  predicate EntryAccepted(e: DevInfoEntry)
  {
    match e
    case DeviceName(name) => |name| <= DEV_NAME_SIZE
    case ChipId(id) => |id| <= NXP_CHIP_ID_SIZE
    case _ => true
  }

  /** The record of one entry. */
  function EncodeEntry(e: DevInfoEntry): (r: seq<u8>)
    requires EntryAccepted(e)
    ensures 3 <= |r|
  {
    match e
    case DeviceName(name) => [EXTENDED_DEVICE_INFO_ID, UCI_EXT_PARAM_ID_DEVICE_NAME, |name| as u8] + name
    case FwVersion(major, minor, rc) => [EXTENDED_DEVICE_INFO_ID, UCI_EXT_PARAM_ID_FW_VERSION, 3, major, minor, rc]
    case UciVersion(major, minor, patch) => [EXTENDED_DEVICE_INFO_ID, UCI_EXT_PARAM_ID_NXP_UCI_VER, 3, major, minor, patch]
    case ChipId(id) => [EXTENDED_DEVICE_INFO_ID, UCI_EXT_PARAM_ID_NXP_CHIP_ID, |id| as u8] + id
  }

  /** The records of a list of entries. */
  function EncodeEntries(es: seq<DevInfoEntry>): seq<u8>
    requires forall i :: 0 <= i < |es| ==> EntryAccepted(es[i])
  {
    if es == [] then [] else EncodeEntry(es[0]) + EncodeEntries(es[1..])
  }

  /** What one entry sets; the firmware minor version keeps only its high
      nibble. */
  function ApplyEntry(info: Sr100tDevInfo, e: DevInfoEntry): Sr100tDevInfo
  {
    match e
    case DeviceName(name) => info.(devNameLen := (|name| % 0x100) as u8, devName := Overlay(info.devName, name))
    case FwVersion(major, minor, rc) => info.(fwMajor := major, fwMinor := minor / 16, fwRc := rc)
    case UciVersion(major, minor, patch) => info.(nxpUciMajor := major, nxpUciMinor := minor, nxpUciPatch := patch)
    case ChipId(id) => info.(nxpChipId := Overlay(info.nxpChipId, id))
  }

  /** The entries applied in order. */
  function ApplyEntries(info: Sr100tDevInfo, es: seq<DevInfoEntry>): Sr100tDevInfo
    decreases |es|
  {
    if es == [] then info else ApplyEntries(ApplyEntry(info, es[0]), es[1..])
  }

  /** The parser reads back what the device reports: a sequence of accepted
      entries, after any bytes already consumed, parses successfully to the
      structure with each entry applied in order. */
  lemma DevInfoRoundTrip(pre: seq<u8>, es: seq<DevInfoEntry>, info: Sr100tDevInfo)
    requires forall i :: 0 <= i < |es| ==> EntryAccepted(es[i])
    ensures DevInfoFrom(pre + EncodeEntries(es), |pre|, info) == Done(true, ApplyEntries(info, es))
  {
    var data := pre + EncodeEntries(es);
    assert data[|pre|..] == EncodeEntries(es);
    RoundTripAt(data, |pre|, es, info);
  }

  /** The same, for records that run from `k` to the end of `data`. */
  lemma {:induction false} RoundTripAt(data: seq<u8>, k: nat, es: seq<DevInfoEntry>, info: Sr100tDevInfo)
    requires forall i :: 0 <= i < |es| ==> EntryAccepted(es[i])
    requires k <= |data| && data[k..] == EncodeEntries(es)
    ensures DevInfoFrom(data, k, info) == Done(true, ApplyEntries(info, es))
    decreases |es|
  {
    if es != [] {
      var rec := EncodeEntry(es[0]);
      var rest := es[1..];
      assert EncodeEntries(es) == rec + EncodeEntries(rest);
      SliceSplit(data, k, rec, EncodeEntries(rest));
      var k2, next := DevInfoStep(data, k, es[0], info);
      RoundTripAt(data, k2, rest, next);
      assert ApplyEntries(info, es) == ApplyEntries(next, rest);
    } else {
      assert |data| == k;
      assert DevInfoFrom(data, k, info) == Done(true, ApplyEntries(info, es));
    }
  }

  /** A suffix made of two parts splits at their boundary. */
  lemma SliceSplit(data: seq<u8>, k: nat, a: seq<u8>, b: seq<u8>)
    requires k <= |data| && data[k..] == a + b
    ensures k + |a| <= |data| && data[k..k + |a|] == a && data[k + |a|..] == b
  {
    assert data[k..k + |a|] == (a + b)[..|a|];
    assert data[k + |a|..] == (a + b)[|a|..];
  }

  /** The parser's step over one entry's record, wherever it lies. */
  lemma DevInfoStep(data: seq<u8>, k: nat, e: DevInfoEntry, info: Sr100tDevInfo) returns (k2: nat, next: Sr100tDevInfo)
    requires EntryAccepted(e)
    requires k + |EncodeEntry(e)| <= |data| && data[k..k + |EncodeEntry(e)|] == EncodeEntry(e)
    ensures k2 == k + |EncodeEntry(e)| && next == ApplyEntry(info, e)
    ensures DevInfoFrom(data, k, info) == DevInfoFrom(data, k2, next)
  {
    k2, next := k + |EncodeEntry(e)|, ApplyEntry(info, e);
    match e
    case DeviceName(name) => NameStep(data, k, name, info);
    case ChipId(id) => ChipIdStep(data, k, id, info);
    case FwVersion(major, minor, rc) => FwVersionStep(data, k, major, minor, rc, info);
    case UciVersion(major, minor, patch) => UciVersionStep(data, k, major, minor, patch, info);
  }

  /** The parser's step over a device name record at `k`. */
  lemma NameStep(data: seq<u8>, k: nat, name: seq<u8>, info: Sr100tDevInfo)
    requires |name| <= DEV_NAME_SIZE
    requires var rec := EncodeEntry(DeviceName(name)); k + |rec| <= |data| && data[k..k + |rec|] == rec
    ensures DevInfoFrom(data, k, info) == DevInfoFrom(data, k + |EncodeEntry(DeviceName(name))|, ApplyEntry(info, DeviceName(name)))
  {
    var rec := EncodeEntry(DeviceName(name));
    assert data[k + 1] == rec[1] && data[k + 2] == rec[2];
    assert data[k + 3..k + 3 + |name|] == rec[3..] == name;
  }

  /** The parser's step over a chip id record at `k`. */
  lemma ChipIdStep(data: seq<u8>, k: nat, id: seq<u8>, info: Sr100tDevInfo)
    requires |id| <= NXP_CHIP_ID_SIZE
    requires var rec := EncodeEntry(ChipId(id)); k + |rec| <= |data| && data[k..k + |rec|] == rec
    ensures DevInfoFrom(data, k, info) == DevInfoFrom(data, k + |EncodeEntry(ChipId(id))|, ApplyEntry(info, ChipId(id)))
  {
    var rec := EncodeEntry(ChipId(id));
    assert data[k + 1] == rec[1] && data[k + 2] == rec[2];
    assert data[k + 3..k + 3 + |id|] == rec[3..] == id;
  }

  /** The parser's step over a firmware version record at `k`. */
  lemma FwVersionStep(data: seq<u8>, k: nat, major: u8, minor: u8, rc: u8, info: Sr100tDevInfo)
    requires var rec := EncodeEntry(FwVersion(major, minor, rc)); k + |rec| <= |data| && data[k..k + |rec|] == rec
    ensures DevInfoFrom(data, k, info) == DevInfoFrom(data, k + |EncodeEntry(FwVersion(major, minor, rc))|, ApplyEntry(info, FwVersion(major, minor, rc)))
  {
    var rec := EncodeEntry(FwVersion(major, minor, rc));
    assert data[k + 1] == rec[1] && data[k + 2] == rec[2];
    assert data[k + 3] == major && data[k + 4] == minor && data[k + 5] == rc;
  }

  /** The parser's step over a UCI version record at `k`. */
  lemma UciVersionStep(data: seq<u8>, k: nat, major: u8, minor: u8, patch: u8, info: Sr100tDevInfo)
    requires var rec := EncodeEntry(UciVersion(major, minor, patch)); k + |rec| <= |data| && data[k..k + |rec|] == rec
    ensures DevInfoFrom(data, k, info) == DevInfoFrom(data, k + |EncodeEntry(UciVersion(major, minor, patch))|, ApplyEntry(info, UciVersion(major, minor, patch)))
  {
    var rec := EncodeEntry(UciVersion(major, minor, patch));
    assert data[k + 1] == rec[1] && data[k + 2] == rec[2];
    assert data[k + 3] == major && data[k + 4] == minor && data[k + 5] == patch;
  }

  /** A record with an id other than the four fails the parse, and so does
      a version record whose length is not 3. */
  lemma DevInfoRejects(data: seq<u8>, k: nat, info: Sr100tDevInfo)
    requires k + 3 <= |data|
    ensures data[k + 1] > 0x03 ==> DevInfoFrom(data, k, info) == Done(false, info)
    ensures (data[k + 1] == 0x01 || data[k + 1] == 0x02) && data[k + 2] != 3 ==>
      DevInfoFrom(data, k, info) == Done(false, info)
    ensures data[k + 1] == 0x00 && data[k + 2] > 48 ==> DevInfoFrom(data, k, info) == Done(false, info)
    ensures data[k + 1] == 0x03 && data[k + 2] > 16 ==> DevInfoFrom(data, k, info) == Done(false, info)
  {
  }

  // ---------------------------------------------------------------------
  // parseDebugParams

  /** The debug ids whose value is a 16-bit thread id. */
  predicate ThreadDebugId(id: u8)
  {
    id <= 0x05
  }

  /** The debug ids whose value is one byte. */
  predicate LogDebugId(id: u8)
  {
    0x10 <= id <= 0x13
  }

  /** Stores a thread id under its parameter id. */
  function SetThread(p: DebugParams, id: u8, v: u16): DebugParams
    requires ThreadDebugId(id)
  {
    if id == 0x00 then p.(secureThread := v)
    else if id == 0x01 then p.(secureIsrThread := v)
    else if id == 0x02 then p.(nonSecureIsrThread := v)
    else if id == 0x03 then p.(shellThread := v)
    else if id == 0x04 then p.(phyThread := v)
    else p.(rangingThread := v)
  }

  /** Stores a logging switch under its parameter id. */
  function SetLog(p: DebugParams, id: u8, v: u8): DebugParams
    requires LogDebugId(id)
  {
    if id == 0x11 then p.(cirLogNtf := v)
    else if id == 0x10 then p.(dataLoggerNtf := v)
    else if id == 0x12 then p.(psduLogNtf := v)
    else p.(rframeLogNtf := v)
  }

  /** One record's effect, its value starting the bytes `v`. */
  function ApplyDebugRecord(p: DebugParams, id: u8, v: seq<u8>): Option<DebugParams>
  {
    if ThreadDebugId(id) then (if 2 <= |v| then Some(SetThread(p, id, LE16(v[0], v[1]))) else None)
    else if LogDebugId(id) then (if 1 <= |v| then Some(SetLog(p, id, v[0])) else None)
    else Some(p)
  }

  /** The `n` records from offset `k`: an extended id byte that is skipped,
      the parameter id, the length and the value; the next record starts
      `3 + length` bytes further on. None when a read runs past the end. */
  function DebugFrom(rsp: seq<u8>, k: nat, n: nat, p: DebugParams): Option<DebugParams>
    decreases n
  {
    if n == 0 then Some(p)
    else if |rsp| < k + 3 then None
    else
      match ApplyDebugRecord(p, rsp[k + 1], rsp[k + 3..])
      case None => None
      case Some(q) => DebugFrom(rsp, k + 3 + rsp[k + 2], n - 1, q)
  }

  /** `parseDebugParams`. */
  method ParseDebugParams(rsp: seq<u8>, noOfParams: u8, params: DebugParams) returns (r: Option<DebugParams>)
    ensures r == DebugFrom(rsp, 0, noOfParams, params)
  {
    var k: nat := 0;
    var p := params;
    var i: nat := 0;
    while i < noOfParams
      invariant i <= noOfParams
      invariant DebugFrom(rsp, 0, noOfParams, params) == DebugFrom(rsp, k, noOfParams - i, p)
    {
      if |rsp| < k + 3 {
        return None;
      }
      var paramId := rsp[k + 1];
      var length := rsp[k + 2];
      var next := ApplyDebugRecord(p, paramId, rsp[k + 3..]);
      if next.None? {
        return None;
      }
      p := next.value;
      k := k + 3 + length;
      i := i + 1;
    }
    return Some(p);
  }

  /** One debug parameter as a response lists it. */
  datatype DebugEntry = DebugEntry(id: u8, value: seq<u8>)

  /** An entry whose value the parser finds in its own record. */
  predicate DebugEntryFits(e: DebugEntry)
  {
    |e.value| < 0x100 && (ThreadDebugId(e.id) ==> 2 <= |e.value|) && (LogDebugId(e.id) ==> 1 <= |e.value|)
  }

  /** The records of a list of entries, each led by 0xE4. */
  function EncodeDebug(es: seq<DebugEntry>): seq<u8>
    requires forall i :: 0 <= i < |es| ==> |es[i].value| < 0x100
  {
    if es == [] then [] else [EXTENDED_DEBUG_CONFIG_ID, es[0].id, |es[0].value| as u8] + es[0].value + EncodeDebug(es[1..])
  }

  /** What one entry stores: a thread id read low byte first, or a switch. */
  function ApplyDebugEntry(p: DebugParams, e: DebugEntry): DebugParams
    requires DebugEntryFits(e)
  {
    if ThreadDebugId(e.id) then SetThread(p, e.id, LE16(e.value[0], e.value[1]))
    else if LogDebugId(e.id) then SetLog(p, e.id, e.value[0])
    else p
  }

  /** The entries applied in order. */
  function ApplyDebugEntries(p: DebugParams, es: seq<DebugEntry>): DebugParams
    requires forall i :: 0 <= i < |es| ==> DebugEntryFits(es[i])
    decreases |es|
  {
    if es == [] then p else ApplyDebugEntries(ApplyDebugEntry(p, es[0]), es[1..])
  }

  /** Parsing a response that lists debug parameters applies each of them
      in order, whatever surrounds them. */
  lemma {:induction false} DebugRoundTrip(pre: seq<u8>, es: seq<DebugEntry>, tail: seq<u8>, p: DebugParams)
    requires forall i :: 0 <= i < |es| ==> DebugEntryFits(es[i])
    requires forall i :: 0 <= i < |es| ==> |es[i].value| < 0x100
    ensures DebugFrom(pre + EncodeDebug(es) + tail, |pre|, |es|, p) == Some(ApplyDebugEntries(p, es))
    decreases |es|
  {
    if es != [] {
      var e := es[0];
      var rec := [EXTENDED_DEBUG_CONFIG_ID, e.id, |e.value| as u8] + e.value;
      DebugSplit(pre, es, tail);
      DebugStep(pre, e, EncodeDebug(es[1..]) + tail, |es| - 1, p);
      DebugRoundTrip(pre + rec, es[1..], tail, ApplyDebugEntry(p, e));
      assert ApplyDebugEntries(p, es) == ApplyDebugEntries(ApplyDebugEntry(p, e), es[1..]);
    }
  }

  /** The first record split off an encoded list. */
  lemma DebugSplit(pre: seq<u8>, es: seq<DebugEntry>, tail: seq<u8>)
    requires es != [] && forall i :: 0 <= i < |es| ==> |es[i].value| < 0x100
    ensures var rec := [EXTENDED_DEBUG_CONFIG_ID, es[0].id, |es[0].value| as u8] + es[0].value;
      && pre + EncodeDebug(es) + tail == pre + rec + (EncodeDebug(es[1..]) + tail)
      && pre + EncodeDebug(es) + tail == (pre + rec) + EncodeDebug(es[1..]) + tail
  {
  }

  /** The parser's step over one record. */
  lemma DebugStep(pre: seq<u8>, e: DebugEntry, rest: seq<u8>, n: nat, p: DebugParams)
    requires DebugEntryFits(e)
    ensures var rec := [EXTENDED_DEBUG_CONFIG_ID, e.id, |e.value| as u8] + e.value;
      DebugFrom(pre + rec + rest, |pre|, n + 1, p) == DebugFrom(pre + rec + rest, |pre + rec|, n, ApplyDebugEntry(p, e))
  {
    var rec := [EXTENDED_DEBUG_CONFIG_ID, e.id, |e.value| as u8] + e.value;
    var rsp := pre + rec + rest;
    var k := |pre|;
    assert rsp[k + 1] == e.id && rsp[k + 2] == |e.value|;
    var v := rsp[k + 3..];
    assert v[..|e.value|] == e.value;
    assert ApplyDebugRecord(p, e.id, v) == Some(ApplyDebugEntry(p, e));
  }

  // ---------------------------------------------------------------------
  // handle_do_calibration_ntf

  /** `phCalibRespStatus_t`: the status, the length of the calibration
      value and the value bytes copied into `calibValueOut`. */
  datatype CalibRespStatus = CalibRespStatus(status: u8, length: u16, calibValueOut: seq<u8>)

  /** `handle_do_calibration_ntf`: the status is 0xFF until a nonempty
      notification supplies it as its first byte; the rest is the value. */
  function DoCalibrationNtf(p: seq<u8>): (r: CalibRespStatus)
    requires |p| < 0x10000
    ensures |p| == 0 ==> r == CalibRespStatus(0xFF, 0, [])
    ensures r.length as nat == |r.calibValueOut|
  {
    if |p| == 0 then CalibRespStatus(0xFF, 0, [])
    else CalibRespStatus(p[0], (|p| - 1) as u16, p[1..])
  }

  /** The handler reads back a notification made of a status byte and a
      calibration value: status, length and value come back unchanged. */
  lemma DoCalibrationNtfRoundTrip(status: u8, value: seq<u8>)
    requires |value| < 0xFFFF
    ensures DoCalibrationNtf([status] + value) == CalibRespStatus(status, |value| as u16, value)
  {
    assert ([status] + value)[1..] == value;
  }
}
