// The internal helpers of the UWB API layer: the builders that turn one
// configuration parameter into a TLV (id, length, value), the parser that
// reads ranging parameters back out of a get-config response, and the waits
// on the device-management semaphore, which read and update the global API
// context. The semaphore itself is abstracted: a wait is given whether it was
// posted, and by which callback.
module UwbApiInternal {
  import opened Bytes
  import opened UwbApiTypes

  const UWBAPI_STATUS_OK: u8 := 0x00
  const UWBAPI_STATUS_FAILED: u8 := 0x02
  const UWBAPI_STATUS_HPD_WAKEUP: u8 := 0xFC
  const UWBAPI_STATUS_TIMEOUT: u8 := 0xFD

  const DEFAULT_EVENT_TYPE: u16 := 0xFF
  const UCI_RESPONSE_STATUS_OFFSET: nat := 4
  /** Size of the context's `rsp_data` array. */
  const MAX_UCI_PACKET_SIZE: nat := 255
  const UWBD_STATUS_ERROR: u8 := 0xFF

  // Application configuration ids the ranging-parameter parser knows.
  const UCI_PARAM_ID_DEVICE_TYPE: u8 := 0x00
  const UCI_PARAM_ID_MULTI_NODE_MODE: u8 := 0x03
  const UCI_PARAM_ID_NO_OF_CONTROLEES: u8 := 0x05
  const UCI_PARAM_ID_DEVICE_MAC_ADDRESS: u8 := 0x06
  const UCI_PARAM_ID_DST_MAC_ADDRESS: u8 := 0x07
  const UCI_PARAM_ID_DEVICE_ROLE: u8 := 0x11
  const UCI_PARAM_ID_MAC_ADDRESS_MODE: u8 := 0x26

  // ---------------------------------------------------------------------
  // The TLV writer every configuration builder shares.

  /** How many value bytes a configuration id carries: a fixed 1, 2 or 4,
      the caller's length for byte arrays, or none for an id the builder does
      not know. */
  datatype Width = One | Two | Four | Array | Unknown

  /** The bytes of the caller's value a builder reads. */
  function ValueSize(w: Width, paramLen: u8): nat
  {
    match w
    case One => 1
    case Two => 2
    case Four => 4
    case Array => paramLen
    case Unknown => 0
  }

  /** The length byte a builder writes after the id. */
  function LengthByte(w: Width, paramLen: u8): u8
  {
    match w
    case One => 1
    case Two => 2
    case Four => 4
    case Array => paramLen
    case Unknown => 0
  }

  /** The value bytes a builder writes. `value` is the memory the caller's
      pointer designates; a scalar is read as a host integer of its width and
      written low byte first, which on the little-endian hosts the software
      runs on gives back the bytes of that memory. */
  function ValueBytes(w: Width, paramLen: u8, value: seq<u8>): (r: seq<u8>)
    requires ValueSize(w, paramLen) <= |value|
    ensures r == value[..ValueSize(w, paramLen)]
  {
    match w
    case One => [value[0]]
    case Two => ToLE16(U16At(value, 0))
    case Four => ToLE32(U32At(value, 0))
    case Array => value[..paramLen]
    case Unknown => []
  }

  /** The TLV a builder writes: its id prefix, then for a known id the
      length byte and the value. An unknown id leaves only the prefix. */
  function Tlv(prefix: seq<u8>, w: Width, paramLen: u8, value: seq<u8>): seq<u8>
    requires ValueSize(w, paramLen) <= |value|
  {
    if w == Unknown then prefix else prefix + [LengthByte(w, paramLen)] + ValueBytes(w, paramLen, value)
  }

  /** Reads a TLV back: after `n` prefix bytes, a length byte and exactly
      that many value bytes to the end of the buffer. */
  function ParseTlv(n: nat, t: seq<u8>): Option<seq<u8>>
  {
    if n < |t| && |t| == n + 1 + t[n] then Some(t[n + 1..]) else None
  }

  /** A known id's TLV keeps the prefix, and reading it back gives the value
      bytes the builder took from the caller. */
  lemma TlvRoundTrip(prefix: seq<u8>, w: Width, paramLen: u8, value: seq<u8>)
    requires ValueSize(w, paramLen) <= |value| && w != Unknown
    ensures Tlv(prefix, w, paramLen, value)[..|prefix|] == prefix
    ensures ParseTlv(|prefix|, Tlv(prefix, w, paramLen, value)) == Some(value[..ValueSize(w, paramLen)])
  {
    var t := Tlv(prefix, w, paramLen, value);
    assert t == prefix + ([LengthByte(w, paramLen)] + value[..ValueSize(w, paramLen)]);
    assert t[|prefix|] == LengthByte(w, paramLen) == ValueSize(w, paramLen);
    assert t[|prefix| + 1..] == value[..ValueSize(w, paramLen)];
  }

  /** A TLV is the prefix, and for a known id one length byte and the value:
      the builders' returned lengths 3, 4 and 6 for one-byte ids and
      `paramLen + 2` for arrays follow from a one-byte prefix. */
  lemma TlvSize(prefix: seq<u8>, w: Width, paramLen: u8, value: seq<u8>)
    requires ValueSize(w, paramLen) <= |value|
    ensures |Tlv(prefix, w, paramLen, value)| == |prefix| + (if w == Unknown then 0 else 1 + ValueSize(w, paramLen))
  {
  }

  /** The byte counter the builders keep is a `UINT8`. */
  function Bump(length: u8): u8
  {
    (length + 1) % 0x100
  }

  /** The writing common to every builder: the prefix bytes, then the length
      byte and the value one byte at a time, counting in an 8-bit `length`. */
  method WriteTlv(prefix: seq<u8>, w: Width, paramLen: u8, value: seq<u8>) returns (length: u8, buf: seq<u8>)
    requires ValueSize(w, paramLen) <= |value|
    ensures buf == Tlv(prefix, w, paramLen, value)
    ensures length == |buf| % 0x100
  {
    buf := [];
    length := 0;
    for j := 0 to |prefix|
      invariant buf == prefix[..j]
      invariant length == |buf| % 0x100
    {
      buf := buf + [prefix[j]];
      length := Bump(length);
    }
    assert buf == prefix;
    match w
    case One =>
      length, buf := WriteByte(length, buf, 1);
      length, buf := WriteByte(length, buf, value[0]);
    case Two =>
      length, buf := WriteByte(length, buf, 2);
      length, buf := WriteU16(length, buf, U16At(value, 0));
    case Four =>
      length, buf := WriteByte(length, buf, 4);
      length, buf := WriteU32(length, buf, U32At(value, 0));
    case Array =>
      length, buf := WriteByte(length, buf, paramLen);
      length, buf := WriteArray(length, buf, value[..paramLen]);
    case Unknown =>
  }

  /** One byte written and counted. */
  method WriteByte(length: u8, buf: seq<u8>, b: u8) returns (length': u8, buf': seq<u8>)
    requires length == |buf| % 0x100
    ensures buf' == buf + [b] && length' == |buf'| % 0x100
  {
    buf' := buf + [b];
    length' := Bump(length);
  }

  /** `UWB_UINT16_TO_STREAM`: low byte first. */
  method WriteU16(length: u8, buf: seq<u8>, v: u16) returns (length': u8, buf': seq<u8>)
    requires length == |buf| % 0x100
    ensures buf' == buf + ToLE16(v) && length' == |buf'| % 0x100
  {
    length', buf' := WriteByte(length, buf, v % 0x100);
    length', buf' := WriteByte(length', buf', v / 0x100);
  }

  /** `UWB_UINT32_TO_STREAM`: low byte first. */
  method WriteU32(length: u8, buf: seq<u8>, v: u32) returns (length': u8, buf': seq<u8>)
    requires length == |buf| % 0x100
    ensures buf' == buf + ToLE32(v) && length' == |buf'| % 0x100
  {
    length', buf' := WriteByte(length, buf, v % 0x100);
    length', buf' := WriteByte(length', buf', (v / 0x100) % 0x100);
    length', buf' := WriteByte(length', buf', (v / 0x100 / 0x100) % 0x100);
    length', buf' := WriteByte(length', buf', v / 0x100 / 0x100 / 0x100);
  }

  /** A byte array copied one byte at a time. */
  method WriteArray(length: u8, buf: seq<u8>, bytes: seq<u8>) returns (length': u8, buf': seq<u8>)
    requires length == |buf| % 0x100
    ensures buf' == buf + bytes && length' == |buf'| % 0x100
  {
    length', buf' := length, buf;
    for i := 0 to |bytes|
      invariant buf' == buf + bytes[..i]
      invariant length' == |buf'| % 0x100
    {
      length', buf' := WriteByte(length', buf', bytes[i]);
    }
  }

  // ---------------------------------------------------------------------
  // getAppConfigTLVBuffer, getTestConfigTLVBuffer, getCoreDeviceConfigTLVBuffer

  /** The value width of each application configuration id. */
  function AppConfigWidth(id: u8): Width
  {
    // DEVICE_TYPE, RANGING_METHOD, STS_CONFIG, MULTI_NODE_MODE,
    // CHANNEL_NUMBER, NO_OF_CONTROLEES, MAC_FCS_TYPE .. RNG_DATA_NTF,
    // DEVICE_ROLE .. SESSION_PRIORITY, MAC_ADDRESS_MODE,
    // NUMBER_OF_STS_SEGMENTS, RANGING_ROUND_HOPPING, RESULT_REPORT_CONFIG,
    // IN_BAND_TERMINATION_ATTEMPT_COUNT
    if id in {0x00, 0x01, 0x02, 0x03, 0x04, 0x05, 0x0B, 0x0C, 0x0D, 0x0E,
              0x11, 0x12, 0x13, 0x14, 0x15, 0x16, 0x17, 0x18, 0x19, 0x1A, 0x1B, 0x1C,
              0x1D, 0x1E, 0x1F, 0x20, 0x21, 0x22, 0x23, 0x24, 0x25, 0x26, 0x29, 0x2C,
              0x2E, 0x2F} then One
    // SLOT_DURATION, RNG_DATA_NTF_PROXIMITY_NEAR/FAR, VENDOR_ID,
    // MAX_RR_RETRY, BLINK_RANDOM_INTERVAL, MAX_NUMBER_OF_BLOCKS
    else if id in {0x08, 0x0F, 0x10, 0x27, 0x2A, 0x32, 0x34} then Two
    // RANGING_INTERVAL, STS_INDEX, UWB_INITIATION_TIME, SUB_SESSION_ID
    else if id in {0x09, 0x0A, 0x2B, 0x30} then Four
    // DEVICE_MAC_ADDRESS, DST_MAC_ADDRESS, STATIC_STS_IV
    else if id in {0x06, 0x07, 0x28} then Array
    else Unknown
  }

  /** The value width of each test configuration id. */
  function TestConfigWidth(id: u8): Width
  {
    // RANDOMIZE_PSDU, STS_INDEX_AUTO_INCR
    if id in {0x04, 0x08} then One
    // RAW_PHR
    else if id == 0x05 then Two
    // NUM_PACKETS, T_GAP, T_START, T_WIN, RMARKER_TX_START, RMARKER_RX_START
    else if id in {0x00, 0x01, 0x02, 0x03, 0x06, 0x07} then Four
    else Unknown
  }

  /** The value width of each core device configuration id; SR040 builds add
      TELC_CONFIG, MHR_IN_CCM and DDFS_TONE_CONFIG_ENABLE. */
  function CoreDeviceConfigWidth(chip: Chip, id: u8): Width
  {
    if chip == SR040 && id == 0xFB then Four
    // DEVICE_STATE, LOW_POWER_MODE
    else if id in {0x00, 0x01} then One
    else if chip == SR040 && id in {0xF9, 0xFA} then One
    else Unknown
  }

  /** `getAppConfigTLVBuffer`: the id, then its length and value. */
  method GetAppConfigTlvBuffer(paramId: u8, paramLen: u8, value: seq<u8>) returns (length: u8, tlv: seq<u8>)
    requires ValueSize(AppConfigWidth(paramId), paramLen) <= |value|
    ensures tlv == Tlv([paramId], AppConfigWidth(paramId), paramLen, value)
    ensures length == |tlv| % 0x100
  {
    length, tlv := WriteTlv([paramId], AppConfigWidth(paramId), paramLen, value);
  }

  /** `getTestConfigTLVBuffer`. */
  method GetTestConfigTlvBuffer(paramId: u8, value: seq<u8>) returns (length: u8, tlv: seq<u8>)
    requires ValueSize(TestConfigWidth(paramId), 0) <= |value|
    ensures tlv == Tlv([paramId], TestConfigWidth(paramId), 0, value)
    ensures length == |tlv| % 0x100
  {
    length, tlv := WriteTlv([paramId], TestConfigWidth(paramId), 0, value);
  }

  /** `getCoreDeviceConfigTLVBuffer`. */
  method GetCoreDeviceConfigTlvBuffer(chip: Chip, paramId: u8, value: seq<u8>) returns (length: u8, tlv: seq<u8>)
    requires ValueSize(CoreDeviceConfigWidth(chip, paramId), 0) <= |value|
    ensures tlv == Tlv([paramId], CoreDeviceConfigWidth(chip, paramId), 0, value)
    ensures length == |tlv| % 0x100
  {
    length, tlv := WriteTlv([paramId], CoreDeviceConfigWidth(chip, paramId), 0, value);
  }

  /** Where the bytes written land in the caller's `tlvBuffer`: byte k of
      `t` is stored at index k modulo 256, the `UINT8` the builders index
      with, so a later byte overwrites an earlier one 256 places before. */
  function Placed(t: seq<u8>): (m: seq<u8>)
    requires |t| <= 0x200
    ensures |m| == if |t| <= 0x100 then |t| else 0x100
    ensures forall k :: 0 <= k < |t| && |t| <= k + 0x100 ==> m[k % 0x100] == t[k]
  {
    if |t| <= 0x100 then t else t[0x100..] + t[|t| - 0x100..0x100]
  }

  /** An array value of 255 bytes makes a TLV of 257 bytes: the index wraps
      after byte 255, so the last value byte overwrites the id, the length
      byte stays, and the length returned is 1. */
  lemma LongArrayTlvWraps(paramId: u8, value: seq<u8>)
    requires AppConfigWidth(paramId) == Array && 255 <= |value|
    ensures var t := Tlv([paramId], Array, 255, value);
      && |t| == 257 && |t| % 0x100 == 1
      && Placed(t)[0] == value[254] && Placed(t)[1] == 255
  {
    var t := Tlv([paramId], Array, 255, value);
    assert t == [paramId, 255] + value[..255];
    assert t[256] == value[254];
  }

  /** The sizes `getAppConfigTLVBuffer` returns: 3 for one-byte ids, 4 for
      two-byte ids (low byte first), 6 for four-byte ids, `paramLen + 2` for
      arrays with `paramLen` as the length byte, and 1 for unknown ids. */
  lemma AppConfigTlvShape(paramId: u8, paramLen: u8, value: seq<u8>)
    requires ValueSize(AppConfigWidth(paramId), paramLen) <= |value|
    ensures var t := Tlv([paramId], AppConfigWidth(paramId), paramLen, value);
      && t[0] == paramId
      && (AppConfigWidth(paramId) == One ==> t == [paramId, 1, value[0]])
      && (AppConfigWidth(paramId) == Two ==> |t| == 4 && t[1] == 2 && LE16(t[2], t[3]) == U16At(value, 0))
      && (AppConfigWidth(paramId) == Four ==> |t| == 6 && t[1] == 4 && LE32(t[2], t[3], t[4], t[5]) == U32At(value, 0))
      && (AppConfigWidth(paramId) == Array ==> |t| == paramLen + 2 && t[1] == paramLen && t[2..] == value[..paramLen])
      && (AppConfigWidth(paramId) == Unknown ==> t == [paramId])
  {
    var w := AppConfigWidth(paramId);
    var t := Tlv([paramId], w, paramLen, value);
    if w == Two {
      assert t[2..4] == value[..2] == ToLE16(U16At(value, 0));
    } else if w == Four {
      assert t[2..6] == value[..4] == ToLE32(U32At(value, 0));
    }
  }

  // ---------------------------------------------------------------------
  // parseRangingParams

  /** The ids whose value is one byte the parser stores. */
  predicate ScalarRangingId(chip: Chip, id: u8)
  {
    id == UCI_PARAM_ID_DEVICE_ROLE || id == UCI_PARAM_ID_MULTI_NODE_MODE
    || (chip == SR100T && id == UCI_PARAM_ID_MAC_ADDRESS_MODE)
    || id == UCI_PARAM_ID_NO_OF_CONTROLEES || id == UCI_PARAM_ID_DEVICE_TYPE
  }

  /** The ids whose `length` value bytes the parser copies. */
  predicate ArrayRangingId(id: u8)
  {
    id == UCI_PARAM_ID_DEVICE_MAC_ADDRESS || id == UCI_PARAM_ID_DST_MAC_ADDRESS
  }

  /** Stores a one-byte value under its id. */
  function SetScalar(p: RangingParams, id: u8, b: u8): RangingParams
  {
    if id == UCI_PARAM_ID_DEVICE_ROLE then p.(deviceRole := b)
    else if id == UCI_PARAM_ID_MULTI_NODE_MODE then p.(multiNodeMode := b)
    else if id == UCI_PARAM_ID_MAC_ADDRESS_MODE then p.(macAddrMode := b)
    else if id == UCI_PARAM_ID_NO_OF_CONTROLEES then p.(noOfControlees := b)
    else p.(deviceType := b)
  }

  /** Copies an address array under its id. */
  function SetArray(p: RangingParams, id: u8, bytes: seq<u8>): RangingParams
  {
    if id == UCI_PARAM_ID_DEVICE_MAC_ADDRESS then p.(deviceMacAddr := Overlay(p.deviceMacAddr, bytes))
    else p.(dstMacAddr := Overlay(p.dstMacAddr, bytes))
  }

  /** One record of the response, whose value starts the bytes `v`: a
      known id stores its value, any other id changes nothing. None when the
      value read runs past the response. */
  function ApplyRangingRecord(chip: Chip, p: RangingParams, id: u8, len: u8, v: seq<u8>): Option<RangingParams>
  {
    if ScalarRangingId(chip, id) then
      if 1 <= |v| then Some(SetScalar(p, id, v[0])) else None
    else if ArrayRangingId(id) then
      if len <= |v| then Some(SetArray(p, id, v[..len])) else None
    else Some(p)
  }

  /** The `n` records from offset `k` of `rsp`: each is an id byte, a length
      byte and the value, and the next record starts `2 + length` bytes
      further on whatever the id. None when a read runs past the response. */
  function ParseRanging(chip: Chip, rsp: seq<u8>, k: nat, n: nat, p: RangingParams): Option<RangingParams>
    decreases n
  {
    if n == 0 then Some(p)
    else if |rsp| < k + 2 then None
    else
      match ApplyRangingRecord(chip, p, rsp[k], rsp[k + 1], rsp[k + 2..])
      case None => None
      case Some(q) => ParseRanging(chip, rsp, k + 2 + rsp[k + 1], n - 1, q)
  }

  /** `parseRangingParams`: reads `noOfParams` records through a moving
      pointer and stores the known ones in the structure. */
  method ParseRangingParams(chip: Chip, rsp: seq<u8>, noOfParams: u8, params: RangingParams)
    returns (r: Option<RangingParams>)
    ensures r == ParseRanging(chip, rsp, 0, noOfParams, params)
  {
    var k: nat := 0;
    var p := params;
    var i: nat := 0;
    ghost var target := ParseRanging(chip, rsp, 0, noOfParams, params);
    while i < noOfParams
      invariant 0 <= i <= noOfParams
      invariant target == ParseRanging(chip, rsp, k, noOfParams - i, p)
    {
      if |rsp| < k + 2 {
        return None;
      }
      var paramId := rsp[k];
      var length := rsp[k + 1];
      var next := ApplyRangingRecord(chip, p, paramId, length, rsp[k + 2..]);
      if next.None? {
        return None;
      }
      RangingStep(chip, rsp, k, noOfParams - i, p, next.value);
      p := next.value;
      k := k + 2 + length;
      i := i + 1;
    }
    return Some(p);
  }

  /** A record the parser accepts moves it on past the record. */
  lemma RangingStep(chip: Chip, rsp: seq<u8>, k: nat, n: nat, p: RangingParams, q: RangingParams)
    requires n > 0 && k + 2 <= |rsp| && ApplyRangingRecord(chip, p, rsp[k], rsp[k + 1], rsp[k + 2..]) == Some(q)
    ensures ParseRanging(chip, rsp, k, n, p) == ParseRanging(chip, rsp, k + 2 + rsp[k + 1], n - 1, q)
  {
  }

  /** One parameter as a get-config response lists it. */
  datatype Param = Param(id: u8, value: seq<u8>)

  /** A parameter the response can hold and whose value the parser finds in
      its own record. */
  predicate WellFormedParam(chip: Chip, q: Param)
  {
    |q.value| < 0x100 && (ScalarRangingId(chip, q.id) ==> 1 <= |q.value|)
  }

  /** The bytes of a list of parameters, as the device sends them. */
  function EncodeParams(ps: seq<Param>): seq<u8>
    requires forall i :: 0 <= i < |ps| ==> |ps[i].value| < 0x100
  {
    if ps == [] then [] else [ps[0].id, |ps[0].value|] + ps[0].value + EncodeParams(ps[1..])
  }

  /** The effect of one parameter on the structure. */
  function ApplyParam(chip: Chip, p: RangingParams, q: Param): RangingParams
    requires WellFormedParam(chip, q)
  {
    if ScalarRangingId(chip, q.id) then SetScalar(p, q.id, q.value[0])
    else if ArrayRangingId(q.id) then SetArray(p, q.id, q.value)
    else p
  }

  /** The parameters applied in order. */
  function ApplyAll(chip: Chip, p: RangingParams, ps: seq<Param>): RangingParams
    requires forall i :: 0 <= i < |ps| ==> WellFormedParam(chip, ps[i])
    decreases |ps|
  {
    if ps == [] then p else ApplyAll(chip, ApplyParam(chip, p, ps[0]), ps[1..])
  }

  /** Parsing a response that lists parameters record by record applies
      each of them in order, whatever bytes precede or follow: the parser
      consumes exactly the records it is told to, skipping unknown ids by
      their length. */
  lemma {:induction false} ParseEncodedParams(chip: Chip, pre: seq<u8>, ps: seq<Param>, tail: seq<u8>, p: RangingParams)
    requires forall i :: 0 <= i < |ps| ==> WellFormedParam(chip, ps[i])
    requires forall i :: 0 <= i < |ps| ==> |ps[i].value| < 0x100
    ensures ParseRanging(chip, pre + EncodeParams(ps) + tail, |pre|, |ps|, p) == Some(ApplyAll(chip, p, ps))
    decreases |ps|
  {
    if ps != [] {
      var q := ps[0];
      var rec := [q.id, |q.value| as u8] + q.value;
      var rest := EncodeParams(ps[1..]) + tail;
      EncodeSplit(pre, ps, tail);
      RecordStep(chip, pre, q, rest, |ps| - 1, p);
      ParseEncodedParams(chip, pre + rec, ps[1..], tail, ApplyParam(chip, p, q));
      assert ApplyAll(chip, p, ps) == ApplyAll(chip, ApplyParam(chip, p, q), ps[1..]);
    }
  }

  /** The first record split off an encoded list. */
  lemma EncodeSplit(pre: seq<u8>, ps: seq<Param>, tail: seq<u8>)
    requires ps != [] && forall i :: 0 <= i < |ps| ==> |ps[i].value| < 0x100
    ensures var rec := [ps[0].id, |ps[0].value| as u8] + ps[0].value;
      && pre + EncodeParams(ps) + tail == pre + rec + (EncodeParams(ps[1..]) + tail)
      && pre + EncodeParams(ps) + tail == (pre + rec) + EncodeParams(ps[1..]) + tail
  {
  }

  /** The parser's step over one encoded record. */
  lemma RecordStep(chip: Chip, pre: seq<u8>, q: Param, rest: seq<u8>, n: nat, p: RangingParams)
    requires WellFormedParam(chip, q)
    ensures var rec := [q.id, |q.value| as u8] + q.value;
      ParseRanging(chip, pre + rec + rest, |pre|, n + 1, p)
      == ParseRanging(chip, pre + rec + rest, |pre + rec|, n, ApplyParam(chip, p, q))
  {
    var rec := [q.id, |q.value| as u8] + q.value;
    var rsp := pre + rec + rest;
    var k := |pre|;
    assert rsp[k] == q.id && rsp[k + 1] == |q.value|;
    var v := rsp[k + 2..];
    assert v[..|q.value|] == q.value;
    assert ApplyRangingRecord(chip, p, q.id, |q.value| as u8, v) == Some(ApplyParam(chip, p, q));
  }

  /** A record with an id the parser does not know is passed over by its
      length and changes nothing. */
  lemma UnknownRecordSkipped(chip: Chip, rsp: seq<u8>, k: nat, n: nat, p: RangingParams)
    requires k + 2 <= |rsp| && !ScalarRangingId(chip, rsp[k]) && !ArrayRangingId(rsp[k])
    ensures ParseRanging(chip, rsp, k, n + 1, p) == ParseRanging(chip, rsp, k + 2 + rsp[k + 1], n, p)
  {
  }

  // ---------------------------------------------------------------------
  // The API context, waitforNotification, rawCommandResponse_Cb, sendRawUci

  /** What posts the semaphore a raw command waits on: the raw-response
      callback with the response packet (`beyond` is the byte the callback
      reads as the status when the packet is too short to hold one), the
      response-timeout event, an HPD wake-up device status, or a device
      status of UWBD_STATUS_ERROR while the response is pending. */
  datatype RawCompletion = RawResponse(packet: seq<u8>, beyond: u8) | RespTimeout | HpdWakeup | DeviceError

  /** The status byte of a response packet, as the callback reads it. */
  function ResponseStatus(packet: seq<u8>, beyond: u8): u8
  {
    if UCI_RESPONSE_STATUS_OFFSET < |packet| then packet[UCI_RESPONSE_STATUS_OFFSET] else beyond
  }

  /** The `wstatus` a completion leaves. An empty raw response leaves FAILED. */
  function CompletionStatus(c: RawCompletion): u8
  {
    match c
    case RawResponse(packet, beyond) => if 0 < |packet| then ResponseStatus(packet, beyond) else UWBAPI_STATUS_FAILED
    case RespTimeout => UWBAPI_STATUS_TIMEOUT
    case HpdWakeup => UWBAPI_STATUS_HPD_WAKEUP
    case DeviceError => UWBAPI_STATUS_TIMEOUT
  }

  /** The response buffer after a completion: a nonempty raw response is
      copied over its start, with no bound on its length, and the bytes
      beyond it keep their contents; any other completion leaves the buffer
      alone. A buffer that grows past its array is a copy that ran past the
      end of `rsp_data`. */
  function CompletionRsp(c: RawCompletion, rspData: seq<u8>): (r: seq<u8>)
    ensures |r| == if c.RawResponse? && |rspData| < |c.packet| then |c.packet| else |rspData|
    ensures c.RawResponse? && 0 < |c.packet| ==> |c.packet| <= |r| && r[..|c.packet|] == c.packet
    ensures c.RawResponse? && 0 < |c.packet| ==> forall i :: |c.packet| <= i < |rspData| ==> r[i] == rspData[i]
    ensures !(c.RawResponse? && 0 < |c.packet|) ==> r == rspData
  {
    if c.RawResponse? && 0 < |c.packet| then Overlay(rspData, c.packet) else rspData
  }

  /** The status `sendRawUci` returns, given the send status, what completed
      the wait when the send succeeded, and the response buffer before. A
      timeout or wake-up passes through; otherwise a response buffer whose
      GID or OID differs from the command's gives FAILED. */
  function RawUciStatus(cmd: seq<u8>, sendStatus: u8, c: RawCompletion, rspData: seq<u8>): u8
    requires 2 <= |cmd| && 2 <= |rspData|
  {
    var wstatus := if sendStatus == UWBAPI_STATUS_OK then CompletionStatus(c) else UWBAPI_STATUS_FAILED;
    var status := if sendStatus == UWBAPI_STATUS_OK then wstatus else sendStatus;
    var rsp := if sendStatus == UWBAPI_STATUS_OK then CompletionRsp(c, rspData) else rspData;
    if wstatus == UWBAPI_STATUS_TIMEOUT then UWBAPI_STATUS_TIMEOUT
    else if wstatus == UWBAPI_STATUS_HPD_WAKEUP then UWBAPI_STATUS_HPD_WAKEUP
    else if rsp[0] % 0x10 != cmd[0] % 0x10 || rsp[1] % 0x40 != cmd[1] % 0x40 then UWBAPI_STATUS_FAILED
    else status
  }

  /** The status `waitforNotification` returns. */
  function WaitStatus(receivedEventId: u16, waitEventId: u16, posted: bool, sessionStatusNtfEvt: u16): u8
  {
    if receivedEventId != waitEventId then
      if posted || waitEventId == sessionStatusNtfEvt then UWBAPI_STATUS_OK else UWBAPI_STATUS_FAILED
    else UWBAPI_STATUS_OK
  }

  /** The wait succeeds exactly when the event was already received, the
      semaphore was posted in time, or the awaited event is the session
      status notification, which may have come before the wait began;
      otherwise it fails. An event already received needs no wait. */
  lemma WaitStatusCases(receivedEventId: u16, waitEventId: u16, posted: bool, sessionStatusNtfEvt: u16)
    ensures var s := WaitStatus(receivedEventId, waitEventId, posted, sessionStatusNtfEvt);
      && (s == UWBAPI_STATUS_OK <==> receivedEventId == waitEventId || posted || waitEventId == sessionStatusNtfEvt)
      && (s == UWBAPI_STATUS_OK || s == UWBAPI_STATUS_FAILED)
  {
  }

  /** A raw command whose response names another GID or OID fails, and a
      response that matches reports the device's status byte. */
  lemma RawUciResponseChecked(cmd: seq<u8>, packet: seq<u8>, beyond: u8, rspData: seq<u8>)
    requires 2 <= |cmd| && 2 <= |packet| && 2 <= |rspData|
    requires ResponseStatus(packet, beyond) != UWBAPI_STATUS_TIMEOUT
    requires ResponseStatus(packet, beyond) != UWBAPI_STATUS_HPD_WAKEUP
    ensures packet[0] % 0x10 != cmd[0] % 0x10 || packet[1] % 0x40 != cmd[1] % 0x40 ==>
      RawUciStatus(cmd, UWBAPI_STATUS_OK, RawResponse(packet, beyond), rspData) == UWBAPI_STATUS_FAILED
    ensures packet[0] % 0x10 == cmd[0] % 0x10 && packet[1] % 0x40 == cmd[1] % 0x40 ==>
      RawUciStatus(cmd, UWBAPI_STATUS_OK, RawResponse(packet, beyond), rspData) == ResponseStatus(packet, beyond)
  {
    var rsp := Overlay(rspData, packet);
    assert rsp[..|packet|] == packet;
    assert rsp[0] == packet[0] && rsp[1] == packet[1];
  }

  /** A timeout or an HPD wake-up while waiting is reported as such, and a
      device error as a timeout, whatever the response buffer holds. */
  lemma RawUciPassesThrough(cmd: seq<u8>, rspData: seq<u8>)
    requires 2 <= |cmd| && 2 <= |rspData|
    ensures RawUciStatus(cmd, UWBAPI_STATUS_OK, RespTimeout, rspData) == UWBAPI_STATUS_TIMEOUT
    ensures RawUciStatus(cmd, UWBAPI_STATUS_OK, HpdWakeup, rspData) == UWBAPI_STATUS_HPD_WAKEUP
    ensures RawUciStatus(cmd, UWBAPI_STATUS_OK, DeviceError, rspData) == UWBAPI_STATUS_TIMEOUT
  {
  }

  /** The part of the global `uwbContext` these functions use. The event
      ids are those of the device-management event enumeration. */
  class ApiContext {
    var wstatus: u8
    var receivedEventId: u16
    var currentEventId: u16
    var rspLen: nat
    var rspData: seq<u8>
    const sessionStatusNtfEvt: u16
    const respTimeoutEvt: u16
    const deviceStatusNtfEvt: u16

    /** The response buffer is at least the `rsp_data` array; it is longer
        only once a copy ran past the array's end. */
    predicate Valid()
      reads this
    {
      MAX_UCI_PACKET_SIZE <= |rspData|
    }

    /** No copy has run past the end of `rsp_data`. */
    predicate InBounds()
      reads this
    {
      |rspData| == MAX_UCI_PACKET_SIZE
    }

    constructor (sessionStatusNtfEvt: u16, respTimeoutEvt: u16, deviceStatusNtfEvt: u16)
      ensures Valid() && InBounds()
      ensures this.sessionStatusNtfEvt == sessionStatusNtfEvt && this.respTimeoutEvt == respTimeoutEvt
      ensures this.deviceStatusNtfEvt == deviceStatusNtfEvt
      ensures wstatus == 0 && receivedEventId == 0 && currentEventId == 0 && rspLen == 0
      ensures rspData == Zeros(MAX_UCI_PACKET_SIZE)
    {
      this.sessionStatusNtfEvt := sessionStatusNtfEvt;
      this.respTimeoutEvt := respTimeoutEvt;
      this.deviceStatusNtfEvt := deviceStatusNtfEvt;
      wstatus := 0;
      receivedEventId := 0;
      currentEventId := 0;
      rspLen := 0;
      rspData := Zeros(MAX_UCI_PACKET_SIZE);
    }

    /** `sep_SetWaitEvent`. */
    method SetWaitEvent(eventId: u16)
      modifies this
      ensures currentEventId == eventId
      ensures wstatus == old(wstatus) && receivedEventId == old(receivedEventId)
      ensures rspLen == old(rspLen) && rspData == old(rspData)
    {
      currentEventId := eventId;
    }

    /** `waitforNotification`: returns at once when the event was already
      received, otherwise waits for it; `posted` says whether the semaphore
      was posted before the timeout. The received event is always reset. */
    method WaitForNotification(waitEventId: u16, posted: bool) returns (status: u8)
      modifies this
      ensures status == WaitStatus(old(receivedEventId), waitEventId, posted, sessionStatusNtfEvt)
      ensures receivedEventId == DEFAULT_EVENT_TYPE
      ensures currentEventId == if old(receivedEventId) != waitEventId then waitEventId else old(currentEventId)
      ensures wstatus == old(wstatus) && rspLen == old(rspLen) && rspData == old(rspData)
    {
      status := UWBAPI_STATUS_FAILED;
      if receivedEventId != waitEventId {
        SetWaitEvent(waitEventId);
        if posted {
          status := UWBAPI_STATUS_OK;
        } else if sessionStatusNtfEvt == waitEventId {
          status := UWBAPI_STATUS_OK;
        }
      } else {
        status := UWBAPI_STATUS_OK;
      }
      receivedEventId := DEFAULT_EVENT_TYPE;
    }

    /** `rawCommandResponse_Cb`: records the response length, and for a
      nonempty response its status byte and its bytes; then releases the
      waiter. */
    method RawCommandResponseCb(packet: seq<u8>, beyond: u8)
      requires Valid()
      modifies this
      ensures Valid()
      ensures wstatus == CompletionStatus(RawResponse(packet, beyond))
      ensures rspLen == |packet|
      ensures rspData == CompletionRsp(RawResponse(packet, beyond), old(rspData))
      ensures old(InBounds()) ==> (InBounds() <==> |packet| <= MAX_UCI_PACKET_SIZE)
      ensures currentEventId == DEFAULT_EVENT_TYPE && receivedEventId == old(receivedEventId)
    {
      wstatus := UWBAPI_STATUS_FAILED;
      rspLen := |packet|;
      if 0 < |packet| {
        wstatus := ResponseStatus(packet, beyond);
        rspData := Overlay(rspData, packet);
      }
      currentEventId := DEFAULT_EVENT_TYPE;
    }

    /** The device-management callback for the three events that end a raw
      command's wait without a response: the response timeout, a device
      status of 0xFC (HPD wake-up), and a device status of UWBD_STATUS_ERROR
      while the response is pending, which reads as a timeout. Each posts
      the semaphore. */
    method DeviceManagementEvent(c: RawCompletion)
      requires !c.RawResponse?
      modifies this
      ensures wstatus == CompletionStatus(c)
      ensures receivedEventId == if c.RespTimeout? then respTimeoutEvt else deviceStatusNtfEvt
      ensures currentEventId == DEFAULT_EVENT_TYPE
      ensures rspLen == old(rspLen) && rspData == old(rspData)
    {
      if c.RespTimeout? {
        receivedEventId := respTimeoutEvt;
        wstatus := UWBAPI_STATUS_TIMEOUT;
      } else if c.HpdWakeup? {
        receivedEventId := deviceStatusNtfEvt;
        wstatus := UWBAPI_STATUS_HPD_WAKEUP;
      } else {
        receivedEventId := deviceStatusNtfEvt;
        wstatus := UWBAPI_STATUS_TIMEOUT;
      }
      currentEventId := DEFAULT_EVENT_TYPE;
    }

    /** `sendRawUci`: sends the command and, when the send succeeds, waits
      for what completes it; then checks the response's GID and OID against
      the command's. */
    method SendRawUci(cmd: seq<u8>, sendStatus: u8, c: RawCompletion) returns (status: u8)
      requires Valid() && 2 <= |cmd|
      modifies this
      ensures Valid()
      ensures status == RawUciStatus(cmd, sendStatus, c, old(rspData))
      ensures rspData == if sendStatus == UWBAPI_STATUS_OK then CompletionRsp(c, old(rspData)) else old(rspData)
      ensures old(InBounds()) ==> (InBounds() <==> sendStatus != UWBAPI_STATUS_OK || !c.RawResponse? || |c.packet| <= MAX_UCI_PACKET_SIZE)
    {
      var cmdGid := cmd[0] % 0x10;
      var cmdOid := cmd[1] % 0x40;
      wstatus := UWBAPI_STATUS_FAILED;
      SetWaitEvent(respTimeoutEvt);
      status := sendStatus;
      if status == UWBAPI_STATUS_OK {
        if c.RawResponse? {
          RawCommandResponseCb(c.packet, c.beyond);
        } else {
          DeviceManagementEvent(c);
        }
        status := wstatus;
      }
      if wstatus == UWBAPI_STATUS_TIMEOUT {
        status := UWBAPI_STATUS_TIMEOUT;
      } else if wstatus == UWBAPI_STATUS_HPD_WAKEUP {
        status := UWBAPI_STATUS_HPD_WAKEUP;
      } else {
        var rspGid := rspData[0] % 0x10;
        var rspOid := rspData[1] % 0x40;
        if cmdGid != rspGid || cmdOid != rspOid {
          wstatus := UWBAPI_STATUS_FAILED;
          status := UWBAPI_STATUS_FAILED;
        }
      }
    }
  }
}
