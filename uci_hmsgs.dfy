// Composition of the UCI commands the host sends. Each `uci_snd_*` routine
// takes a buffer from the pool, writes the four header bytes and the payload
// through a stream pointer, and hands the buffer to the command queue.
module UciHmsgs {
  import opened Bytes
  import opened UciDefs
  import opened UwbMain
  import opened UwbUcif

  // Opcode ids of the commands, per group.
  const UCI_MSG_CORE_DEVICE_RESET: u8 := 0x00
  const UCI_MSG_CORE_DEVICE_INFO: u8 := 0x02
  const UCI_MSG_CORE_GET_CAPS_INFO: u8 := 0x03
  const UCI_MSG_CORE_SET_CONFIG: u8 := 0x04
  const UCI_MSG_CORE_GET_CONFIG: u8 := 0x05
  const UCI_MSG_SESSION_INIT: u8 := 0x00
  const UCI_MSG_SESSION_DEINIT: u8 := 0x01
  const UCI_MSG_SESSION_SET_APP_CONFIG: u8 := 0x03
  const UCI_MSG_SESSION_GET_APP_CONFIG: u8 := 0x04
  const UCI_MSG_SESSION_GET_COUNT: u8 := 0x05
  const UCI_MSG_SESSION_GET_STATE: u8 := 0x06
  const UCI_MSG_SESSION_UPDATE_CONTROLLER_MULTICAST_LIST: u8 := 0x07
  const UCI_MSG_RANGE_START: u8 := 0x00
  const UCI_MSG_RANGE_STOP: u8 := 0x01
  const UCI_MSG_RANGE_CTRL_REQ: u8 := 0x02
  const UCI_MSG_RANGE_GET_RANGING_COUNT: u8 := 0x03
  const UCI_MSG_APP_DATA_TX: u8 := 0x00
  const UCI_MSG_APP_DATA_RX: u8 := 0x01
  const UCI_MSG_TEST_SET_CONFIG: u8 := 0
  const UCI_MSG_TEST_GET_CONFIG: u8 := 1
  const UCI_MSG_TEST_PERIODIC_TX: u8 := 2
  const UCI_MSG_TEST_PER_RX: u8 := 3
  const UCI_MSG_TEST_RX: u8 := 5
  const UCI_MSG_TEST_LOOPBACK: u8 := 6
  const UCI_MSG_TEST_STOP_SESSION: u8 := 7

  // Payload sizes the builders write into the length byte.
  const UCI_MSG_CORE_DEVICE_RESET_CMD_SIZE: u8 := 0x01
  const UCI_MSG_CORE_DEVICE_INFO_CMD_SIZE: u8 := 0x00
  const UCI_MSG_CORE_GET_CAPS_INFO_CMD_SIZE: u8 := 0x00
  const UCI_MSG_SESSION_INIT_CMD_SIZE: u8 := 0x05
  const UCI_MSG_SESSION_DEINIT_CMD_SIZE: u8 := 0x04
  const UCI_MSG_SESSION_GET_COUNT_CMD_SIZE: u8 := 0x00
  const UCI_MSG_SESSION_GET_STATE_SIZE: u8 := 0x04
  const UCI_MSG_RANGE_START_CMD_SIZE: u8 := 0x04
  const UCI_MSG_RANGE_STOP_CMD_SIZE: u8 := 0x04
  const UCI_MSG_RANGE_INTERVAL_UPDATE_REQ_CMD_SIZE: u8 := 0x06
  const UCI_MSG_RANGE_GET_COUNT_CMD_SIZE: u8 := 0x04
  const UCI_MSG_APP_DATA_TX_CMD_SIZE: nat := 0x06
  const UCI_MSG_APP_DATA_RX_CMD_SIZE: u8 := 0x06
  const UCI_MSG_TEST_RX_CMD_SIZE: u8 := 0
  const UCI_MSG_TEST_STOP_SESSION_CMD_SIZE: u8 := 0
  const SESSION_ID_LEN: nat := 4
  const SHORT_ADDRESS_LEN: nat := 2

  /** The bit of byte 1 that announces a 16-bit length in bytes 2 and 3. */
  const EXTENDED_LENGTH_FLAG: u8 := 0x80

  /** One entry of a multicast list update. */
  datatype Controlee = Controlee(shortAddress: u16, subSessionId: u32)

  /** The commands, one per builder, with the arguments the builder takes. A
      `data` field is the byte array passed with its length. */
  datatype UciCommand =
    | GetDeviceInfo
    | DeviceReset(resetConfig: u8)
    | CoreSetConfig(numIds: u8, data: seq<u8>)
    | CoreGetConfig(numIds: u8, data: seq<u8>)
    | SessionInit(sessionId: u32, sessionType: u8)
    | SessionDeinit(sessionId: u32)
    | AppSetConfig(sessionId: u32, numIds: u8, data: seq<u8>)
    | AppGetConfig(sessionId: u32, numIds: u8, data: seq<u8>)
    | GetSessionCount
    | GetSessionStatus(sessionId: u32)
    | GetRangeCount(sessionId: u32)
    | RangeStart(sessionId: u32)
    | RangeStop(sessionId: u32)
    | RangeIntervalUpdate(sessionId: u32, interval: u16)
    | AppDataSend(sessionId: u32, address: u16, data: seq<u8>)
    | AppDataReceive(sessionId: u32, address: u16)
    | GetDeviceCapability
    | MulticastListUpdate(sessionId: u32, action: u8, controlees: seq<Controlee>)
    | TestSetConfig(sessionId: u32, numIds: u8, data: seq<u8>)
    | TestGetConfig(sessionId: u32, numIds: u8, data: seq<u8>)
    | PeriodicTx(data: seq<u8>)
    | PerRx(data: seq<u8>)
    | Loopback(data: seq<u8>)
    | TestRx
    | TestStopSession

  /** The commands whose byte array is a configuration TLV list. */
  predicate IsConfig(c: UciCommand)
  {
    c.CoreSetConfig? || c.CoreGetConfig? || c.AppSetConfig? || c.AppGetConfig? ||
    c.TestSetConfig? || c.TestGetConfig?
  }

  /** The RF-test commands that carry a PSDU and may use the extended length. */
  predicate IsPsdu(c: UciCommand)
  {
    c.PeriodicTx? || c.PerRx? || c.Loopback?
  }

  /** The argument widths of the builders: configuration lengths and the
      controlee count are `uint8_t`, data and PSDU lengths `uint16_t`. */
  predicate Valid(c: UciCommand)
  {
    (IsConfig(c) ==> |c.data| < 0x100) &&
    ((c.AppDataSend? || IsPsdu(c)) ==> |c.data| < 0x1_0000) &&
    (c.MulticastListUpdate? ==> |c.controlees| < 0x100)
  }

  function Gid(c: UciCommand): (gid: u8)
    ensures gid < 16
  {
    match c
    case GetDeviceInfo | DeviceReset(_) | CoreSetConfig(_, _) | CoreGetConfig(_, _) | GetDeviceCapability =>
      UCI_GID_CORE
    case SessionInit(_, _) | SessionDeinit(_) | AppSetConfig(_, _, _) | AppGetConfig(_, _, _)
       | GetSessionCount | GetSessionStatus(_) | MulticastListUpdate(_, _, _) =>
      UCI_GID_SESSION_MANAGE
    case GetRangeCount(_) | RangeStart(_) | RangeStop(_) | RangeIntervalUpdate(_, _) =>
      UCI_GID_RANGE_MANAGE
    case AppDataSend(_, _, _) | AppDataReceive(_, _) =>
      UCI_GID_APP_DATA_MANAGE
    case TestSetConfig(_, _, _) | TestGetConfig(_, _, _) | PeriodicTx(_) | PerRx(_) | Loopback(_)
       | TestRx | TestStopSession =>
      UCI_GID_TEST
  }

  function Oid(c: UciCommand): (oid: u8)
    ensures oid < 8
  {
    match c
    case GetDeviceInfo => UCI_MSG_CORE_DEVICE_INFO
    case DeviceReset(_) => UCI_MSG_CORE_DEVICE_RESET
    case CoreSetConfig(_, _) => UCI_MSG_CORE_SET_CONFIG
    case CoreGetConfig(_, _) => UCI_MSG_CORE_GET_CONFIG
    case GetDeviceCapability => UCI_MSG_CORE_GET_CAPS_INFO
    case SessionInit(_, _) => UCI_MSG_SESSION_INIT
    case SessionDeinit(_) => UCI_MSG_SESSION_DEINIT
    case AppSetConfig(_, _, _) => UCI_MSG_SESSION_SET_APP_CONFIG
    case AppGetConfig(_, _, _) => UCI_MSG_SESSION_GET_APP_CONFIG
    case GetSessionCount => UCI_MSG_SESSION_GET_COUNT
    case GetSessionStatus(_) => UCI_MSG_SESSION_GET_STATE
    case MulticastListUpdate(_, _, _) => UCI_MSG_SESSION_UPDATE_CONTROLLER_MULTICAST_LIST
    case GetRangeCount(_) => UCI_MSG_RANGE_GET_RANGING_COUNT
    case RangeStart(_) => UCI_MSG_RANGE_START
    case RangeStop(_) => UCI_MSG_RANGE_STOP
    case RangeIntervalUpdate(_, _) => UCI_MSG_RANGE_CTRL_REQ
    case AppDataSend(_, _, _) => UCI_MSG_APP_DATA_TX
    case AppDataReceive(_, _) => UCI_MSG_APP_DATA_RX
    case TestSetConfig(_, _, _) => UCI_MSG_TEST_SET_CONFIG
    case TestGetConfig(_, _, _) => UCI_MSG_TEST_GET_CONFIG
    case PeriodicTx(_) => UCI_MSG_TEST_PERIODIC_TX
    case PerRx(_) => UCI_MSG_TEST_PER_RX
    case Loopback(_) => UCI_MSG_TEST_LOOPBACK
    case TestRx => UCI_MSG_TEST_RX
    case TestStopSession => UCI_MSG_TEST_STOP_SESSION
  }

  /** The controlee entries of a multicast update, each short address
      followed by its sub-session id, both little-endian. */
  function Entries(l: seq<Controlee>): (r: seq<u8>)
    ensures |r| == (SHORT_ADDRESS_LEN + SESSION_ID_LEN) * |l|
  {
    if l == [] then []
    else
      var e := l[|l| - 1];
      Entries(l[..|l| - 1]) + ToLE16(e.shortAddress) + ToLE32(e.subSessionId)
  }

  /** The payload bytes a builder writes after the header: the arguments in
      order, integers little-endian. */
  function Payload(c: UciCommand): (p: seq<u8>)
    requires Valid(c)
  {
    match c
    case GetDeviceInfo => []
    case DeviceReset(r) => [r]
    case CoreSetConfig(n, d) => [n] + d
    case CoreGetConfig(n, d) => [n] + d
    case SessionInit(s, t) => ToLE32(s) + [t]
    case SessionDeinit(s) => ToLE32(s)
    case AppSetConfig(s, n, d) => ToLE32(s) + [n] + d
    case AppGetConfig(s, n, d) => ToLE32(s) + [n] + d
    case GetSessionCount => []
    case GetSessionStatus(s) => ToLE32(s)
    case GetRangeCount(s) => ToLE32(s)
    case RangeStart(s) => ToLE32(s)
    case RangeStop(s) => ToLE32(s)
    case RangeIntervalUpdate(s, i) => ToLE32(s) + ToLE16(i)
    case AppDataSend(s, a, d) => ToLE32(s) + ToLE16(a) + d
    case AppDataReceive(s, a) => ToLE32(s) + ToLE16(a)
    case GetDeviceCapability => []
    case MulticastListUpdate(s, a, l) => ToLE32(s) + [a, |l| as u8] + Entries(l)
    case TestSetConfig(s, n, d) => ToLE32(s) + [n] + d
    case TestGetConfig(s, n, d) => ToLE32(s) + [n] + d
    case PeriodicTx(d) => d
    case PerRx(d) => d
    case Loopback(d) => d
    case TestRx => []
    case TestStopSession => []
  }

  /** The value each builder writes into the one-byte length field: a size
      constant, or the sum of the argument sizes cast to `uint8_t`. */
  function LengthField(c: UciCommand): (b: u8)
    requires Valid(c)
  {
    match c
    case GetDeviceInfo => UCI_MSG_CORE_DEVICE_INFO_CMD_SIZE
    case DeviceReset(_) => UCI_MSG_CORE_DEVICE_RESET_CMD_SIZE
    case CoreSetConfig(_, d) => (1 + |d|) % 0x100
    case CoreGetConfig(_, d) => (1 + |d|) % 0x100
    case SessionInit(_, _) => UCI_MSG_SESSION_INIT_CMD_SIZE
    case SessionDeinit(_) => UCI_MSG_SESSION_DEINIT_CMD_SIZE
    case AppSetConfig(_, _, d) => (SESSION_ID_LEN + 1 + |d|) % 0x100
    case AppGetConfig(_, _, d) => (SESSION_ID_LEN + 1 + |d|) % 0x100
    case GetSessionCount => UCI_MSG_SESSION_GET_COUNT_CMD_SIZE
    case GetSessionStatus(_) => UCI_MSG_SESSION_GET_STATE_SIZE
    case GetRangeCount(_) => UCI_MSG_RANGE_GET_COUNT_CMD_SIZE
    case RangeStart(_) => UCI_MSG_RANGE_START_CMD_SIZE
    case RangeStop(_) => UCI_MSG_RANGE_STOP_CMD_SIZE
    case RangeIntervalUpdate(_, _) => UCI_MSG_RANGE_INTERVAL_UPDATE_REQ_CMD_SIZE
    case AppDataSend(_, _, d) => (UCI_MSG_APP_DATA_TX_CMD_SIZE + |d|) % 0x100
    case AppDataReceive(_, _) => UCI_MSG_APP_DATA_RX_CMD_SIZE
    case GetDeviceCapability => UCI_MSG_CORE_GET_CAPS_INFO_CMD_SIZE
    case MulticastListUpdate(_, _, l) =>
      (SESSION_ID_LEN + 1 + 1 + |l| * SHORT_ADDRESS_LEN + |l| * SESSION_ID_LEN) % 0x100
    case TestSetConfig(_, _, d) => (SESSION_ID_LEN + 1 + |d|) % 0x100
    case TestGetConfig(_, _, d) => (SESSION_ID_LEN + 1 + |d|) % 0x100
    case PeriodicTx(d) => |d| % 0x100
    case PerRx(d) => |d| % 0x100
    case Loopback(d) => |d| % 0x100
    case TestRx => UCI_MSG_TEST_RX_CMD_SIZE
    case TestStopSession => UCI_MSG_TEST_STOP_SESSION_CMD_SIZE
  }

  /** The size constants and sums written into the length field agree with
      the payload actually written, up to the truncation to a byte. */
  lemma LengthFieldCountsPayload(c: UciCommand)
    requires Valid(c)
    ensures LengthField(c) == |Payload(c)| % 0x100
  {
  }

  /** Whether a PSDU command takes the extended-length header. */
  predicate UsesExtendedLength(c: UciCommand)
    requires Valid(c)
  {
    IsPsdu(c) && |c.data| > UCI_MAX_PAYLOAD_SIZE
  }

  /** The four header bytes a builder writes: `(CMD << 5) | gid`, the
      opcode, a reserved zero byte and the length byte; a PSDU longer than
      255 bytes sets bit 7 of the opcode byte and puts its length
      little-endian in bytes 2 and 3 instead. */
  function Header(c: UciCommand): (h: seq<u8>)
    requires Valid(c)
    ensures |h| == UCI_MSG_HDR_SIZE
    ensures ParseHdr0(h[0]) == Hdr0(UCI_MT_CMD, UCI_PBF_NO_OR_LAST, Gid(c))
    ensures ParseHdr1(h[1]) == Oid(c)
    ensures ExtendedLength(h[1]) <==> UsesExtendedLength(c)
    ensures !UsesExtendedLength(c) ==> h[2] == 0 && h[3] == |Payload(c)| % 0x100
    ensures UsesExtendedLength(c) ==> LE16(h[2], h[3]) == |Payload(c)|
  {
    ParseBuildHdr0(UCI_MT_CMD, Gid(c));
    if UsesExtendedLength(c) then
      var len := |c.data| as u16;
      var t := ToLE16(len);
      assert Payload(c) == c.data;
      ExtendedLengthIsTopBit(EXTENDED_LENGTH_FLAG + Oid(c));
      assert ParseHdr1(EXTENDED_LENGTH_FLAG + Oid(c)) == Oid(c);
      [BuildHdr0(UCI_MT_CMD, Gid(c)), BuildHdr1(EXTENDED_LENGTH_FLAG + Oid(c)), t[0], t[1]]
    else
      LengthFieldCountsPayload(c);
      ExtendedLengthIsTopBit(Oid(c));
      [BuildHdr0(UCI_MT_CMD, Gid(c)), BuildHdr1(Oid(c)), 0x00, LengthField(c)]
  }

  /** The command buffer a builder hands to the queue: the header, then the
      payload; the buffer length `len` is the header plus the payload. */
  function Encode(c: UciCommand): (m: UciPacket)
    requires Valid(c)
    ensures |m| == UCI_MSG_HDR_SIZE + |Payload(c)| && m[UCI_MSG_HDR_SIZE..] == Payload(c)
    ensures m[..UCI_MSG_HDR_SIZE] == Header(c)
  {
    Header(c) + Payload(c)
  }

  // ---------------------------------------------------------------------
  // Writing through the stream pointer
  // ---------------------------------------------------------------------

  /** The header bytes, written one at a time. */
  method ComposeHeader(c: UciCommand) returns (h: seq<u8>)
    requires Valid(c)
    ensures h == Header(c)
  {
    h := [BuildHdr0(UCI_MT_CMD, Gid(c))];
    if UsesExtendedLength(c) {
      h := h + [BuildHdr1(EXTENDED_LENGTH_FLAG + Oid(c))];
      var len := |c.data| as u16;
      h := h + [(len % 0x100) as u8, (len / 0x100) as u8];
    } else {
      h := h + [BuildHdr1(Oid(c)), 0x00, LengthField(c)];
    }
  }

  /** The controlee list, written one entry at a time. */
  method ComposeEntries(l: seq<Controlee>) returns (q: seq<u8>)
    ensures q == Entries(l)
  {
    q := [];
    for i := 0 to |l|
      invariant q == Entries(l[..i])
    {
      assert l[..i + 1][..i] == l[..i];
      q := q + ToLE16(l[i].shortAddress) + ToLE32(l[i].subSessionId);
    }
    assert l[..|l|] == l;
  }

  /** The payload a builder writes: the controlee list of a multicast-list
      update one entry at a time after the session id, the action and the
      count; the arguments of the other commands as `Payload` lays them
      out. */
  method ComposePayload(c: UciCommand) returns (q: seq<u8>)
    requires Valid(c)
    ensures q == Payload(c)
  {
    if c.MulticastListUpdate? {
      var e := ComposeEntries(c.controlees);
      q := ToLE32(c.sessionId) + [c.action, |c.controlees| as u8] + e;
    } else {
      q := Payload(c);
    }
  }

  /** A builder: FAILED when no buffer can be had, otherwise OK with the
      header and payload written into the buffer and the buffer handed to
      `uwb_ucif_send_cmd`. */
  method SendCommand(cb: UwbCb, bufferAvailable: bool, c: UciCommand) returns (status: u8)
    requires Valid(c)
    modifies cb
    ensures status == (if bufferAvailable then UWB_STATUS_OK else UWB_STATUS_FAILED)
    ensures !bufferAvailable ==> cb.Cmd() == old(cb.Cmd())
    ensures bufferAvailable ==>
      cb.Cmd() == CheckCmdQueueStep(old(cb.Cmd()), Some(UciCmd(Encode(c), false)))
    ensures cb.state == old(cb.state) && cb.hasRespCallback == old(cb.hasRespCallback)
  {
    if !bufferAvailable {
      return UWB_STATUS_FAILED;
    }
    var h := ComposeHeader(c);
    var q := ComposePayload(c);
    SendCmd(cb, Some(h + q));
    status := UWB_STATUS_OK;
  }

  // ---------------------------------------------------------------------
  // Reading a command back
  // ---------------------------------------------------------------------

  /** A command header taken apart: group, opcode, which length form it
      uses, and the payload the length announces. */
  datatype Frame = Frame(gid: u8, oid: u8, extended: bool, payload: seq<u8>)

  /** Accepts a command packet (not segmented) whose length field matches
      the bytes that follow the header; in the one-byte form the reserved
      byte 2 is zero. */
  function DecodeFrame(m: seq<u8>): (r: Option<Frame>)
    ensures r.Some? ==> |m| == UCI_MSG_HDR_SIZE + |r.value.payload|
  {
    if |m| < UCI_MSG_HDR_SIZE then None
    else
      var h := ParseHdr0(m[0]);
      var ext := ExtendedLength(m[1]);
      var len: nat := if ext then LE16(m[2], m[3]) else m[3];
      if h.mt != UCI_MT_CMD || h.pbf != UCI_PBF_NO_OR_LAST || (!ext && m[2] != 0) ||
         len != |m| - UCI_MSG_HDR_SIZE
      then None
      else Some(Frame(h.gid, ParseHdr1(m[1]), ext, m[UCI_MSG_HDR_SIZE..]))
  }

  /** The controlee list written as `Entries`, read back. */
  function DecodeEntries(b: seq<u8>): (l: seq<Controlee>)
    decreases |b|
  {
    if |b| < SHORT_ADDRESS_LEN + SESSION_ID_LEN then []
    else
      var k := |b| - (SHORT_ADDRESS_LEN + SESSION_ID_LEN);
      DecodeEntries(b[..k]) + [Controlee(U16At(b, k), U32At(b, k + SHORT_ADDRESS_LEN))]
  }

  function DecodeCore(oid: u8, p: seq<u8>): Option<UciCommand>
  {
    if oid == UCI_MSG_CORE_DEVICE_INFO && p == [] then Some(GetDeviceInfo)
    else if oid == UCI_MSG_CORE_DEVICE_RESET && |p| == 1 then Some(DeviceReset(p[0]))
    else if oid == UCI_MSG_CORE_GET_CAPS_INFO && p == [] then Some(GetDeviceCapability)
    else if oid == UCI_MSG_CORE_SET_CONFIG && |p| >= 1 then Some(CoreSetConfig(p[0], p[1..]))
    else if oid == UCI_MSG_CORE_GET_CONFIG && |p| >= 1 then Some(CoreGetConfig(p[0], p[1..]))
    else None
  }

  function DecodeSession(oid: u8, p: seq<u8>): Option<UciCommand>
  {
    if oid == UCI_MSG_SESSION_GET_COUNT && p == [] then Some(GetSessionCount)
    else if |p| < 4 then None
    else
      var s := U32At(p, 0);
      if oid == UCI_MSG_SESSION_INIT && |p| == 5 then Some(SessionInit(s, p[4]))
      else if oid == UCI_MSG_SESSION_DEINIT && |p| == 4 then Some(SessionDeinit(s))
      else if oid == UCI_MSG_SESSION_GET_STATE && |p| == 4 then Some(GetSessionStatus(s))
      else if oid == UCI_MSG_SESSION_SET_APP_CONFIG && |p| >= 5 then Some(AppSetConfig(s, p[4], p[5..]))
      else if oid == UCI_MSG_SESSION_GET_APP_CONFIG && |p| >= 5 then Some(AppGetConfig(s, p[4], p[5..]))
      else if oid == UCI_MSG_SESSION_UPDATE_CONTROLLER_MULTICAST_LIST && |p| >= 6 &&
              |p| - 6 == (SHORT_ADDRESS_LEN + SESSION_ID_LEN) * p[5]
      then Some(MulticastListUpdate(s, p[4], DecodeEntries(p[6..])))
      else None
  }

  function DecodeRange(oid: u8, p: seq<u8>): Option<UciCommand>
  {
    if |p| < 4 then None
    else
      var s := U32At(p, 0);
      if oid == UCI_MSG_RANGE_START && |p| == 4 then Some(RangeStart(s))
      else if oid == UCI_MSG_RANGE_STOP && |p| == 4 then Some(RangeStop(s))
      else if oid == UCI_MSG_RANGE_GET_RANGING_COUNT && |p| == 4 then Some(GetRangeCount(s))
      else if oid == UCI_MSG_RANGE_CTRL_REQ && |p| == 6 then Some(RangeIntervalUpdate(s, U16At(p, 4)))
      else None
  }

  function DecodeAppData(oid: u8, p: seq<u8>): Option<UciCommand>
  {
    if |p| < 6 then None
    else if oid == UCI_MSG_APP_DATA_TX then Some(AppDataSend(U32At(p, 0), U16At(p, 4), p[6..]))
    else if oid == UCI_MSG_APP_DATA_RX && |p| == 6 then Some(AppDataReceive(U32At(p, 0), U16At(p, 4)))
    else None
  }

  function DecodeTest(oid: u8, p: seq<u8>): Option<UciCommand>
  {
    if oid == UCI_MSG_TEST_PERIODIC_TX then Some(PeriodicTx(p))
    else if oid == UCI_MSG_TEST_PER_RX then Some(PerRx(p))
    else if oid == UCI_MSG_TEST_LOOPBACK then Some(Loopback(p))
    else if oid == UCI_MSG_TEST_RX && p == [] then Some(TestRx)
    else if oid == UCI_MSG_TEST_STOP_SESSION && p == [] then Some(TestStopSession)
    else if |p| < 5 then None
    else if oid == UCI_MSG_TEST_SET_CONFIG then Some(TestSetConfig(U32At(p, 0), p[4], p[5..]))
    else if oid == UCI_MSG_TEST_GET_CONFIG then Some(TestGetConfig(U32At(p, 0), p[4], p[5..]))
    else None
  }

  /** The command a packet carries, as the device reads it: only the PSDU
      commands may use the extended length. */
  function DecodePayload(f: Frame): (r: Option<UciCommand>)
  {
    var r :=
      if f.gid == UCI_GID_CORE then DecodeCore(f.oid, f.payload)
      else if f.gid == UCI_GID_SESSION_MANAGE then DecodeSession(f.oid, f.payload)
      else if f.gid == UCI_GID_RANGE_MANAGE then DecodeRange(f.oid, f.payload)
      else if f.gid == UCI_GID_APP_DATA_MANAGE then DecodeAppData(f.oid, f.payload)
      else if f.gid == UCI_GID_TEST then DecodeTest(f.oid, f.payload)
      else None;
    if r.Some? && f.extended && !IsPsdu(r.value) then None else r
  }

  function Decode(m: seq<u8>): Option<UciCommand>
  {
    match DecodeFrame(m)
    case None => None
    case Some(f) => DecodePayload(f)
  }

  // ---------------------------------------------------------------------
  // Round trip
  // ---------------------------------------------------------------------

  /** Whether the payload length fits the header: always for the PSDU
      commands, which switch to the 16-bit form, and otherwise when it fits
      the one length byte. */
  predicate Fits(c: UciCommand)
    requires Valid(c)
  {
    IsPsdu(c) || |Payload(c)| <= UCI_MAX_PAYLOAD_SIZE
  }

  /** The header of a fitting command announces exactly its payload. */
  lemma FrameOfEncode(c: UciCommand)
    requires Valid(c) && Fits(c)
    ensures DecodeFrame(Encode(c)) == Some(Frame(Gid(c), Oid(c), UsesExtendedLength(c), Payload(c)))
  {
    var m := Encode(c);
    assert m[..UCI_MSG_HDR_SIZE] == Header(c);
    assert m[0] == Header(c)[0] && m[1] == Header(c)[1] && m[2] == Header(c)[2] && m[3] == Header(c)[3];
  }

  /** A number written little-endian at the front is read back. */
  lemma ReadFront32(v: u32, rest: seq<u8>)
    ensures U32At(ToLE32(v) + rest, 0) == v
  {
    ReadBackLE32([], v, rest);
    assert [] + ToLE32(v) + rest == ToLE32(v) + rest;
  }

  lemma ReadFront48(v: u32, w: u16, rest: seq<u8>)
    ensures U32At(ToLE32(v) + ToLE16(w) + rest, 0) == v
    ensures U16At(ToLE32(v) + ToLE16(w) + rest, 4) == w
  {
    ReadFront32(v, ToLE16(w) + rest);
    assert ToLE32(v) + ToLE16(w) + rest == ToLE32(v) + (ToLE16(w) + rest);
    ReadBackLE16(ToLE32(v), w, rest);
  }

  /** One more entry reads back as one more controlee. */
  lemma DecodeEntriesSnoc(front: seq<u8>, e: Controlee)
    ensures DecodeEntries(front + ToLE16(e.shortAddress) + ToLE32(e.subSessionId)) == DecodeEntries(front) + [e]
  {
    var b := front + ToLE16(e.shortAddress) + ToLE32(e.subSessionId);
    var k := |front|;
    assert b[..k] == front;
    ReadBackLE16(front, e.shortAddress, ToLE32(e.subSessionId));
    assert b == front + ToLE16(e.shortAddress) + ToLE32(e.subSessionId) + [];
    ReadBackLE32(front + ToLE16(e.shortAddress), e.subSessionId, []);
  }

  /** The controlee list is read back from its entries. */
  lemma {:induction false} DecodeEntriesOfEntries(l: seq<Controlee>)
    ensures DecodeEntries(Entries(l)) == l
  {
    if l != [] {
      var e := l[|l| - 1];
      DecodeEntriesSnoc(Entries(l[..|l| - 1]), e);
      DecodeEntriesOfEntries(l[..|l| - 1]);
      assert l[..|l| - 1] + [e] == l;
    }
  }

  lemma CoreRoundTrip(c: UciCommand)
    requires Valid(c) && Gid(c) == UCI_GID_CORE
    ensures DecodeCore(Oid(c), Payload(c)) == Some(c)
  {
    match c {
      case CoreSetConfig(n, d) => assert ([n] + d)[1..] == d;
      case CoreGetConfig(n, d) => assert ([n] + d)[1..] == d;
      case _ =>
    }
  }

  /** The session id, the one-byte field and the data after it. */
  lemma ConfigFields(s: u32, n: u8, d: seq<u8>)
    ensures var p := ToLE32(s) + [n] + d;
            |p| >= 5 && U32At(p, 0) == s && p[4] == n && p[5..] == d
  {
    var p := ToLE32(s) + [n] + d;
    ReadFront32(s, [n] + d);
    assert p == ToLE32(s) + ([n] + d);
    assert p[5..] == d;
  }

  lemma MulticastFields(s: u32, a: u8, l: seq<Controlee>)
    requires |l| < 0x100
    ensures var p := ToLE32(s) + [a, |l| as u8] + Entries(l);
            |p| >= 6 && U32At(p, 0) == s && p[4] == a && p[5] as nat == |l| &&
            |p| - 6 == (SHORT_ADDRESS_LEN + SESSION_ID_LEN) * p[5] && DecodeEntries(p[6..]) == l
  {
    var p := ToLE32(s) + [a, |l| as u8] + Entries(l);
    ReadFront32(s, [a, |l| as u8] + Entries(l));
    assert p == ToLE32(s) + ([a, |l| as u8] + Entries(l));
    assert p[6..] == Entries(l);
    DecodeEntriesOfEntries(l);
  }

  lemma SessionRoundTrip(c: UciCommand)
    requires Valid(c) && Gid(c) == UCI_GID_SESSION_MANAGE
    ensures DecodeSession(Oid(c), Payload(c)) == Some(c)
  {
    match c {
      case SessionInit(s, t) => SessionInitRoundTrip(s, t);
      case SessionDeinit(s) => SessionIdRoundTrip(s, UCI_MSG_SESSION_DEINIT);
      case GetSessionStatus(s) => SessionIdRoundTrip(s, UCI_MSG_SESSION_GET_STATE);
      case AppSetConfig(s, n, d) => AppConfigRoundTrip(s, n, d, UCI_MSG_SESSION_SET_APP_CONFIG);
      case AppGetConfig(s, n, d) => AppConfigRoundTrip(s, n, d, UCI_MSG_SESSION_GET_APP_CONFIG);
      case MulticastListUpdate(s, a, l) => MulticastRoundTrip(s, a, l);
      case GetSessionCount =>
    }
  }

  lemma SessionInitRoundTrip(s: u32, t: u8)
    ensures DecodeSession(UCI_MSG_SESSION_INIT, ToLE32(s) + [t]) == Some(SessionInit(s, t))
  {
    ConfigFields(s, t, []);
    assert ToLE32(s) + [t] + [] == ToLE32(s) + [t];
  }

  lemma SessionIdRoundTrip(s: u32, oid: u8)
    requires oid == UCI_MSG_SESSION_DEINIT || oid == UCI_MSG_SESSION_GET_STATE
    ensures DecodeSession(oid, ToLE32(s)) ==
      Some(if oid == UCI_MSG_SESSION_DEINIT then SessionDeinit(s) else GetSessionStatus(s))
  {
    ReadFront32(s, []);
    assert ToLE32(s) + [] == ToLE32(s);
  }

  lemma AppConfigRoundTrip(s: u32, n: u8, d: seq<u8>, oid: u8)
    requires oid == UCI_MSG_SESSION_SET_APP_CONFIG || oid == UCI_MSG_SESSION_GET_APP_CONFIG
    ensures DecodeSession(oid, ToLE32(s) + [n] + d) ==
      Some(if oid == UCI_MSG_SESSION_SET_APP_CONFIG then AppSetConfig(s, n, d) else AppGetConfig(s, n, d))
  {
    ConfigFields(s, n, d);
  }

  lemma MulticastRoundTrip(s: u32, a: u8, l: seq<Controlee>)
    requires |l| < 0x100
    ensures DecodeSession(UCI_MSG_SESSION_UPDATE_CONTROLLER_MULTICAST_LIST, ToLE32(s) + [a, |l| as u8] + Entries(l)) ==
      Some(MulticastListUpdate(s, a, l))
  {
    MulticastFields(s, a, l);
  }

  lemma RangeRoundTrip(c: UciCommand)
    requires Valid(c) && Gid(c) == UCI_GID_RANGE_MANAGE
    ensures DecodeRange(Oid(c), Payload(c)) == Some(c)
  {
    if c.RangeIntervalUpdate? {
      ReadFront48(c.sessionId, c.interval, []);
    } else {
      ReadFront32(c.sessionId, []);
    }
  }

  lemma AppDataRoundTrip(c: UciCommand)
    requires Valid(c) && Gid(c) == UCI_GID_APP_DATA_MANAGE
    ensures DecodeAppData(Oid(c), Payload(c)) == Some(c)
  {
    match c {
      case AppDataSend(s, a, d) =>
        ReadFront48(s, a, d);
        assert (ToLE32(s) + ToLE16(a) + d)[6..] == d;
      case AppDataReceive(s, a) =>
        ReadFront48(s, a, []);
    }
  }

  lemma TestRoundTrip(c: UciCommand)
    requires Valid(c) && Gid(c) == UCI_GID_TEST
    ensures DecodeTest(Oid(c), Payload(c)) == Some(c)
  {
    match c {
      case TestSetConfig(s, n, d) => ConfigFields(s, n, d);
      case TestGetConfig(s, n, d) => ConfigFields(s, n, d);
      case _ =>
    }
  }

  /** Every command reads back from its own payload. */
  lemma PayloadRoundTrip(c: UciCommand)
    requires Valid(c)
    ensures DecodePayload(Frame(Gid(c), Oid(c), UsesExtendedLength(c), Payload(c))) == Some(c)
  {
    if Gid(c) == UCI_GID_CORE { CoreRoundTrip(c); }
    else if Gid(c) == UCI_GID_SESSION_MANAGE { SessionRoundTrip(c); }
    else if Gid(c) == UCI_GID_RANGE_MANAGE { RangeRoundTrip(c); }
    else if Gid(c) == UCI_GID_APP_DATA_MANAGE { AppDataRoundTrip(c); }
    else { TestRoundTrip(c); }
  }

  /** A composed command reads back as itself exactly when its payload
      length fits the header; a longer payload has its length byte cut to
      the low eight bits, and the packet no longer describes itself. */
  lemma EncodeRoundTrip(c: UciCommand)
    requires Valid(c)
    ensures Decode(Encode(c)) == Some(c) <==> Fits(c)
    ensures !Fits(c) ==> Encode(c)[3] as nat != |Encode(c)| - UCI_MSG_HDR_SIZE
  {
    var m := Encode(c);
    assert m[..UCI_MSG_HDR_SIZE] == Header(c);
    assert m[1] == Header(c)[1] && m[3] == Header(c)[3];
    if Fits(c) {
      FrameOfEncode(c);
      PayloadRoundTrip(c);
    }
  }

  // ---------------------------------------------------------------------
  // The capability command as written
  // ---------------------------------------------------------------------

  /** `uci_snd_core_get_device_capability` as written: after the two header
      bytes it writes the size constant once, into the reserved byte 2, but
      still sets the buffer length to four. Byte 3, the length byte, keeps
      whatever value `stale` the pool buffer held; pool buffers are not
      cleared when they are handed out. */
  function CapabilityAsWritten(stale: u8): (m: UciPacket)
  {
    [BuildHdr0(UCI_MT_CMD, UCI_GID_CORE), BuildHdr1(UCI_MSG_CORE_GET_CAPS_INFO),
     UCI_MSG_CORE_GET_CAPS_INFO_CMD_SIZE, stale]
  }

  /** The packet as written agrees with the intended one in its first three
      bytes, but unless the stale byte happens to be zero it announces a
      payload it does not carry and does not read back as a command. */
  lemma CapabilityLengthByteUnwritten(stale: u8)
    ensures CapabilityAsWritten(stale)[..3] == Encode(GetDeviceCapability)[..3]
    ensures Decode(CapabilityAsWritten(stale)) == Some(GetDeviceCapability) <==> stale == 0
    ensures Decode(Encode(GetDeviceCapability)) == Some(GetDeviceCapability)
  {
    EncodeRoundTrip(GetDeviceCapability);
    CapabilityEncoded();
  }

  /** Helper: the intended capability command is the as-written packet with
      a zero in its length byte. */
  lemma CapabilityEncoded()
    ensures Encode(GetDeviceCapability) == CapabilityAsWritten(0)
  {
    var h := Header(GetDeviceCapability);
    assert h == [BuildHdr0(UCI_MT_CMD, UCI_GID_CORE), BuildHdr1(UCI_MSG_CORE_GET_CAPS_INFO), 0, 0];
  }
}
