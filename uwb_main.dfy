// The UCI core control block (`uwb_cb`) and the entry points of the UCI core
// that set it up, flush its command queue and gate incoming data.
module UwbMain {
  import opened Bytes
  import opened UciDefs

  datatype UwbState = StateNone | W4HalOpen | StateIdle | StateActive | Closing | W4HalClose

  const UWB_STATUS_OK: u8 := 0x00
  const UWB_STATUS_REJECTED: u8 := 0x01
  const UWB_STATUS_FAILED: u8 := 0x02
  const UWB_STATUS_SYNTAX_ERROR: u8 := 0x03
  const UWB_STATUS_INVALID_PARAM: u8 := 0x04
  const UWB_STATUS_INVALID_RANGE: u8 := 0x05
  const UWB_STATUS_UNKNOWN_GID: u8 := 0x07
  const UWB_STATUS_UNKNOWN_OID: u8 := 0x08
  const UWB_STATUS_READ_ONLY: u8 := 0x09
  const UWB_STATUS_COMMAND_RETRY: u8 := 0x0A

  /** A UCI command buffer waiting to be sent; `rawCallback` marks a raw
      command whose response goes to the raw-command callback. */
  datatype UciCmd = UciCmd(bytes: UciPacket, rawCallback: bool)

  /** An event reported through the response callback. */
  datatype RespEvent = RespTimeout(status: u8)

  /** The status codes `UWB_GetStatusName` names. */
  const NamedStatuses: set<u8> :=
    {0x00, 0x01, 0x02, 0x03, 0x07, 0x08, 0x04, 0x05, 0x09, 0x0A,
     0x11, 0x12, 0x13, 0x14, 0x15, 0x16, 0x17, 0x18, 0x19,
     0x20, 0x21, 0x22, 0x23, 0x24, 0x25, 0x26, 0x27, 0x30, 0x31}

  /** `UWB_GetStatusName`: the printable name of a status code. */
  function GetStatusName(status: u8): (name: string)
    ensures name == "UNKNOWN" <==> status !in NamedStatuses
    ensures status == UWB_STATUS_OK ==> name == "OK"
    ensures status == UWB_STATUS_FAILED ==> name == "FAILED"
  {
    match status
    case 0x00 => "OK"
    case 0x01 => "REJECTED"
    case 0x02 => "FAILED"
    case 0x03 => "SYNTAX_ERROR"
    case 0x07 => "UNKNOWN_GID"
    case 0x08 => "UNKNOWN_OID"
    case 0x04 => "INVALID_PARAM"
    case 0x05 => "INVALID_RANGE"
    case 0x09 => "READ_ONLY"
    case 0x0A => "COMMAND_RETRY"
    case 0x11 => "SESSION_NOT_EXIST"
    case 0x12 => "SESSION_DUPLICATE"
    case 0x13 => "SESSION_IN_ACTIVE"
    case 0x14 => "MAX_SESSION_REACHED"
    case 0x15 => "SESSION_NOT_CONFIGURED"
    case 0x16 => "SESSIONS_ONGOING"
    case 0x17 => "SESSIONS_MULTICAST_LIST_FUL"
    case 0x18 => "SESSIONS_ADDRESS_NOT_FOUND"
    case 0x19 => "SESSION_ADDRESS_ALREADY_PRESENT"
    case 0x20 => "RANGING TX FAILED"
    case 0x21 => "RANGING RX TIMEOUT"
    case 0x22 => "PHYSICAL DECODING FAILED"
    case 0x23 => "PHYSICAL TOA FAILED"
    case 0x24 => "PHYSICAL STS FAILED"
    case 0x25 => "MAC DECODING FAILED"
    case 0x26 => "MAC INFORMATION DECODING FAILED"
    case 0x27 => "MAC INFORMATION MISSING"
    case 0x30 => "MAX_APDU_SIZE_EXCEEDED"
    case 0x31 => "DATA_RX_CRC_ERROR"
    case _ => "UNKNOWN"
  }

  /** `uwb_main_hal_data_cback`: the message posted to the UCI task for a
      chunk of data from the HAL. Data is dropped while the HAL is being
      opened or closed, when it is absent, or when no buffer is free. */
  function HalDataCallback(state: UwbState, data: Option<seq<u8>>, bufferFree: bool): (posted: Option<seq<u8>>)
    ensures posted.Some? <==> state != W4HalClose && state != W4HalOpen && data.Some? && bufferFree
    ensures posted.Some? ==> posted.value == data.value
  {
    if state == W4HalClose || state == W4HalOpen then None
    else if data.None? then None
    else if !bufferFree then None
    else Some(data.value)
  }

  /** The command-flow part of the control block: the command window, the
      response-pending flag, the retry count, the recovery flag, the transmit
      queue, the saved header and copy of the last command sent, the raw
      command flag, the buffers handed to the HAL in order, and the events
      reported through the response callback. */
  datatype CmdState = CmdState(
    window: nat, respPending: bool, retryCount: nat, recovering: bool,
    queue: seq<UciCmd>, lastHdr: seq<u8>, lastCmd: Option<seq<u8>>,
    rawCmdCbFlag: bool, halWrites: seq<seq<u8>>, events: seq<RespEvent>)

  /** What the command flow keeps true: the window never exceeds its maximum,
      a pending response means a command is out (the window is not full),
      commands wait in the queue only while the window is closed, and a saved
      header is two bytes. */
  predicate QueueInvariant(s: CmdState, maxCmdWindow: nat)
  {
    s.window <= maxCmdWindow &&
    (s.respPending ==> s.window < maxCmdWindow) &&
    (s.queue != [] ==> s.window == 0) &&
    |s.lastHdr| == 2
  }

  /** The state `uwb_main_flush_cmd_queue` leaves: a full window, nothing
      pending, no retry and an empty queue. */
  function FlushStep(s: CmdState, maxCmdWindow: nat): (r: CmdState)
    ensures r.window == maxCmdWindow && !r.respPending && r.retryCount == 0 && r.queue == []
    ensures r.halWrites == s.halWrites && r.events == s.events && r.recovering == s.recovering
  {
    s.(window := maxCmdWindow, respPending := false, retryCount := 0, queue := [])
  }

  /** A flush restores the invariant from any state with a two-byte saved
      header. */
  lemma FlushRestoresInvariant(s: CmdState, maxCmdWindow: nat)
    requires |s.lastHdr| == 2
    ensures QueueInvariant(FlushStep(s, maxCmdWindow), maxCmdWindow)
  {
  }

  /** The control block. The command window and retry limits are set when it
      is created. */
  class UwbCb {
    var state: UwbState
    var hasRespCallback: bool
    const maxCmdWindow: nat
    const maxRetryCount: nat
    var cmdWindow: nat
    var isRespPending: bool
    var cmdRetryCount: nat
    var isRecoveryInProgress: bool
    var xmitQueue: seq<UciCmd>
    /** The header of the command whose response is awaited. */
    var lastHdr: seq<u8>
    /** The copy of the last command kept for retransmission. */
    var lastCmd: Option<seq<u8>>
    var rawCmdCbFlag: bool
    var halWrites: seq<seq<u8>>
    var events: seq<RespEvent>

    function Cmd(): CmdState
      reads this
    {
      CmdState(cmdWindow, isRespPending, cmdRetryCount, isRecoveryInProgress,
               xmitQueue, lastHdr, lastCmd, rawCmdCbFlag, halWrites, events)
    }

    /** Replaces the command-flow fields by `s`. */
    method SetCmd(s: CmdState)
      modifies this
      ensures Cmd() == s
      ensures state == old(state) && hasRespCallback == old(hasRespCallback)
    {
      cmdWindow, isRespPending, cmdRetryCount, isRecoveryInProgress := s.window, s.respPending, s.retryCount, s.recovering;
      xmitQueue, lastHdr, lastCmd, rawCmdCbFlag := s.queue, s.lastHdr, s.lastCmd, s.rawCmdCbFlag;
      halWrites, events := s.halWrites, s.events;
    }

    ghost predicate Valid()
      reads this
    {
      QueueInvariant(Cmd(), maxCmdWindow)
    }

    /** `UWB_Init`: a cleared block in state NONE with a full command window,
        no response pending, no retry and no recovery in progress. */
    constructor Init(maxCmdWindow: nat, maxRetryCount: nat)
      ensures Valid()
      ensures state == StateNone && cmdWindow == maxCmdWindow && this.maxCmdWindow == maxCmdWindow
      ensures this.maxRetryCount == maxRetryCount
      ensures !isRespPending && cmdRetryCount == 0 && !isRecoveryInProgress
      ensures xmitQueue == [] && lastCmd.None? && !rawCmdCbFlag && !hasRespCallback
      ensures halWrites == [] && events == []
    {
      state := StateNone;
      this.maxCmdWindow, this.maxRetryCount := maxCmdWindow, maxRetryCount;
      cmdWindow := maxCmdWindow;
      isRespPending, cmdRetryCount, isRecoveryInProgress := false, 0, false;
      xmitQueue := [];
      lastHdr := [0, 0];
      lastCmd := None;
      rawCmdCbFlag, hasRespCallback := false, false;
      halWrites, events := [], [];
    }

    /** `uwb_main_flush_cmd_queue`: full window, nothing pending, no retry,
        and every queued command freed. */
    method FlushCmdQueue()
      requires |lastHdr| == 2
      modifies this`cmdWindow, this`isRespPending, this`cmdRetryCount, this`xmitQueue
      ensures Valid()
      ensures Cmd() == FlushStep(old(Cmd()), maxCmdWindow)
    {
      cmdWindow := maxCmdWindow;
      isRespPending := false;
      cmdRetryCount := 0;
      while xmitQueue != []
        invariant Cmd() == old(Cmd()).(window := maxCmdWindow, respPending := false, retryCount := 0, queue := xmitQueue)
        decreases |xmitQueue|
      {
        xmitQueue := xmitQueue[1..];
      }
      FlushRestoresInvariant(old(Cmd()), maxCmdWindow);
    }

    /** `UWB_Enable`: a missing response callback is an invalid parameter and
        changes nothing; otherwise the HAL is being opened. */
    method Enable(hasCallback: bool) returns (status: u8)
      modifies this`state, this`hasRespCallback
      ensures !hasCallback ==> status == UWB_STATUS_INVALID_PARAM && state == old(state) &&
                               hasRespCallback == old(hasRespCallback)
      ensures hasCallback ==> status == UWB_STATUS_OK && state == W4HalOpen && hasRespCallback
    {
      if !hasCallback {
        return UWB_STATUS_INVALID_PARAM;
      }
      state := W4HalOpen;
      hasRespCallback := true;
      status := UWB_STATUS_OK;
    }
  }
}
