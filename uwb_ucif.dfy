// The UCI interface of the UCI core: the command window and transmit queue,
// command timeouts and recovery, reassembly of chained packets, and the
// routing of each received packet.
module UwbUcif {
  import opened Bytes
  import opened UciDefs
  import opened UwbMain

  // ---------------------------------------------------------------------
  // Command window and transmit queue
  // ---------------------------------------------------------------------

  /** The command handed to the HAL: its header is saved to match the
      response, a copy is kept for retransmission, a raw command raises the
      raw-callback flag, the window shrinks by one and a response is pending
      with no retry yet. */
  function Send(s: CmdState, c: UciCmd): (r: CmdState)
    requires s.window > 0
  {
    s.(lastHdr := c.bytes[..2], lastCmd := Some(c.bytes),
       rawCmdCbFlag := s.rawCmdCbFlag || c.rawCallback,
       window := s.window - 1, respPending := true, retryCount := 0,
       halWrites := s.halWrites + [c.bytes])
  }

  function OptSeq(p: Option<UciCmd>): seq<UciCmd>
  {
    if p.Some? then [p.value] else []
  }

  /** `uwb_ucif_check_cmd_queue`, stated first-in first-out: the offered
      command goes behind those already waiting; while the window is closed
      nothing is sent, and otherwise the oldest waiting command is sent. */
  function CheckCmdQueueStep(s: CmdState, p: Option<UciCmd>): (r: CmdState)
    ensures s.window == 0 ==> r == s.(queue := s.queue + OptSeq(p))
    ensures s.window > 0 && s.queue + OptSeq(p) != [] ==>
      var all := s.queue + OptSeq(p);
      r == Send(s.(queue := all[1..]), all[0])
    ensures s.window > 0 && s.queue + OptSeq(p) == [] ==> r == s
  {
    var all := s.queue + OptSeq(p);
    if s.window == 0 then s.(queue := all)
    else if all == [] then s
    else Send(s.(queue := all[1..]), all[0])
  }

  /** `uwb_ucif_check_cmd_queue`. */
  method CheckCmdQueue(cb: UwbCb, p: Option<UciCmd>)
    modifies cb
    ensures cb.Cmd() == CheckCmdQueueStep(old(cb.Cmd()), p)
    ensures cb.state == old(cb.state) && cb.hasRespCallback == old(cb.hasRespCallback)
  {
    ghost var s := cb.Cmd();
    ghost var all := s.queue + OptSeq(p);
    var buf := p;
    if buf.Some? {
      if |cb.xmitQueue| > 0 || cb.cmdWindow == 0 {
        cb.xmitQueue := cb.xmitQueue + [buf.value];
        buf := None;
      }
    }
    assert buf.None? ==> cb.xmitQueue == all;
    assert buf.Some? ==> cb.xmitQueue == [] && all == [buf.value];
    if cb.cmdWindow > 0 {
      if buf.None? && cb.xmitQueue != [] {
        buf := Some(cb.xmitQueue[0]);
        cb.xmitQueue := cb.xmitQueue[1..];
      }
      assert buf.Some? <==> all != [];
      assert buf.Some? ==> buf.value == all[0] && cb.xmitQueue == all[1..];
      if buf.Some? {
        HandToHal(cb, buf.value);
      }
    }
  }

  /** The sending half of `uwb_ucif_check_cmd_queue`: the header and a copy
      of the command are kept, the window shrinks and the HAL gets it. */
  method HandToHal(cb: UwbCb, c: UciCmd)
    requires cb.cmdWindow > 0
    modifies cb
    ensures cb.Cmd() == Send(old(cb.Cmd()), c)
    ensures cb.state == old(cb.state) && cb.hasRespCallback == old(cb.hasRespCallback)
  {
    cb.lastHdr := c.bytes[..2];
    cb.lastCmd := Some(c.bytes);
    if c.rawCallback {
      cb.rawCmdCbFlag := true;
    }
    cb.cmdWindow := cb.cmdWindow - 1;
    cb.isRespPending := true;
    cb.cmdRetryCount := 0;
    cb.halWrites := cb.halWrites + [c.bytes];
  }

  /** `uwb_ucif_send_cmd`: a missing buffer is ignored; a command sent this
      way is never a raw one. */
  method SendCmd(cb: UwbCb, cmd: Option<UciPacket>)
    modifies cb
    ensures cmd.None? ==> cb.Cmd() == old(cb.Cmd())
    ensures cmd.Some? ==> cb.Cmd() == CheckCmdQueueStep(old(cb.Cmd()), Some(UciCmd(cmd.value, false)))
    ensures cb.state == old(cb.state) && cb.hasRespCallback == old(cb.hasRespCallback)
  {
    if cmd.None? {
      return;
    }
    CheckCmdQueue(cb, Some(UciCmd(cmd.value, false)));
  }

  /** `uwb_ucif_update_cmd_window`: nothing when the window is already full;
      otherwise the window opens by one, nothing is pending, the retry count
      is cleared, and the next waiting command (if any) goes out. */
  function UpdateCmdWindowStep(s: CmdState, maxCmdWindow: nat): (r: CmdState)
  {
    if s.window == maxCmdWindow then s
    else CheckCmdQueueStep(s.(window := s.window + 1, respPending := false, retryCount := 0), None)
  }

  /** `uwb_ucif_update_cmd_window`. */
  method UpdateCmdWindow(cb: UwbCb)
    modifies cb
    ensures cb.Cmd() == UpdateCmdWindowStep(old(cb.Cmd()), cb.maxCmdWindow)
    ensures cb.state == old(cb.state) && cb.hasRespCallback == old(cb.hasRespCallback)
  {
    if cb.cmdWindow == cb.maxCmdWindow {
      return;
    }
    cb.cmdWindow := cb.cmdWindow + 1;
    cb.isRespPending := false;
    cb.cmdRetryCount := 0;
    CheckCmdQueue(cb, None);
  }

  /** `uwb_ucif_uwb_recovery`: ignored while a recovery is in progress;
      otherwise the command queue is flushed, and no recovery is in progress
      afterwards. */
  function RecoveryStep(s: CmdState, maxCmdWindow: nat): (r: CmdState)
  {
    if s.recovering then s
    else FlushStep(s.(retryCount := 0, respPending := false, recovering := true), maxCmdWindow).(recovering := false)
  }

  /** `uwb_ucif_uwb_recovery`. */
  method Recovery(cb: UwbCb)
    requires |cb.lastHdr| == 2
    modifies cb
    ensures cb.Cmd() == RecoveryStep(old(cb.Cmd()), cb.maxCmdWindow)
    ensures cb.state == old(cb.state) && cb.hasRespCallback == old(cb.hasRespCallback)
  {
    if cb.isRecoveryInProgress {
      return;
    }
    cb.cmdRetryCount := 0;
    cb.isRespPending := false;
    cb.isRecoveryInProgress := true;
    cb.FlushCmdQueue();
    cb.isRecoveryInProgress := false;
  }

  /** `uwb_ucif_cmd_timeout`: while a response is pending and the retry
      limit is not reached, the saved copy of the last command is written
      again and the retry count goes up; otherwise a failed response-timeout
      event is reported (when there is a callback) and recovery runs. */
  function CmdTimeoutStep(s: CmdState, maxCmdWindow: nat, maxRetryCount: nat, hasCallback: bool): (r: CmdState)
  {
    if s.respPending && s.retryCount < maxRetryCount then
      s.(halWrites := s.halWrites + (if s.lastCmd.Some? then [s.lastCmd.value] else []),
         retryCount := s.retryCount + 1)
    else
      RecoveryStep(s.(events := s.events + (if hasCallback then [RespTimeout(UWB_STATUS_FAILED)] else [])),
                   maxCmdWindow)
  }

  /** `uwb_ucif_cmd_timeout`. */
  method CmdTimeout(cb: UwbCb)
    requires |cb.lastHdr| == 2
    modifies cb
    ensures cb.Cmd() == CmdTimeoutStep(old(cb.Cmd()), cb.maxCmdWindow, cb.maxRetryCount, old(cb.hasRespCallback))
    ensures cb.state == old(cb.state) && cb.hasRespCallback == old(cb.hasRespCallback)
  {
    if cb.isRespPending && cb.cmdRetryCount < cb.maxRetryCount {
      if cb.lastCmd.Some? {
        cb.halWrites := cb.halWrites + [cb.lastCmd.value];
      }
      cb.cmdRetryCount := cb.cmdRetryCount + 1;
    } else {
      if cb.hasRespCallback {
        cb.events := cb.events + [RespTimeout(UWB_STATUS_FAILED)];
      }
      Recovery(cb);
    }
  }

  // Properties of the command flow

  /** Every step of the command flow keeps the queue invariant. */
  lemma CheckCmdQueueKeepsInvariant(s: CmdState, p: Option<UciCmd>, maxCmdWindow: nat)
    requires QueueInvariant(s, maxCmdWindow)
    ensures QueueInvariant(CheckCmdQueueStep(s, p), maxCmdWindow)
  {
    if s.window > 0 {
      assert s.queue == [];
    }
  }

  lemma UpdateCmdWindowKeepsInvariant(s: CmdState, maxCmdWindow: nat)
    requires QueueInvariant(s, maxCmdWindow)
    ensures QueueInvariant(UpdateCmdWindowStep(s, maxCmdWindow), maxCmdWindow)
  {
    if s.window != maxCmdWindow {
      var t := s.(window := s.window + 1, respPending := false, retryCount := 0);
      if t.queue != [] {
        assert t.window == 1;
        var r := CheckCmdQueueStep(t, None);
        assert r.window == 0;
      }
    }
  }

  lemma CmdTimeoutKeepsInvariant(s: CmdState, maxCmdWindow: nat, maxRetryCount: nat, hasCallback: bool)
    requires QueueInvariant(s, maxCmdWindow)
    ensures QueueInvariant(CmdTimeoutStep(s, maxCmdWindow, maxRetryCount, hasCallback), maxCmdWindow)
  {
  }

  /** A response while the window is full changes nothing. */
  lemma UpdateAtFullWindowIsNoOp(s: CmdState, maxCmdWindow: nat)
    requires s.window == maxCmdWindow
    ensures UpdateCmdWindowStep(s, maxCmdWindow) == s
  {
  }

  /** A command offered while the window is open and nothing waits is sent at
      once, and the window shrinks by one. */
  lemma OpenWindowSendsAtOnce(s: CmdState, c: UciCmd, maxCmdWindow: nat)
    requires QueueInvariant(s, maxCmdWindow) && s.window > 0
    ensures var r := CheckCmdQueueStep(s, Some(c));
      r.halWrites == s.halWrites + [c.bytes] && r.queue == [] && r.window == s.window - 1 &&
      r.respPending && r.lastHdr == c.bytes[..2]
  {
    assert s.queue == [];
    assert s.queue + OptSeq(Some(c)) == [c];
  }

  function CmdBytes(cs: seq<UciCmd>): seq<seq<u8>>
  {
    if cs == [] then [] else [cs[0].bytes] + CmdBytes(cs[1..])
  }

  function Responses(s: CmdState, k: nat): CmdState
    decreases k
  {
    if k == 0 then s else Responses(UpdateCmdWindowStep(s, 1), k - 1)
  }

  /** With a window of one, each matching response releases the oldest
      waiting command: after k responses the first k waiting commands have
      been handed to the HAL in queue order. */
  lemma {:induction false} ResponsesSendInOrder(s: CmdState, k: nat)
    requires QueueInvariant(s, 1) && s.window == 0 && k <= |s.queue|
    ensures Responses(s, k).halWrites == s.halWrites + CmdBytes(s.queue[..k])
    ensures Responses(s, k).queue == s.queue[k..]
    ensures k < |s.queue| ==> Responses(s, k).window == 0
    decreases k
  {
    if k == 0 {
      assert s.queue[..0] == [];
    } else {
      var t := UpdateCmdWindowStep(s, 1);
      OneResponse(s);
      ResponsesSendInOrder(t, k - 1);
      assert s.queue[..k] == [s.queue[0]] + t.queue[..k - 1];
      BytesAppend([s.queue[0]], t.queue[..k - 1]);
      assert CmdBytes([s.queue[0]]) == [s.queue[0].bytes];
      assert t.queue[k - 1..] == s.queue[k..];
    }
  }

  /** One matching response with a window of one sends the oldest waiting
      command and closes the window again. */
  lemma OneResponse(s: CmdState)
    requires QueueInvariant(s, 1) && s.window == 0 && s.queue != []
    ensures var t := UpdateCmdWindowStep(s, 1);
            QueueInvariant(t, 1) && t.window == 0 && t.queue == s.queue[1..] &&
            t.halWrites == s.halWrites + [s.queue[0].bytes]
  {
    var t := UpdateCmdWindowStep(s, 1);
    var u := s.(window := 1, respPending := false, retryCount := 0);
    assert u.queue + OptSeq(None) == s.queue;
    assert t == Send(u.(queue := s.queue[1..]), s.queue[0]);
    UpdateCmdWindowKeepsInvariant(s, 1);
  }

  lemma {:induction false} BytesAppend(a: seq<UciCmd>, b: seq<UciCmd>)
    ensures CmdBytes(a + b) == CmdBytes(a) + CmdBytes(b)
    decreases |a|
  {
    if a == [] {
      assert a + b == b;
    } else {
      assert (a + b)[1..] == a[1..] + b;
      BytesAppend(a[1..], b);
    }
  }

  function Timeouts(s: CmdState, k: nat, maxCmdWindow: nat, maxRetryCount: nat, hasCallback: bool): CmdState
    decreases k
  {
    if k == 0 then s else Timeouts(CmdTimeoutStep(s, maxCmdWindow, maxRetryCount, hasCallback), k - 1, maxCmdWindow, maxRetryCount, hasCallback)
  }

  /** A command that never gets a response is retransmitted exactly
      `maxRetryCount` times; the next timeout reports a failure and recovery
      leaves a flushed queue and a full window. */
  lemma {:induction false} RetriesThenRecovers(s: CmdState, maxCmdWindow: nat, maxRetryCount: nat, hasCallback: bool)
    requires s.respPending && s.retryCount == 0 && s.lastCmd.Some? && !s.recovering
    ensures var t := Timeouts(s, maxRetryCount, maxCmdWindow, maxRetryCount, hasCallback);
      t.halWrites == s.halWrites + seq(maxRetryCount, _ => s.lastCmd.value) &&
      t.retryCount == maxRetryCount && t.respPending
    ensures var t := Timeouts(s, maxRetryCount + 1, maxCmdWindow, maxRetryCount, hasCallback);
      t.window == maxCmdWindow && !t.respPending && t.queue == [] && t.retryCount == 0 &&
      t.events == s.events + (if hasCallback then [RespTimeout(UWB_STATUS_FAILED)] else [])
  {
    RetriesAccumulate(s, maxRetryCount, maxCmdWindow, maxRetryCount, hasCallback);
    var t := Timeouts(s, maxRetryCount, maxCmdWindow, maxRetryCount, hasCallback);
    TimeoutsSplit(s, maxRetryCount, maxCmdWindow, maxRetryCount, hasCallback);
    assert Timeouts(t, 1, maxCmdWindow, maxRetryCount, hasCallback) == CmdTimeoutStep(t, maxCmdWindow, maxRetryCount, hasCallback);
  }

  lemma {:induction false} RetriesAccumulate(s: CmdState, k: nat, maxCmdWindow: nat, maxRetryCount: nat, hasCallback: bool)
    requires s.respPending && s.lastCmd.Some? && !s.recovering && s.retryCount + k <= maxRetryCount
    ensures var t := Timeouts(s, k, maxCmdWindow, maxRetryCount, hasCallback);
      t.halWrites == s.halWrites + seq(k, _ => s.lastCmd.value) &&
      t.retryCount == s.retryCount + k && t.respPending && t.lastCmd == s.lastCmd && !t.recovering &&
      t.events == s.events && t.window == s.window
    decreases k
  {
    if k > 0 {
      var u := CmdTimeoutStep(s, maxCmdWindow, maxRetryCount, hasCallback);
      RetriesAccumulate(u, k - 1, maxCmdWindow, maxRetryCount, hasCallback);
      assert [s.lastCmd.value] + seq(k - 1, _ => s.lastCmd.value) == seq(k, _ => s.lastCmd.value);
    } else {
      assert seq(0, _ => s.lastCmd.value) == [];
    }
  }

  lemma {:induction false} TimeoutsSplit(s: CmdState, k: nat, maxCmdWindow: nat, maxRetryCount: nat, hasCallback: bool)
    ensures Timeouts(s, k + 1, maxCmdWindow, maxRetryCount, hasCallback) ==
            Timeouts(Timeouts(s, k, maxCmdWindow, maxRetryCount, hasCallback), 1, maxCmdWindow, maxRetryCount, hasCallback)
    decreases k
  {
    if k > 0 {
      TimeoutsSplit(CmdTimeoutStep(s, maxCmdWindow, maxRetryCount, hasCallback), k - 1, maxCmdWindow, maxRetryCount, hasCallback);
    }
  }

  // ---------------------------------------------------------------------
  // Chained packets
  // ---------------------------------------------------------------------

  /** A received packet that carries the whole payload its header announces. */
  predicate WellFormed(msg: UciPacket)
  {
    |msg| >= UCI_MSG_HDR_SIZE + PayloadLength(msg)
  }

  function Payload(msg: UciPacket): (r: seq<u8>)
    requires WellFormed(msg)
    ensures |r| == PayloadLength(msg)
  {
    msg[UCI_MSG_HDR_SIZE..UCI_MSG_HDR_SIZE + PayloadLength(msg)]
  }

  /** The static chained packet: the bytes gathered so far (their count is
      the offset), the group and opcode of the chain, and whether its first
      fragment has arrived. */
  datatype ChainState = ChainState(buffer: seq<u8>, gid: u8, oid: u8, firstFragmentDone: bool)

  predicate ChainValid(c: ChainState)
  {
    (c.firstFragmentDone ==> |c.buffer| >= UCI_MSG_HDR_SIZE) &&
    (!c.firstFragmentDone ==> c.buffer == [])
  }

  /** A packet ready for routing and the payload the handlers are given. */
  datatype Assembled = Assembled(packet: UciPacket, payload: seq<u8>)

  /** A reassembled packet: its length bytes 2 and 3 hold the total payload
      length, little-endian, truncated to 16 bits. */
  function WithTotalLength(buf: UciPacket): (r: UciPacket)
    ensures |r| == |buf| && r[..2] == buf[..2] && r[4..] == buf[4..]
    ensures LE16(r[2], r[3]) == (|buf| - UCI_MSG_HDR_SIZE) % 0x1_0000
  {
    buf[..2] + ToLE16((|buf| - UCI_MSG_HDR_SIZE) % 0x1_0000) + buf[4..]
  }

  /** The chaining part of `uwb_ucif_process_event`. A fragment with the
      boundary flag set is stored and nothing is routed: the first one whole,
      later ones of the same group and opcode by their payload only, others
      are ignored. A packet without the flag that ends the current chain is
      appended by its payload; the result, with its total length written
      into bytes 2 and 3, is routed and the chain is reset. Any other packet
      is routed as it is. */
  function ChainStep(c: ChainState, msg: UciPacket): (r: (ChainState, Option<Assembled>))
    requires ChainValid(c) && WellFormed(msg)
    ensures ChainValid(r.0)
    ensures ParseHdr0(msg[0]).pbf == 1 <==> r.1.None?
    ensures ParseHdr0(msg[0]).pbf == 1 && !c.firstFragmentDone ==>
      r.0 == ChainState(msg, ParseHdr0(msg[0]).gid, ParseHdr1(msg[1]), true)
    ensures r.1.Some? && c.firstFragmentDone && c.gid == ParseHdr0(msg[0]).gid && c.oid == ParseHdr1(msg[1]) ==>
      r.0 == ChainState([], 0xFF, 0xFF, false) && |r.1.value.packet| == |c.buffer| + PayloadLength(msg)
    ensures r.1.Some? && !(c.firstFragmentDone && c.gid == ParseHdr0(msg[0]).gid && c.oid == ParseHdr1(msg[1])) ==>
      r == (c, Some(Assembled(msg, Payload(msg))))
  {
    var h := ParseHdr0(msg[0]);
    var oid := ParseHdr1(msg[1]);
    if h.pbf == 1 then
      if !c.firstFragmentDone then (ChainState(msg, h.gid, oid, true), None)
      else if c.oid == oid && c.gid == h.gid then (c.(buffer := c.buffer + Payload(msg)), None)
      else (c, None)
    else if c.firstFragmentDone && c.oid == oid && c.gid == h.gid then
      var full: UciPacket := c.buffer + Payload(msg);
      var packet := WithTotalLength(full);
      (ChainState([], 0xFF, 0xFF, false), Some(Assembled(packet, packet[UCI_MSG_HDR_SIZE..])))
    else (c, Some(Assembled(msg, Payload(msg))))
  }

  /** Size of the static `chained_uci_packet` buffer. */
  const CHAINED_BUFFER_SIZE: nat := 1024

  /** The chain's bytes fit the static buffer: every copy so far stayed
      inside it. */
  predicate ChainInBounds(c: ChainState)
  {
    |c.buffer| <= CHAINED_BUFFER_SIZE
  }

  /** Nothing bounds a fragment copied into the chain: a first fragment
      stays inside the buffer exactly when it is at most 1024 bytes, and a
      later fragment of the same chain exactly when its payload still fits
      after the bytes gathered; any other copy runs past the buffer. */
  lemma ChainBound(c: ChainState, msg: UciPacket)
    requires ChainValid(c) && WellFormed(msg) && ParseHdr0(msg[0]).pbf == 1
    ensures !c.firstFragmentDone ==> (ChainInBounds(ChainStep(c, msg).0) <==> |msg| <= CHAINED_BUFFER_SIZE)
    ensures c.firstFragmentDone && c.gid == ParseHdr0(msg[0]).gid && c.oid == ParseHdr1(msg[1]) ==>
      (ChainInBounds(ChainStep(c, msg).0) <==> |c.buffer| + PayloadLength(msg) <= CHAINED_BUFFER_SIZE)
  {
  }

  /** The static chained packet as the UCI task keeps it. */
  class ChainedPacket {
    var buffer: seq<u8>
    var gid: u8
    var oid: u8
    var firstFragmentDone: bool

    function State(): ChainState
      reads this
    {
      ChainState(buffer, gid, oid, firstFragmentDone)
    }

    ghost predicate Valid()
      reads this
    {
      ChainValid(State())
    }

    /** Static storage starts zeroed: no bytes and no first fragment. */
    constructor ()
      ensures Valid() && State() == ChainState([], 0, 0, false)
    {
      buffer, gid, oid, firstFragmentDone := [], 0, 0, false;
    }

    /** The chaining part of `uwb_ucif_process_event`. */
    method Process(msg: UciPacket) returns (assembled: Option<Assembled>)
      requires Valid() && WellFormed(msg)
      modifies this
      ensures Valid()
      ensures (State(), assembled) == ChainStep(old(State()), msg)
    {
      var h := ParseHdr0(msg[0]);
      var msgOid := ParseHdr1(msg[1]);
      if h.pbf == 1 {
        if !firstFragmentDone {
          oid, gid := msgOid, h.gid;
          buffer := msg;
          firstFragmentDone := true;
        } else if oid == msgOid && gid == h.gid {
          buffer := buffer + Payload(msg);
        }
        return None;
      }
      assembled := Some(Assembled(msg, Payload(msg)));
      if firstFragmentDone && oid == msgOid && gid == h.gid {
        var full: UciPacket := buffer + Payload(msg);
        var packet := WithTotalLength(full);
        assembled := Some(Assembled(packet, packet[UCI_MSG_HDR_SIZE..]));
        buffer := [];
        firstFragmentDone := false;
        oid, gid := 0xFF, 0xFF;
      }
    }
  }

  /** A fragment that continues the chain of `gid` and `oid`. */
  predicate Continues(m: UciPacket, gid: u8, oid: u8)
  {
    WellFormed(m) && ParseHdr0(m[0]).pbf == 1 && ParseHdr0(m[0]).gid == gid && ParseHdr1(m[1]) == oid
  }

  /** A packet that ends the chain of `gid` and `oid`. */
  predicate Ends(m: UciPacket, gid: u8, oid: u8)
  {
    WellFormed(m) && ParseHdr0(m[0]).pbf == 0 && ParseHdr0(m[0]).gid == gid && ParseHdr1(m[1]) == oid
  }

  function Payloads(ms: seq<UciPacket>): seq<u8>
    requires forall i | 0 <= i < |ms| :: WellFormed(ms[i])
  {
    if ms == [] then [] else Payload(ms[0]) + Payloads(ms[1..])
  }

  /** Feeds packets to the chain one after the other and collects what is
      routed. */
  function RunChain(c: ChainState, msgs: seq<UciPacket>): (ChainState, seq<Assembled>)
    requires ChainValid(c) && forall i | 0 <= i < |msgs| :: WellFormed(msgs[i])
    decreases |msgs|
  {
    if msgs == [] then (c, [])
    else
      var step := ChainStep(c, msgs[0]);
      var rest := RunChain(step.0, msgs[1..]);
      (rest.0, (if step.1.Some? then [step.1.value] else []) + rest.1)
  }

  /** A continuation fragment of the current chain appends its payload. */
  lemma ContinueStep(c: ChainState, m: UciPacket)
    requires ChainValid(c) && c.firstFragmentDone && Continues(m, c.gid, c.oid)
    ensures ChainStep(c, m) == (c.(buffer := c.buffer + Payload(m)), None)
  {
  }

  /** The fragment that ends the current chain routes the gathered packet. */
  lemma EndStep(c: ChainState, m: UciPacket)
    requires ChainValid(c) && c.firstFragmentDone && Ends(m, c.gid, c.oid)
    ensures var full: UciPacket := c.buffer + Payload(m);
      ChainStep(c, m) == (ChainState([], 0xFF, 0xFF, false), Some(Assembled(WithTotalLength(full), WithTotalLength(full)[UCI_MSG_HDR_SIZE..])))
  {
  }

  /** A step that routes nothing leaves the rest of the run to the new
      chain state. */
  lemma RunChainQuietStep(c: ChainState, msgs: seq<UciPacket>)
    requires ChainValid(c) && forall i | 0 <= i < |msgs| :: WellFormed(msgs[i])
    requires msgs != [] && ChainStep(c, msgs[0]).1.None?
    ensures RunChain(c, msgs).0 == RunChain(ChainStep(c, msgs[0]).0, msgs[1..]).0
    ensures RunChain(c, msgs).1 == RunChain(ChainStep(c, msgs[0]).0, msgs[1..]).1
  {
  }

  /** The fragment that ends a chain, fed alone, routes the gathered
      packet. */
  lemma RunChainEnd(c: ChainState, last: UciPacket)
    requires ChainValid(c) && c.firstFragmentDone && Ends(last, c.gid, c.oid)
    ensures RunChain(c, [last]).0 == ChainState([], 0xFF, 0xFF, false)
    ensures var full: UciPacket := c.buffer + Payload(last);
      RunChain(c, [last]).1 == [Assembled(WithTotalLength(full), WithTotalLength(full)[UCI_MSG_HDR_SIZE..])]
  {
    EndStep(c, last);
    assert [last][1..] == [];
    var a := ChainStep(c, last).1.value;
    assert [a] + [] == [a];
  }

  /** Once a chain has started, continuation fragments and the fragment that
      ends it route exactly one packet: the gathered bytes followed by every
      later payload in order, with the total length in bytes 2 and 3; the
      chain is then reset. */
  lemma {:induction false} ChainCompletes(c: ChainState, ms: seq<UciPacket>, last: UciPacket)
    requires ChainValid(c) && c.firstFragmentDone
    requires forall i | 0 <= i < |ms| :: WellFormed(ms[i])
    requires forall i | 0 <= i < |ms| :: Continues(ms[i], c.gid, c.oid)
    requires Ends(last, c.gid, c.oid)
    ensures RunChain(c, ms + [last]).0 == ChainState([], 0xFF, 0xFF, false)
    ensures var full: UciPacket := c.buffer + Payloads(ms) + Payload(last);
      RunChain(c, ms + [last]).1 == [Assembled(WithTotalLength(full), WithTotalLength(full)[UCI_MSG_HDR_SIZE..])]
    decreases |ms|
  {
    if ms == [] {
      assert ms + [last] == [last];
      assert c.buffer + Payloads(ms) + Payload(last) == c.buffer + Payload(last);
      RunChainEnd(c, last);
    } else {
      var c1 := ChainContinues(c, ms, last);
      ChainCompletes(c1, ms[1..], last);
    }
  }

  /** The first continuation fragment of a run appends its payload, and the
      rest of the run goes on from there. */
  lemma ChainContinues(c: ChainState, ms: seq<UciPacket>, last: UciPacket) returns (c1: ChainState)
    requires ChainValid(c) && c.firstFragmentDone && ms != []
    requires forall i | 0 <= i < |ms| :: WellFormed(ms[i])
    requires Continues(ms[0], c.gid, c.oid) && WellFormed(last)
    ensures ChainValid(c1) && c1.firstFragmentDone && c1.gid == c.gid && c1.oid == c.oid
    ensures RunChain(c, ms + [last]) == RunChain(c1, ms[1..] + [last])
    ensures c1.buffer + Payloads(ms[1..]) + Payload(last) == c.buffer + Payloads(ms) + Payload(last)
  {
    var msgs := ms + [last];
    c1 := c.(buffer := c.buffer + Payload(ms[0]));
    assert msgs[0] == ms[0] && msgs[1..] == ms[1..] + [last];
    ContinueStep(c, ms[0]);
    RunChainQuietStep(c, msgs);
    PayloadsCons(ms);
  }

  lemma PayloadsCons(ms: seq<UciPacket>)
    requires ms != [] && forall i | 0 <= i < |ms| :: WellFormed(ms[i])
    ensures Payloads(ms) == Payload(ms[0]) + Payloads(ms[1..])
  {
  }

  /** A chain started by a first fragment and ended by a final one, all of
      the same group and opcode, routes the first fragment's bytes followed
      by every later payload, as one packet. */
  lemma ChainReassembles(c: ChainState, first: UciPacket, ms: seq<UciPacket>, last: UciPacket)
    requires ChainValid(c) && !c.firstFragmentDone && WellFormed(first) && ParseHdr0(first[0]).pbf == 1
    requires forall i | 0 <= i < |ms| :: WellFormed(ms[i])
    requires forall i | 0 <= i < |ms| :: Continues(ms[i], ParseHdr0(first[0]).gid, ParseHdr1(first[1]))
    requires Ends(last, ParseHdr0(first[0]).gid, ParseHdr1(first[1]))
    ensures RunChain(c, [first] + ms + [last]).0 == ChainState([], 0xFF, 0xFF, false)
    ensures var full: UciPacket := first + Payloads(ms) + Payload(last);
      RunChain(c, [first] + ms + [last]).1 == [Assembled(WithTotalLength(full), WithTotalLength(full)[UCI_MSG_HDR_SIZE..])]
  {
    var msgs := [first] + ms + [last];
    var c1 := ChainState(first, ParseHdr0(first[0]).gid, ParseHdr1(first[1]), true);
    assert msgs[0] == first;
    assert ChainStep(c, first) == (c1, None);
    assert msgs[1..] == ms + [last];
    RunChainQuietStep(c, msgs);
    ChainCompletes(c1, ms, last);
  }

  // ---------------------------------------------------------------------
  // Routing a received packet
  // ---------------------------------------------------------------------

  /** What `uwb_ucif_process_event` does with a packet. */
  datatype Outcome =
    | FragmentStored
    | RawResponse(packet: seq<u8>)
    | UnexpectedResponse(gid: u8, oid: u8)
    | Response(gid: u8, oid: u8, payload: seq<u8>)
    | Notification(gid: u8, oid: u8, payload: seq<u8>)
    | ProprietaryNotification(oid: u8, packet: seq<u8>)
    | UnknownType(mt: u8)

  /** Whether a response's group and opcode are those of the saved command
      header. */
  predicate ResponseMatches(lastHdr: seq<u8>, gid: u8, oid: u8)
    requires |lastHdr| == 2
  {
    ParseHdr0(lastHdr[0]).gid == gid && ParseHdr1(lastHdr[1]) == oid
  }

  /** The raw-response path as written: the raw callback is given the
      routed packet but only as many bytes as the last fragment received,
      and after the raw handler has updated the command window (which may
      send a queued raw command and raise the flag again) the flag is
      cleared once more. */
  function RawResponseStepAsWritten(s: CmdState, a: Assembled, msg: UciPacket, maxCmdWindow: nat): (r: (CmdState, Outcome))
  {
    var delivered := if |msg| <= |a.packet| then a.packet[..|msg|] else a.packet;
    (UpdateCmdWindowStep(s.(rawCmdCbFlag := false), maxCmdWindow).(rawCmdCbFlag := false), RawResponse(delivered))
  }

  /** The raw-response path: the raw callback is given the whole routed
      packet, the flag is cleared and the command window is updated, so a
      raw command sent by that update keeps its flag. */
  function RawResponseStep(s: CmdState, a: Assembled, maxCmdWindow: nat): (r: (CmdState, Outcome))
    ensures r.1 == RawResponse(a.packet)
    ensures s.window == maxCmdWindow ==> r.0 == s.(rawCmdCbFlag := false)
    ensures s.window < maxCmdWindow ==>
      (r.0.rawCmdCbFlag <==> s.queue != [] && s.queue[0].rawCallback)
  {
    (UpdateCmdWindowStep(s.(rawCmdCbFlag := false), maxCmdWindow), RawResponse(a.packet))
  }

  const RawFirstFragment: UciPacket := [0x5E, 0x01, 0x00, 0x01, 0xAA]
  const RawLastFragment: UciPacket := [0x4E, 0x01, 0x00, 0x01, 0xBB]

  /** A raw command's response split over two fragments: the first carries
      0xAA, the last 0xBB. As written the raw callback gets five of the six
      reassembled bytes, losing the last payload byte; the model gives all
      six. */
  lemma RawChainedResponseTruncated(s: CmdState, maxCmdWindow: nat)
    ensures WellFormed(RawFirstFragment) && WellFormed(RawLastFragment)
    ensures var c1 := ChainStep(ChainState([], 0, 0, false), RawFirstFragment).0;
      var routed := ChainStep(c1, RawLastFragment).1;
      routed == Some(Assembled([0x5E, 0x01, 0x02, 0x00, 0xAA, 0xBB], [0xAA, 0xBB])) &&
      RawResponseStepAsWritten(s, routed.value, RawLastFragment, maxCmdWindow).1 ==
        RawResponse([0x5E, 0x01, 0x02, 0x00, 0xAA]) &&
      RawResponseStep(s, routed.value, maxCmdWindow).1 ==
        RawResponse([0x5E, 0x01, 0x02, 0x00, 0xAA, 0xBB])
  {
    var first, last := RawFirstFragment, RawLastFragment;
    assert PayloadLength(first) == 1 && PayloadLength(last) == 1;
    assert ParseHdr0(first[0]) == Hdr0(2, 1, 14);
    assert ParseHdr0(last[0]) == Hdr0(2, 0, 14);
    var c1 := ChainState(first, 14, 1, true);
    assert ChainStep(ChainState([], 0, 0, false), first).0 == c1;
    assert Payload(last) == [0xBB];
    EndStep(c1, last);
    var full: UciPacket := first + [0xBB];
    assert full == [0x5E, 0x01, 0x00, 0x01, 0xAA, 0xBB];
    TotalLengthOf(full, 2);
    var le := ToLE16(2);
    assert le == [0x02, 0x00];
    assert full[..2] == [0x5E, 0x01] && full[4..] == [0xAA, 0xBB];
    assert full[..2] + le + full[4..] == [0x5E, 0x01, 0x02, 0x00, 0xAA, 0xBB];
  }

  /** A packet carrying `n` payload bytes gets `n` in its length bytes. */
  lemma TotalLengthOf(buf: UciPacket, n: u16)
    requires |buf| == n as nat + UCI_MSG_HDR_SIZE
    ensures WithTotalLength(buf) == buf[..2] + ToLE16(n) + buf[4..]
  {
    assert (|buf| - UCI_MSG_HDR_SIZE) % 0x1_0000 == n as int;
  }

  /** A raw command waits behind the one whose raw response arrives, with a
      window of one. As written the window update sends it and raises the
      flag, and the flag is then cleared, so its response would be routed as
      an ordinary one; the model keeps the flag. */
  lemma RawFlagOfNextCommandCleared(a: Assembled, msg: UciPacket)
    ensures var next := UciCmd([0x2E, 0x01, 0x00, 0x00], true);
      var s := CmdState(0, true, 0, false, [next], [0x2E, 0x02], None, true, [], []);
      var written := RawResponseStepAsWritten(s, a, msg, 1).0;
      var intended := RawResponseStep(s, a, 1).0;
      written.halWrites == [next.bytes] && !written.rawCmdCbFlag &&
      intended.halWrites == [next.bytes] && intended.rawCmdCbFlag
  {
    var next := UciCmd([0x2E, 0x01, 0x00, 0x00], true);
    var s := CmdState(0, true, 0, false, [next], [0x2E, 0x02], None, true, [], []);
    var u := s.(rawCmdCbFlag := false).(window := 1, respPending := false, retryCount := 0);
    assert u.queue + OptSeq(None) == [next];
    assert UpdateCmdWindowStep(s.(rawCmdCbFlag := false), 1) == Send(u.(queue := []), next);
  }

  /** `uwb_ucif_process_event`. Type, group and opcode come from the packet
      received. While a raw command waits, anything but a notification is
      its response. A response whose group or opcode differs from the saved
      command header is dropped and leaves the window alone; a matching one
      is routed to its group and updates the window. Notifications are
      routed to their group; proprietary ones get the whole packet. */
  function ProcessEventStep(c: ChainState, s: CmdState, msg: UciPacket, maxCmdWindow: nat): (r: (ChainState, CmdState, Outcome))
    requires ChainValid(c) && WellFormed(msg) && |s.lastHdr| == 2
    ensures ChainValid(r.0)
    ensures r.2.UnexpectedResponse? ==> r.1 == s
    ensures r.2.Response? ==> r.1 == UpdateCmdWindowStep(s, maxCmdWindow)
    ensures r.2.Notification? || r.2.ProprietaryNotification? || r.2.FragmentStored? || r.2.UnknownType? ==> r.1 == s
  {
    var (c', assembled) := ChainStep(c, msg);
    if assembled.None? then (c', s, FragmentStored)
    else
      var a := assembled.value;
      var h := ParseHdr0(msg[0]);
      var oid := ParseHdr1(msg[1]);
      if s.rawCmdCbFlag && h.mt != UCI_MT_NTF then
        var (s', o) := RawResponseStep(s, a, maxCmdWindow); (c', s', o)
      else if h.mt == UCI_MT_RSP then
        if !ResponseMatches(s.lastHdr, h.gid, oid) then (c', s, UnexpectedResponse(h.gid, oid))
        else (c', UpdateCmdWindowStep(s, maxCmdWindow), Response(h.gid, oid, a.payload))
      else if h.mt == UCI_MT_NTF then
        if h.gid == UCI_GID_PROPRIETARY then (c', s, ProprietaryNotification(oid, a.packet))
        else (c', s, Notification(h.gid, oid, a.payload))
      else (c', s, UnknownType(h.mt))
  }

  /** `uwb_ucif_process_event`. */
  method ProcessEvent(cb: UwbCb, chain: ChainedPacket, msg: UciPacket) returns (outcome: Outcome)
    requires chain.Valid() && WellFormed(msg) && |cb.lastHdr| == 2
    modifies cb, chain
    ensures chain.Valid()
    ensures (chain.State(), cb.Cmd(), outcome) == ProcessEventStep(old(chain.State()), old(cb.Cmd()), msg, cb.maxCmdWindow)
    ensures cb.state == old(cb.state) && cb.hasRespCallback == old(cb.hasRespCallback)
  {
    var assembled := chain.Process(msg);
    if assembled.None? {
      return FragmentStored;
    }
    var a := assembled.value;
    var h := ParseHdr0(msg[0]);
    var oid := ParseHdr1(msg[1]);
    if cb.rawCmdCbFlag && h.mt != UCI_MT_NTF {
      cb.rawCmdCbFlag := false;
      UpdateCmdWindow(cb);
      return RawResponse(a.packet);
    }
    if h.mt == UCI_MT_RSP {
      if !ResponseMatches(cb.lastHdr, h.gid, oid) {
        return UnexpectedResponse(h.gid, oid);
      }
      UpdateCmdWindow(cb);
      outcome := Response(h.gid, oid, a.payload);
    } else if h.mt == UCI_MT_NTF {
      if h.gid == UCI_GID_PROPRIETARY {
        outcome := ProprietaryNotification(oid, a.packet);
      } else {
        outcome := Notification(h.gid, oid, a.payload);
      }
    } else {
      outcome := UnknownType(h.mt);
    }
  }
}
