// The host side of the SR040 device calibration demo: how the writer thread
// frames queued commands for the USB link, how the reader thread decodes the
// distance and angle of a ranging notification, and the averaging window it
// keeps over the last measurements. The angle is kept as the signed Q9.7
// integer the notification carries; its conversion to a float is not part of
// this model.
module PnpCore {
  import opened Bytes

  const UCI_CMD: u8 := 0x01
  const RESET_CMD: u8 := 0x04

  const RANGING_STATUS_INDEX: nat := 27
  const RANGING_LOS_INDEX: nat := 28
  const RANGING_DISTANCE_INDEX: nat := 29
  const RANGING_AOA_INDEX: nat := 31

  /** The distance is reported as read: the offset is still 0. */
  const RANGING_OFFSET: int := 0
  const AVERAGING_WINDOW_SIZE: nat := 5
  /** `queue.Queue(maxsize=100)`. */
  const COMMAND_QUEUE_SIZE: nat := 100

  /** The header of the ranging notification the reader decodes. */
  const RANGING_NTF_HEADER: seq<u8> := [0x62, 0x00, 0x00, 0x3D]
  const RANGING_NTF_LEN: nat := 0x3D

  // ---------------------------------------------------------------------
  // Decoding
  // ---------------------------------------------------------------------

  /** `extract_angle`: the four bytes from index 31, least significant
      first. */
  function ExtractAngle(p: seq<u8>): u32
    requires RANGING_AOA_INDEX + 4 <= |p|
  {
    LE32(p[RANGING_AOA_INDEX], p[RANGING_AOA_INDEX + 1], p[RANGING_AOA_INDEX + 2], p[RANGING_AOA_INDEX + 3])
  }

  /** `extract_distance`: the two bytes from index 29, least significant
      first. */
  function ExtractDistance(p: seq<u8>): u16
    requires RANGING_DISTANCE_INDEX + 2 <= |p|
  {
    LE16(p[RANGING_DISTANCE_INDEX], p[RANGING_DISTANCE_INDEX + 1])
  }

  /** A word written little-endian at index 31 is the angle read back. */
  lemma ExtractAngleReadsBack(pre: seq<u8>, v: u32, post: seq<u8>)
    requires |pre| == RANGING_AOA_INDEX
    ensures ExtractAngle(pre + ToLE32(v) + post) == v
  {
    ReadBackLE32(pre, v, post);
  }

  /** A half-word written little-endian at index 29 is the distance read
      back. */
  lemma ExtractDistanceReadsBack(pre: seq<u8>, v: u16, post: seq<u8>)
    requires |pre| == RANGING_DISTANCE_INDEX
    ensures ExtractDistance(pre + ToLE16(v) + post) == v
  {
    ReadBackLE16(pre, v, post);
  }

  /** `twos_comp`: `2^bits` is subtracted when bit `bits - 1` of `val` is
      set (Python's `&` on integers, which for a power of two is this floor
      division test). */
  function TwosComp(val: int, bits: nat): int
    requires bits >= 1
  {
    if (val / Pow2(bits - 1)) % 2 == 1 then val - Pow2(bits) else val
  }

  lemma DivIsOne(val: int, p: int)
    requires 0 < p <= val < 2 * p
    ensures val / p == 1
  {
    assert val == p * 1 + (val - p);
  }

  lemma DivIsZero(val: int, p: int)
    requires 0 <= val < p
    ensures val / p == 0
  {
  }

  /** On a `bits`-bit pattern, the sign bit is set exactly when the pattern
      is at least half the range; the result is then the pattern less the
      range, a value of the signed range. */
  lemma TwosCompSigned(val: int, bits: nat)
    requires bits >= 1 && 0 <= val < Pow2(bits)
    ensures var half: int := Pow2(bits - 1);
            var r := TwosComp(val, bits);
            -half <= r < half &&
            (val >= half ==> r == val - Pow2(bits)) &&
            (val < half ==> r == val)
  {
    var half: int := Pow2(bits - 1);
    assert Pow2(bits) == 2 * half;
    if val >= half {
      DivIsOne(val, half);
    } else {
      DivIsZero(val, half);
    }
  }

  /** The unsigned pattern of a signed value, the inverse of `TwosComp`. */
  function Unsigned(s: int, bits: nat): int
    requires bits >= 1
  {
    if s < 0 then s + Pow2(bits) else s
  }

  /** Reading the pattern of a signed value gives the value back. */
  lemma TwosCompRoundTrip(s: int, bits: nat)
    requires bits >= 1 && -(Pow2(bits - 1) as int) <= s < Pow2(bits - 1)
    ensures 0 <= Unsigned(s, bits) < Pow2(bits)
    ensures TwosComp(Unsigned(s, bits), bits) == s
  {
    assert Pow2(bits) == 2 * Pow2(bits - 1);
    TwosCompSigned(Unsigned(s, bits), bits);
  }

  lemma Pow2Of16()
    ensures Pow2(15) == 0x8000 && Pow2(16) == 0x1_0000
  {
    assert Pow2(1) == 2;
    assert Pow2(2) == 4;
    assert Pow2(3) == 8;
    assert Pow2(4) == 16;
    assert Pow2(5) == 32;
    assert Pow2(6) == 64;
    assert Pow2(7) == 128;
    assert Pow2(8) == 256;
    assert Pow2(9) == 512;
    assert Pow2(10) == 1024;
    assert Pow2(11) == 2048;
    assert Pow2(12) == 4096;
    assert Pow2(13) == 8192;
    assert Pow2(14) == 16384;
  }

  /** The angle the reader computes: the 32 bits read at index 31, with the
      16-bit sign correction. */
  function MeasuredAngle(p: seq<u8>): int
    requires RANGING_AOA_INDEX + 4 <= |p|
  {
    TwosComp(ExtractAngle(p), 16)
  }

  /** When bytes 33 and 34 are zero, the angle is the signed 16-bit value at
      index 31; otherwise those bytes reach the result too, which then lies
      outside the 16-bit range. */
  lemma MeasuredAngleIs16Bit(p: seq<u8>)
    requires RANGING_AOA_INDEX + 4 <= |p|
    ensures p[33] == 0 && p[34] == 0 ==> MeasuredAngle(p) == SignExtend16(LE16(p[31], p[32]))
    ensures (p[33] != 0 || p[34] != 0) ==> MeasuredAngle(p) >= 0x8000
  {
    Pow2Of16();
    var v := ExtractAngle(p);
    assert v == LE16(p[31], p[32]) + 0x1_0000 * (p[33] as int + 0x100 * p[34] as int);
    if p[33] == 0 && p[34] == 0 {
      TwosCompSigned(v, 16);
    } else {
      assert v >= 0x1_0000;
    }
  }

  // ---------------------------------------------------------------------
  // Averaging window
  // ---------------------------------------------------------------------

  /** A history list after `append(x)` and, when it grew past the window,
      `del hist[0]`. */
  function Pushed(hist: seq<int>, x: int): (r: seq<int>)
    ensures |hist| <= AVERAGING_WINDOW_SIZE ==> |r| <= AVERAGING_WINDOW_SIZE
    ensures r != [] && r[|r| - 1] == x
  {
    var h := hist + [x];
    if |h| > AVERAGING_WINDOW_SIZE then h[1..] else h
  }

  /** The last `n` elements of `s`, or all of them when there are fewer. */
  function LastN(s: seq<int>, n: nat): seq<int>
  {
    if |s| <= n then s else s[|s| - n..]
  }

  /** Pushing onto the window of all earlier samples gives the window of
      all samples: the history is always the last five measurements. */
  lemma PushedKeepsWindow(all: seq<int>, x: int)
    ensures Pushed(LastN(all, AVERAGING_WINDOW_SIZE), x) == LastN(all + [x], AVERAGING_WINDOW_SIZE)
  {
    var w := LastN(all, AVERAGING_WINDOW_SIZE);
    if |all| >= AVERAGING_WINDOW_SIZE {
      assert (w + [x])[1..] == (all + [x])[|all| + 1 - AVERAGING_WINDOW_SIZE..];
    }
  }

  function Sum(s: seq<int>): int
  {
    if s == [] then 0 else Sum(s[..|s| - 1]) + s[|s| - 1]
  }

  /** What the reader prints for one ranging measurement: the values, the
      sums and the count behind the two averages, and line of sight. */
  datatype RangingReport = RangingReport(distance: int, angle: int,
                                         distanceSum: int, angleSum: int, samples: nat,
                                         lineOfSight: bool)

  /** How the reader loop goes on after a packet: it continues, or a Python
      exception ends the thread. */
  datatype ReaderOutcome = Continue | Raised

  /** The state `ReadFromSerialPort` keeps between packets: the two history
      lists, the flags it shares with the writer, and how many times it
      notified the writer. `distances` and `angles` are every measurement
      accepted so far. */
  class Reader {
    var distanceHist: seq<int>
    var angleHist: seq<int>
    var isRanging: bool
    var retryCmd: bool
    var notifies: nat
    ghost var distances: seq<int>
    ghost var angles: seq<int>

    /** The histories hold the last five accepted measurements. */
    ghost predicate Valid()
      reads this
    {
      |distances| == |angles| &&
      distanceHist == LastN(distances, AVERAGING_WINDOW_SIZE) &&
      angleHist == LastN(angles, AVERAGING_WINDOW_SIZE)
    }

    constructor()
      ensures Valid() && distanceHist == [] && angleHist == [] && distances == []
      ensures !isRanging && !retryCmd && notifies == 0
    {
      distanceHist, angleHist := [], [];
      distances, angles := [], [];
      isRanging, retryCmd, notifies := false, false, 0;
    }

    /** One measurement from a ranging notification with status 0: the
        0xFFFF distance is dropped; otherwise both histories take the
        measurement and the averages are reported. */
    method Measure(payload: seq<u8>) returns (report: Option<RangingReport>)
      requires Valid() && |payload| == RANGING_NTF_LEN
      modifies this
      ensures Valid()
      ensures isRanging == old(isRanging) && retryCmd == old(retryCmd) && notifies == old(notifies)
      ensures var d := ExtractDistance(payload) - RANGING_OFFSET;
              var a := MeasuredAngle(payload);
              if d == 0xFFFF then
                report == None && distances == old(distances) && angles == old(angles) &&
                distanceHist == old(distanceHist) && angleHist == old(angleHist)
              else
                distances == old(distances) + [d] && angles == old(angles) + [a] &&
                report == Some(RangingReport(d, a, Sum(distanceHist), Sum(angleHist), |angleHist|,
                                             payload[RANGING_LOS_INDEX] == 0))
    {
      var angle := MeasuredAngle(payload);
      var distance := ExtractDistance(payload) - RANGING_OFFSET;
      if distance == 0xFFFF {
        return None;
      }
      PushedKeepsWindow(distances, distance);
      PushedKeepsWindow(angles, angle);
      distanceHist := Pushed(distanceHist, distance);
      angleHist := Pushed(angleHist, angle);
      distances := distances + [distance];
      angles := angles + [angle];
      report := Some(RangingReport(distance, angle, Sum(distanceHist), Sum(angleHist), |angleHist|,
                                   payload[RANGING_LOS_INDEX] == 0));
    }

    /** The reader loop's handling of one 4-byte header and the payload read
        after it. Only responses (0x4X) and notifications (0x6X) are looked
        at. A complete payload may be the ranging notification (decoded when
        its status is 0), and then releases the writer: with a retry request
        for a 0x0A status notification `60 07`, and without for any response,
        for the reset notification `60 01` and for a log notification. As
        written (`intended` false) a short payload ends the thread, because
        the message about it adds an integer to a string; intended, the packet
        is skipped. Log notification decoding and plotting are not part of
        this model. */
    method HandlePacket(hdr: seq<u8>, payload: seq<u8>, intended: bool)
      returns (outcome: ReaderOutcome, report: Option<RangingReport>)
      requires Valid() && |hdr| == 4 && |payload| <= hdr[3]
      modifies this
      ensures Valid()
      ensures outcome == PacketOutcome(hdr, |payload|, intended)
      ensures outcome == Raised <==> !intended && hdr[0] / 16 in {4, 6} && hdr[3] > 0 && |payload| < hdr[3]
      ensures report.Some? ==> hdr == RANGING_NTF_HEADER && |payload| == RANGING_NTF_LEN &&
                               payload[RANGING_STATUS_INDEX] == 0
      ensures !(hdr[0] / 16 in {4, 6} && hdr[3] > 0 && |payload| == hdr[3]) ==>
                distances == old(distances) && distanceHist == old(distanceHist) &&
                angleHist == old(angleHist) && isRanging == old(isRanging) &&
                retryCmd == old(retryCmd) && notifies == old(notifies)
      ensures hdr[0] / 16 in {4, 6} && hdr[3] > 0 && |payload| == hdr[3] ==>
                isRanging == (old(isRanging) || hdr == RANGING_NTF_HEADER) &&
                notifies == old(notifies) + (if Releases(hdr, payload) then 1 else 0) &&
                retryCmd == (if Releases(hdr, payload) then RetryRequested(hdr, payload) else old(retryCmd))
    {
      report := None;
      outcome := Continue;
      if hdr[0] / 16 != 4 && hdr[0] / 16 != 6 {
        return;
      }
      if hdr[3] == 0 {
        return;
      }
      if |payload| != hdr[3] {
        if !intended {
          outcome := Raised;
        }
        return;
      }
      if hdr == RANGING_NTF_HEADER {
        if payload[RANGING_STATUS_INDEX] == 0 {
          report := Measure(payload);
        }
        isRanging := true;
      }
      if hdr[0] == 0x60 && hdr[1] == 0x07 && payload[0] == 0x0A {
        retryCmd := true;
        notifies := notifies + 1;
      } else if hdr[0] / 16 == 4 || (hdr[0] == 0x60 && hdr[1] == 0x01) || (hdr[0] == 0x6E && hdr[1] == 0x00) {
        retryCmd := false;
        notifies := notifies + 1;
      }
    }
  }

  /** Whether a complete packet releases the waiting writer. */
  predicate Releases(hdr: seq<u8>, payload: seq<u8>)
    requires |hdr| == 4 && |payload| >= 1
  {
    RetryRequested(hdr, payload) || hdr[0] / 16 == 4 ||
    (hdr[0] == 0x60 && hdr[1] == 0x01) || (hdr[0] == 0x6E && hdr[1] == 0x00)
  }

  /** The notification that asks the writer to send its command again. */
  predicate RetryRequested(hdr: seq<u8>, payload: seq<u8>)
    requires |hdr| == 4 && |payload| >= 1
  {
    hdr[0] == 0x60 && hdr[1] == 0x07 && payload[0] == 0x0A
  }

  /** How the reader loop goes on after a header and a payload of
      `received` bytes: as written (`intended` false) a response or
      notification whose payload came back short raises; everything else
      continues. */
  function PacketOutcome(hdr: seq<u8>, received: nat, intended: bool): ReaderOutcome
    requires |hdr| == 4
  {
    if !intended && hdr[0] / 16 in {4, 6} && hdr[3] > 0 && received != hdr[3] then Raised
    else Continue
  }

  /** As written, a four-byte response of which two bytes arrived ends the
      reader thread, after which nothing releases the writer again. */
  lemma ShortPayloadEndsReader()
    ensures PacketOutcome([0x40, 0x00, 0x00, 0x04], 2, false) == Raised
  {
  }

  // ---------------------------------------------------------------------
  // Framing for the USB link
  // ---------------------------------------------------------------------

  /** The packet `WriteToSerialPort` sends for a command: a UCI command
      (high nibble 2) gets the prefix `[UCI_CMD, 0, len]`; any other command
      goes out raw. None where Python raises: an empty command has no first
      byte, and `bytearray.append` refuses a length above 255. */
  function UsbPacket(cmd: seq<u8>): (p: Option<seq<u8>>)
  {
    if cmd == [] then None
    else if cmd[0] / 16 == 2 then
      if |cmd| < 0x100 then Some([UCI_CMD, 0x00, |cmd| as u8] + cmd) else None
    else Some(cmd)
  }

  /** A receiver's reading of a packet: a prefix whose length byte matches
      is taken off, anything else is the command itself. */
  function Unframe(p: seq<u8>): seq<u8>
  {
    if |p| >= 3 && p[0] == UCI_CMD && p[1] == 0x00 && p[2] == |p| - 3 then p[3..] else p
  }

  /** Framing loses nothing: unframing gives the command back, for every
      command that does not itself start with the prefix byte. */
  lemma FramingRoundTrip(cmd: seq<u8>)
    requires UsbPacket(cmd).Some? && cmd[0] != UCI_CMD
    ensures Unframe(UsbPacket(cmd).value) == cmd
  {
  }

  /** Exactly the UCI commands are prefixed, by three bytes; the rest go out
      unchanged. */
  lemma FramingShape(cmd: seq<u8>)
    requires UsbPacket(cmd).Some?
    ensures cmd[0] / 16 == 2 ==> UsbPacket(cmd).value[..3] == [UCI_CMD, 0x00, |cmd|] &&
                                 UsbPacket(cmd).value[3..] == cmd
    ensures cmd[0] / 16 != 2 ==> UsbPacket(cmd).value == cmd
  {
  }

  /** The first command Python cannot frame, or the count when there is
      none. */
  function FirstUnframed(cmds: seq<seq<u8>>): (k: nat)
    ensures k <= |cmds|
    ensures k < |cmds| ==> UsbPacket(cmds[k]).None?
    ensures forall j :: 0 <= j < k ==> UsbPacket(cmds[j]).Some?
  {
    if cmds == [] then 0
    else if UsbPacket(cmds[0]).None? then 0
    else 1 + FirstUnframed(cmds[1..])
  }

  /** What goes out on the port for commands that all frame: each packet
      once when the port is open, and once more when its retry was
      requested; nothing when the port is closed. */
  function Transmissions(cmds: seq<seq<u8>>, retries: seq<bool>, portOpen: bool): (out: seq<seq<u8>>)
    requires |retries| >= |cmds|
    requires forall j :: 0 <= j < |cmds| ==> UsbPacket(cmds[j]).Some?
    ensures !portOpen ==> out == []
  {
    if cmds == [] then []
    else
      Transmissions(cmds[..|cmds| - 1], retries, portOpen) +
      (if portOpen then Repeat(UsbPacket(cmds[|cmds| - 1]).value, retries[|cmds| - 1]) else [])
  }

  /** One more command's packets at the end of the transmissions. */
  lemma TransmissionsStep(cmds: seq<seq<u8>>, retries: seq<bool>, portOpen: bool, n: nat)
    requires n < |cmds| && |retries| >= |cmds|
    requires forall j :: 0 <= j <= n ==> UsbPacket(cmds[j]).Some?
    ensures Transmissions(cmds[..n + 1], retries, portOpen) ==
            Transmissions(cmds[..n], retries, portOpen) +
            (if portOpen then Repeat(UsbPacket(cmds[n]).value, retries[n]) else [])
  {
    assert cmds[..n + 1][..n] == cmds[..n];
  }

  function Repeat(p: seq<u8>, twice: bool): seq<seq<u8>>
  {
    if twice then [p, p] else [p]
  }

  /** With the port open, one packet goes out per command plus one per
      requested retry. */
  lemma {:induction false} TransmissionsCount(cmds: seq<seq<u8>>, retries: seq<bool>)
    requires |retries| >= |cmds|
    requires forall j :: 0 <= j < |cmds| ==> UsbPacket(cmds[j]).Some?
    ensures |Transmissions(cmds, retries, true)| == |cmds| + RetryCount(retries[..|cmds|])
  {
    if cmds != [] {
      var n := |cmds| - 1;
      TransmissionsCount(cmds[..n], retries);
      assert retries[..|cmds|][..n] == retries[..n];
    }
  }

  function RetryCount(retries: seq<bool>): nat
  {
    if retries == [] then 0
    else RetryCount(retries[..|retries| - 1]) + (if retries[|retries| - 1] then 1 else 0)
  }

  /** The writer thread's queue and what it has written to the port. */
  class Writer {
    var queue: seq<seq<u8>>
    var written: seq<seq<u8>>

    constructor()
      ensures queue == [] && written == []
    {
      queue, written := [], [];
    }

    /** `AddCommandToQueue`: the command joins the tail. `put` waits while
        100 commands are queued. */
    method AddCommand(cmd: seq<u8>)
      requires |queue| < COMMAND_QUEUE_SIZE
      modifies this
      ensures queue == old(queue) + [cmd] && written == old(written)
    {
      queue := queue + [cmd];
    }

    /** `WriteToSerialPort`: commands are taken from the head and sent
        framed, a second time when the reader asked for a retry (`retries[j]`
        for the j-th command), until the queue is empty or a command cannot
        be framed, whose exception ends the thread (`raised`) with that
        command taken off. The waits for the reader are not modelled. */
    method WriteAll(portOpen: bool, retries: seq<bool>) returns (raised: bool)
      requires |retries| >= |queue|
      modifies this
      ensures var k := FirstUnframed(old(queue));
              raised == (k < |old(queue)|) &&
              written == old(written) + Transmissions(old(queue)[..k], retries, portOpen) &&
              queue == (if raised then old(queue)[k + 1..] else [])
    {
      ghost var cmds := queue;
      ghost var k := FirstUnframed(cmds);
      var sent := 0;
      raised := false;
      while queue != []
        invariant 0 <= sent <= k && queue == cmds[sent..]
        invariant written == old(written) + Transmissions(cmds[..sent], retries, portOpen)
        decreases |queue|
      {
        var cmd := TakeHead();
        var packet := UsbPacket(cmd);
        if packet.None? {
          raised := true;
          return;
        }
        TransmissionsStep(cmds, retries, portOpen, sent);
        Send(packet.value, portOpen, retries[sent]);
        sent := sent + 1;
      }
    }

    /** `commandQueue.get()`: the head command is taken off. */
    method TakeHead() returns (cmd: seq<u8>)
      requires queue != []
      modifies this
      ensures cmd == old(queue)[0] && queue == old(queue)[1..] && written == old(written)
    {
      cmd := queue[0];
      queue := queue[1..];
    }

    /** One packet written when the port is open, and again after a retry
        request. */
    method Send(packet: seq<u8>, portOpen: bool, retry: bool)
      modifies this
      ensures queue == old(queue)
      ensures written == old(written) + (if portOpen then Repeat(packet, retry) else [])
    {
      if portOpen {
        written := written + [packet];
        if retry {
          written := written + [packet];
        }
      }
    }
  }
}
