// The QN9090 SPI transport to the SR040: the CRC-16/XMODEM table and fold
// used by RCI frames, RCI frame writing and reading, and the UCI read and
// write handshakes. The chip's answers (GPIO levels, semaphore waits, SPI
// transfer results and the bytes clocked in) are parameters.
//
// A 16-bit CRC register is modelled as its bits, most significant first, so
// that `^`, `<<` and `>>` are statements about positions; the bytes that go
// into the frame are the values of its two halves.
module SpiTransport {
  import opened Bytes
  import UciDefs

  const RCI_PKT_LEN: nat := 256
  const UCI_HDR_LEN: nat := 4

  /** A register as its bits, most significant first. */
  function ZeroBits(n: nat): (r: seq<bool>)
    ensures |r| == n && forall k :: 0 <= k < n ==> !r[k]
  {
    seq(n, _ => false)
  }

  function Xor(a: seq<bool>, b: seq<bool>): (r: seq<bool>)
    requires |a| == |b|
    ensures |r| == |a| && forall k :: 0 <= k < |a| ==> r[k] == (a[k] != b[k])
  {
    seq(|a|, k requires 0 <= k < |a| => a[k] != b[k])
  }

  function Shl(x: seq<bool>): (r: seq<bool>)
    requires |x| > 0
    ensures |r| == |x| && r[|x| - 1] == false && forall k :: 0 <= k < |x| - 1 ==> r[k] == x[k + 1]
  {
    x[1..] + [false]
  }

  const POLYNOMIAL: seq<bool> := [false, false, false, true, false, false, false, false,
                                  false, false, true, false, false, false, false, true]

  function Round(x: seq<bool>): (r: seq<bool>)
    requires |x| == 16
    ensures |r| == 16
  {
    if x[0] then Xor(Shl(x), POLYNOMIAL) else Shl(x)
  }

  function Rounds(x: seq<bool>, n: nat): (r: seq<bool>)
    requires |x| == 16
    ensures |r| == 16
  {
    if n == 0 then x else Round(Rounds(x, n - 1))
  }

  lemma RoundLinear(x: seq<bool>, y: seq<bool>)
    requires |x| == 16 && |y| == 16
    ensures Round(Xor(x, y)) == Xor(Round(x), Round(y))
  {
  }

  lemma {:induction false} RoundsLinear(x: seq<bool>, y: seq<bool>, n: nat)
    requires |x| == 16 && |y| == 16
    ensures Rounds(Xor(x, y), n) == Xor(Rounds(x, n), Rounds(y, n))
  {
    if n > 0 {
      RoundsLinear(x, y, n - 1);
      RoundLinear(Rounds(x, n - 1), Rounds(y, n - 1));
    }
  }

  lemma {:induction false} RoundsLow(lo: seq<bool>, j: nat)
    requires |lo| == 8 && j <= 8
    ensures Rounds(ZeroBits(8) + lo, j) == ZeroBits(8 - j) + lo + ZeroBits(j)
  {
    if j > 0 {
      RoundsLow(lo, j - 1);
    }
  }

  /** The `w` low bits of `n`, most significant first. */
  function Bits(n: nat, w: nat): (r: seq<bool>)
    ensures |r| == w
  {
    if w == 0 then [] else Bits(n / 2, w - 1) + [n % 2 == 1]
  }

  /** The number a register's bits stand for. */
  function Value(b: seq<bool>): (r: nat)
  {
    if b == [] then 0 else 2 * Value(b[..|b| - 1]) + (if b[|b| - 1] then 1 else 0)
  }

  lemma {:induction false} BitsOfValue(b: seq<bool>)
    ensures Bits(Value(b), |b|) == b
  {
    if b != [] {
      var p := b[..|b| - 1];
      BitsOfValue(p);
      assert b == p + [b[|b| - 1]];
    }
  }

  lemma {:induction false} ValueBound(b: seq<bool>)
    ensures Value(b) < Pow2(|b|)
  {
    if b != [] {
      ValueBound(b[..|b| - 1]);
    }
  }

  /** Eight bits are a byte. */
  lemma ByteValue(b: seq<bool>)
    requires |b| == 8
    ensures Value(b) < 0x100
  {
    ValueBound(b);
    assert Pow2(8) == 0x100 by {
      assert Pow2(4) == 16;
    }
  }

  function Byte(b: u8): (r: seq<bool>)
    ensures |r| == 8
  {
    Bits(b, 8)
  }

  /** The high and low byte of a 16-bit register: `crc >> 8` and `crc & 0xFF`. */
  function High(c: seq<bool>): (r: u8)
    requires |c| == 16
  {
    ByteValue(c[..8]);
    Value(c[..8])
  }

  function Low(c: seq<bool>): (r: u8)
    requires |c| == 16
  {
    ByteValue(c[8..]);
    Value(c[8..])
  }

  /** Entry `i` of the table `crc16_xmodem_init` fills: `i << 8` run through
      eight rounds of the polynomial. */
  function TableEntry(i: u8): (r: seq<bool>)
    ensures |r| == 16
  {
    Rounds(Byte(i) + ZeroBits(8), 8)
  }

  /** The table index for the next byte: `(crc >> 8) ^ (0xff & b)`. */
  function Index(crc: seq<bool>, b: u8): (r: u8)
    requires |crc| == 16
  {
    var h := Xor(crc[..8], Byte(b));
    ByteValue(h);
    Value(h)
  }

  /** One byte of `crc16_xmodem`: `(crc << 8) ^ table[index]`. */
  function TableStep(crc: seq<bool>, b: u8): (r: seq<bool>)
    requires |crc| == 16
    ensures |r| == 16
  {
    Xor(crc[8..] + ZeroBits(8), TableEntry(Index(crc, b)))
  }

  /** CRC-16/XMODEM of `data` the way `crc16_xmodem` computes it: initial
      value 0, one table step per byte. */
  function Crc(data: seq<u8>): (r: seq<bool>)
    ensures |r| == 16
  {
    if data == [] then ZeroBits(16) else TableStep(Crc(data[..|data| - 1]), data[|data| - 1])
  }

  /** The textbook bitwise step: the byte is xored into the high half and the
      register shifted eight times, xoring the polynomial in whenever a one
      falls out. */
  function BitStep(crc: seq<bool>, b: u8): (r: seq<bool>)
    requires |crc| == 16
    ensures |r| == 16
  {
    Rounds(Xor(crc, Byte(b) + ZeroBits(8)), 8)
  }

  function BitwiseCrc(data: seq<u8>): (r: seq<bool>)
    ensures |r| == 16
  {
    if data == [] then ZeroBits(16) else BitStep(BitwiseCrc(data[..|data| - 1]), data[|data| - 1])
  }

  /** The table step is the bitwise step: the table holds the effect of the
      high half, and the low half only moves up. */
  lemma TableStepIsBitStep(crc: seq<bool>, b: u8)
    requires |crc| == 16
    ensures TableStep(crc, b) == BitStep(crc, b)
  {
    var h := Xor(crc[..8], Byte(b));
    var lo := crc[8..];
    assert Xor(crc, Byte(b) + ZeroBits(8)) == Xor(h + ZeroBits(8), ZeroBits(8) + lo);
    RoundsLinear(h + ZeroBits(8), ZeroBits(8) + lo, 8);
    RoundsLow(lo, 8);
    BitsOfValue(h);
    assert Rounds(ZeroBits(8) + lo, 8) == lo + ZeroBits(8);
    assert Xor(Rounds(h + ZeroBits(8), 8), lo + ZeroBits(8)) == Xor(lo + ZeroBits(8), TableEntry(Index(crc, b)));
  }

  /** The table-driven CRC is CRC-16/XMODEM computed bit by bit. */
  lemma {:induction false} CrcIsBitwise(data: seq<u8>)
    ensures Crc(data) == BitwiseCrc(data)
  {
    if data != [] {
      CrcIsBitwise(data[..|data| - 1]);
      TableStepIsBitStep(Crc(data[..|data| - 1]), data[|data| - 1]);
    }
  }

  lemma {:induction false} RoundsZero(n: nat)
    ensures Rounds(ZeroBits(16), n) == ZeroBits(16)
  {
    if n > 0 {
      RoundsZero(n - 1);
    }
  }

  /** Feeding a register its own high byte leaves the low byte, moved up. */
  lemma HighStep(c: seq<bool>)
    requires |c| == 16
    ensures BitStep(c, High(c)) == c[8..] + ZeroBits(8)
  {
    BitsOfValue(c[..8]);
    assert Xor(c, Byte(High(c)) + ZeroBits(8)) == ZeroBits(8) + c[8..];
    RoundsLow(c[8..], 8);
  }

  /** Feeding a register whose low half is zero its high byte clears it. */
  lemma LowStep(c: seq<bool>)
    requires |c| == 16
    ensures BitStep(c[8..] + ZeroBits(8), Low(c)) == ZeroBits(16)
  {
    BitsOfValue(c[8..]);
    assert Xor(c[8..] + ZeroBits(8), Byte(Low(c)) + ZeroBits(8)) == ZeroBits(16);
    RoundsZero(8);
  }

  /** The CRC's defining property: running it over the data followed by its
      own CRC, high byte first, leaves a zero register. */
  lemma CrcResidue(m: seq<u8>)
    ensures var c := Crc(m); Crc(m + [High(c), Low(c)]) == ZeroBits(16)
  {
    var c := Crc(m);
    var data := m + [High(c), Low(c)];
    CrcIsBitwise(m);
    CrcIsBitwise(data);
    assert data[..|data| - 1] == m + [High(c)];
    assert (m + [High(c)])[..|m|] == m;
    HighStep(c);
    LowStep(c);
  }

  /** `RETURNED_SUCCESS` / `RETURNED_FAILURE`. */
  datatype Status = Success | Failure

  /** The 256-byte frame `phNxpUwb_RciWrite` sends: the data, zero padded,
      with the CRC of the first 254 bytes stored low byte first in the last
      two. */
  function RciFrame(data: seq<u8>): (r: seq<u8>)
    requires |data| <= RCI_PKT_LEN
    ensures |r| == RCI_PKT_LEN
  {
    var buf := data + Zeros(RCI_PKT_LEN - |data|);
    var c := Crc(buf[..RCI_PKT_LEN - 2]);
    buf[..RCI_PKT_LEN - 2] + [Low(c), High(c)]
  }

  /** The check `phNxpUwb_RciRead` makes: the stored CRC bytes equal the
      CRC of the first 254 bytes. */
  predicate CrcMatches(frame: seq<u8>)
    requires |frame| == RCI_PKT_LEN
  {
    var c := Crc(frame[..RCI_PKT_LEN - 2]);
    frame[RCI_PKT_LEN - 2] == Low(c) && frame[RCI_PKT_LEN - 1] == High(c)
  }

  /** A written frame carries the data up front, zeros after it (up to the
      CRC) and a CRC the reader accepts. */
  lemma WrittenFrameChecks(data: seq<u8>)
    requires |data| <= RCI_PKT_LEN - 2
    ensures var f := RciFrame(data);
            f[..|data|] == data && CrcMatches(f) &&
            forall k :: |data| <= k < RCI_PKT_LEN - 2 ==> f[k] == 0
  {
    var f := RciFrame(data);
    var buf := data + Zeros(RCI_PKT_LEN - |data|);
    assert f[..RCI_PKT_LEN - 2] == buf[..RCI_PKT_LEN - 2];
  }

  /** What `phNxpUwb_RciRead` returns: the count and the bytes copied to the
      caller, and whether the copy ran past the 256-byte read buffer. */
  datatype RciReply = RciReply(bytesRead: nat, rsp: seq<u8>, overRead: bool)

  /** `phNxpUwb_RciRead` on the frame the SPI read clocked in. A leading 0x00
      is skipped; the packet is the 4-byte header plus the length in its
      byte 3. As written the copy is not bounded by the buffer; `checked`
      selects the corrected reader, which refuses a packet that does not end
      before the CRC bytes. */
  function RciReadFrom(checked: bool, intLow: bool, readOk: bool, frame: seq<u8>): (r: RciReply)
    requires |frame| == RCI_PKT_LEN
  {
    if !intLow || !readOk then RciReply(0, [], false)
    else
      var offset := if frame[0] == 0 then 1 else 0;
      var payloadLen := UCI_HDR_LEN + frame[3 + offset];
      if !CrcMatches(frame) then RciReply(0, [], false)
      else if checked && offset + payloadLen > RCI_PKT_LEN - 2 then RciReply(0, [], false)
      else if offset + payloadLen <= RCI_PKT_LEN then RciReply(payloadLen, frame[offset..offset + payloadLen], false)
      else RciReply(payloadLen, frame[offset..], true)
  }

  /** A frame is accepted only when the handshake and the read succeed and
      the CRC matches; the checked reader never runs past the buffer and
      hands out exactly the count it reports. */
  lemma RciReadAccepts(checked: bool, intLow: bool, readOk: bool, frame: seq<u8>)
    requires |frame| == RCI_PKT_LEN
    ensures var r := RciReadFrom(checked, intLow, readOk, frame);
            (r.bytesRead != 0 ==> intLow && readOk && CrcMatches(frame)) &&
            (checked ==> !r.overRead && r.bytesRead == |r.rsp| && r.bytesRead <= RCI_PKT_LEN - 2)
  {
  }

  /** As written: a packet announcing 255 payload bytes in a frame whose CRC
      is right makes the reader copy 259 bytes out of a 256-byte buffer. */
  lemma RciReadOverRuns()
    ensures var f := RciFrame([0x40, 0x01, 0x00, 0xFF]);
            var r := RciReadFrom(false, true, true, f);
            r.overRead && r.bytesRead == 259
  {
    var d: seq<u8> := [0x40, 0x01, 0x00, 0xFF];
    WrittenFrameChecks(d);
    var f := RciFrame(d);
    assert f[0] == 0x40 && f[3] == 0xFF;
  }

  /** Corrected: a packet written with `phNxpUwb_RciWrite` comes back whole
      from the checked reader, as long as it does not start with the 0x00
      the reader takes for padding. */
  lemma RciRoundTrip(data: seq<u8>)
    requires UCI_HDR_LEN <= |data| <= RCI_PKT_LEN - 2
    requires data[0] != 0 && |data| == UCI_HDR_LEN + data[3]
    ensures RciReadFrom(true, true, true, RciFrame(data)) == RciReply(|data|, data, false)
  {
    WrittenFrameChecks(data);
    var f := RciFrame(data);
    assert f[0] == data[0] && f[3] == data[3];
    assert f[..|data|] == data;
  }

  /** The length a UCI header announces as `phNxpUwb_UciRead` computes it:
      byte 3, or byte 3 shifted up over byte 2 when bit 0x80 of byte 1 is
      set. */
  function UciLength(h: seq<u8>): (n: nat)
    requires |h| >= UCI_HDR_LEN
  {
    if h[1] >= 0x80 then (h[3] as nat) * 0x100 + h[2] else h[3]
  }

  /** The transport reads the same length the UCI layer decodes. */
  lemma UciLengthAgrees(h: seq<u8>)
    requires |h| >= UCI_HDR_LEN
    ensures UciLength(h) == UciDefs.PayloadLength(h)
  {
    UciDefs.ExtendedLengthIsTopBit(h[1]);
  }

  /** The header among the five bytes of the first read: after a 0x00 pad
      byte, or the first four otherwise. */
  function Header(dummy: seq<u8>): (h: seq<u8>)
    requires |dummy| == UCI_HDR_LEN + 1
    ensures |h| == UCI_HDR_LEN
  {
    if dummy[0] == 0 then dummy[1..] else dummy[..UCI_HDR_LEN]
  }

  /** What the chip and the OS answer during one pass of `phNxpUwb_UciRead`
      from its `start` label: whether the IRQ semaphore was signalled in
      time, whether INT_n was still low once selected, the header read and
      its five bytes, the payload read and its bytes, and whether the
      back-off reports a timeout should this pass have to retry. */
  datatype ReadPass = ReadPass(irqSignalled: bool, intLow: bool, headerOk: bool, dummy: seq<u8>,
                               payloadOk: bool, payload: seq<u8>, timedOut: bool)

  predicate PassFits(p: ReadPass)
  {
    |p.dummy| == UCI_HDR_LEN + 1 && |p.payload| == UciLength(Header(p.dummy))
  }

  predicate AllFit(passes: seq<ReadPass>)
  {
    forall k :: 0 <= k < |passes| ==> PassFits(passes[k])
  }

  /** Where a pass leaves the read: back at `start`, or returning. */
  datatype Outcome = Again(count: u16, rsp: seq<u8>) | Return(count: u16, rsp: seq<u8>)

  /** One pass of `phNxpUwb_UciRead` from count `count` and response buffer
      `rsp`. The count grows by the header as soon as one is read, also for
      an empty packet that sends the read back to `start`. */
  function ReadPassStep(p: ReadPass, count: u16, rsp: seq<u8>): Outcome
    requires PassFits(p)
  {
    if !p.irqSignalled || !p.intLow then
      if p.timedOut then Return(count, rsp) else Again(count, rsp)
    else if !p.headerOk || p.dummy[0] == 0xFF then Return(count, rsp)
    else
      var h := Header(p.dummy);
      var withHeader := (count + UCI_HDR_LEN) % 0x1_0000;
      if h[0] == 0 then
        if p.timedOut then Return(withHeader, h) else Again(withHeader, h)
      else if UciLength(h) != 0 && p.payloadOk then
        Return((withHeader + UciLength(h)) % 0x1_0000, h + p.payload)
      else Return(withHeader, h)
  }

  /** `phNxpUwb_UciRead` over successive passes. As written the count is
      carried back to `start`; `intended` starts it again from zero there. */
  function ReadFrom(passes: seq<ReadPass>, count: u16, rsp: seq<u8>, intended: bool): Outcome
    requires AllFit(passes)
    decreases |passes|
  {
    if passes == [] then Again(count, rsp)
    else
      match ReadPassStep(passes[0], count, rsp)
      case Return(c, r) => Return(c, r)
      case Again(c, r) => ReadFrom(passes[1..], if intended then 0 else c, r, intended)
  }

  /** A packet read in one pass after a pad byte arrives whole, and the
      count is its length. */
  lemma PaddedPacketRead(p: ReadPass, intended: bool)
    requires PassFits(p) && p.irqSignalled && p.intLow && p.headerOk && p.payloadOk
    requires p.dummy[0] == 0 && p.dummy[1] != 0
    ensures ReadFrom([p], 0, [], intended) == Return(|p.dummy[1..] + p.payload| % 0x1_0000, p.dummy[1..] + p.payload)
  {
  }

  /** As written: an empty packet before the real one leaves its four header
      bytes in the count, so the caller is told of four bytes more than the
      packet holds. */
  lemma EmptyPacketInflatesCount(empty: ReadPass, p: ReadPass)
    requires PassFits(empty) && empty.irqSignalled && empty.intLow && empty.headerOk && !empty.timedOut
    requires empty.dummy == [0, 0, 0, 0, 0]
    requires PassFits(p) && p.irqSignalled && p.intLow && p.headerOk && p.payloadOk
    requires p.dummy == [0, 0x40, 0x01, 0x00, 0x02]
    ensures var r := ReadFrom([empty, p], 0, [], false);
            r == Return(10, [0x40, 0x01, 0x00, 0x02] + p.payload) && |r.rsp| == 6
  {
    assert [empty, p][1..] == [p];
  }

  /** Corrected: with the count restarted at `start`, a read that returns a
      nonzero count returns the length of the bytes it delivered. */
  lemma {:induction false} IntendedCountIsPacket(passes: seq<ReadPass>, rsp: seq<u8>)
    requires AllFit(passes)
    ensures var r := ReadFrom(passes, 0, rsp, true);
            r.Return? && r.count != 0 ==> r.count == |r.rsp| % 0x1_0000
  {
    if passes != [] {
      var s := ReadPassStep(passes[0], 0, rsp);
      if s.Again? {
        IntendedCountIsPacket(passes[1..], s.rsp);
      }
    }
  }

  /** What the chip and the OS answer during one pass of `phNxpUwb_UciWrite`
      from its `start` label: INT_n low (the chip wants to talk first), RDY
      high before selecting, RDY signalled once selected, the SPI write, and
      whether the back-off reports a timeout should this pass have to retry. */
  datatype WritePass = WritePass(intLow: bool, rdyHigh: bool, rdySignalled: bool, writeOk: bool, timedOut: bool)

  /** The count a write reports, and whether the data went out. */
  datatype WriteReply = Retry | WriteReply(bytesWrote: int, sent: bool)

  /** One pass of `phNxpUwb_UciWrite` for `len` bytes. A RDY line that stays
      low and a failed SPI write both jump to `unlockmutex`, which reports
      `len`; `intended` reports -1 for them. */
  function WritePassStep(p: WritePass, len: nat, intended: bool): WriteReply
  {
    if p.intLow then (if p.timedOut then WriteReply(-1, false) else Retry)
    else if !p.rdyHigh then WriteReply(if intended then -1 else len, false)
    else if !p.rdySignalled then (if p.timedOut then WriteReply(-1, false) else Retry)
    else if !p.writeOk then WriteReply(if intended then -1 else len, false)
    else WriteReply(len, true)
  }

  /** `phNxpUwb_UciWrite` over successive passes: no data or no length is
      -1 straight away. */
  function WriteFrom(data: Option<seq<u8>>, passes: seq<WritePass>, intended: bool): WriteReply
  {
    if data.None? || data.value == [] then WriteReply(-1, false)
    else if passes == [] then Retry
    else
      var r := WritePassStep(passes[0], |data.value|, intended);
      if r.Retry? then WriteFrom(data, passes[1..], intended) else r
  }

  /** As written: a failed SPI transfer is reported as all bytes written. */
  lemma FailedWriteReportsLength(data: seq<u8>, p: WritePass)
    requires data != [] && !p.intLow && p.rdyHigh && p.rdySignalled && !p.writeOk
    ensures WriteFrom(Some(data), [p], false) == WriteReply(|data|, false)
  {
  }

  /** Corrected: a write reports a count exactly when the data went out, and
      then the count is the length. */
  lemma {:induction false} IntendedWriteReportsOnlySent(data: Option<seq<u8>>, passes: seq<WritePass>)
    ensures var r := WriteFrom(data, passes, true);
            r.WriteReply? ==> (r.sent <==> r.bytesWrote >= 0) && (r.sent ==> r.bytesWrote == |data.value| > 0)
  {
    if data.Some? && data.value != [] && passes != [] {
      if WritePassStep(passes[0], |data.value|, true).Retry? {
        IntendedWriteReportsOnlySent(data, passes[1..]);
      }
    }
  }

  /** One round of the inner loop of `crc16_xmodem_init` advances
      `temp ^ a` by one round of the polynomial. */
  lemma EntryRound(temp: seq<bool>, a: seq<bool>)
    requires |temp| == 16 && |a| == 16
    ensures var t := if Xor(temp, a)[0] then Xor(Shl(temp), POLYNOMIAL) else Shl(temp);
            Xor(t, Shl(a)) == Round(Xor(temp, a))
  {
  }

  /** `a <<= 1` on `i << 8` shifted `j` times. */
  lemma ShiftedUp(start: seq<bool>, j: nat)
    requires |start| == 16 && j < 8
    ensures Shl(start[j..] + ZeroBits(j)) == start[j + 1..] + ZeroBits(j + 1)
  {
  }

  /** After eight shifts `i << 8` is zero, so `temp` holds the rounds. */
  lemma ShiftedOut(i: u8, temp: seq<bool>, a: seq<bool>)
    requires |temp| == 16 && a == (Byte(i) + ZeroBits(8))[8..] + ZeroBits(8)
    ensures Xor(temp, a) == temp
  {
    assert a == ZeroBits(16);
  }

  /** The transport's CRC table, `gCrcXmodemTable`. */
  class Transport {
    const crcTable: array<seq<bool>>

    constructor()
      ensures crcTable.Length == 256 && fresh(crcTable)
    {
      crcTable := new seq<bool>[256](_ => ZeroBits(16));
    }

    predicate TableReady()
      reads this, crcTable
    {
      crcTable.Length == 256 && forall i :: 0 <= i < 256 ==> crcTable[i] == TableEntry(i)
    }

    /** The inner loop of `crc16_xmodem_init`: `a` starts as `i << 8` and
        moves up a bit per round while `temp` collects the polynomial
        whenever the top bit of `temp ^ a` is set. */
    static method FillEntry(i: u8) returns (temp: seq<bool>)
      ensures temp == TableEntry(i)
    {
      temp := ZeroBits(16);
      var a := Byte(i) + ZeroBits(8);
      ghost var start := a;
      for j := 0 to 8
        invariant |temp| == 16 && |a| == 16
        invariant Xor(temp, a) == Rounds(start, j)
        invariant a == start[j..] + ZeroBits(j)
      {
        EntryRound(temp, a);
        if Xor(temp, a)[0] {
          temp := Xor(Shl(temp), POLYNOMIAL);
        } else {
          temp := Shl(temp);
        }
        ShiftedUp(start, j);
        a := Shl(a);
      }
      ShiftedOut(i, temp, a);
    }

    /** `crc16_xmodem_init`: entry `i` of the table for every byte `i`. */
    method InitTable()
      requires crcTable.Length == 256
      modifies crcTable
      ensures TableReady()
    {
      for i := 0 to 256
        invariant forall k :: 0 <= k < i ==> crcTable[k] == TableEntry(k)
      {
        var e := FillEntry(i);
        crcTable[i] := e;
      }
    }

    /** `crc16_xmodem`: from 0, each byte shifts the register up by eight
        and xors in the table entry its index selects. */
    method Crc16(input: seq<u8>) returns (crc: seq<bool>)
      requires TableReady()
      ensures crc == Crc(input)
    {
      crc := ZeroBits(16);
      for i := 0 to |input|
        invariant crc == Crc(input[..i])
      {
        assert input[..i + 1][..i] == input[..i];
        crc := Xor(crc[8..] + ZeroBits(8), crcTable[Index(crc, input[i])]);
      }
      assert input[..|input|] == input;
    }

    /** `phNxpUwb_MemCopy(rci_write_buffer, data, len)` into the zeroed
        frame buffer. */
    static method CopyIn(buf: array<u8>, d: seq<u8>)
      requires buf.Length == RCI_PKT_LEN && |d| <= RCI_PKT_LEN
      requires forall m :: 0 <= m < RCI_PKT_LEN ==> buf[m] == 0
      modifies buf
      ensures buf[..] == d + Zeros(RCI_PKT_LEN - |d|)
    {
      for k := 0 to |d|
        invariant buf[..k] == d[..k]
        invariant forall m :: k <= m < RCI_PKT_LEN ==> buf[m] == 0
      {
        buf[k] := d[k];
      }
    }

    /** The CRC of the first 254 bytes, low byte first, into the last two. */
    static method StoreCrc(buf: array<u8>, crc: seq<bool>)
      requires buf.Length == RCI_PKT_LEN && crc == Crc(buf[..RCI_PKT_LEN - 2])
      modifies buf
      ensures buf[..] == old(buf[..RCI_PKT_LEN - 2]) + [Low(crc), High(crc)]
    {
      buf[RCI_PKT_LEN - 2] := Low(crc);
      buf[RCI_PKT_LEN - 1] := High(crc);
    }

    /** `phNxpUwb_RciWrite`: no data or no length fails; otherwise the frame
        is built and, when RDY went low within the wait, sent, and the status
        is the SPI write's. Returns the frame put on the bus, if any. */
    method RciWrite(data: Option<seq<u8>>, rdyLow: bool, writeOk: bool) returns (status: Status, sent: Option<seq<u8>>)
      requires TableReady()
      requires data.Some? ==> |data.value| <= RCI_PKT_LEN
      ensures data.None? || data.value == [] ==> status == Failure && sent == None
      ensures data.Some? && data.value != [] ==>
                sent == (if rdyLow then Some(RciFrame(data.value)) else None) &&
                status == (if rdyLow && writeOk then Success else Failure)
    {
      if data.None? || data.value == [] {
        return Failure, None;
      }
      var d := data.value;
      var buf := new u8[RCI_PKT_LEN](_ => 0);
      CopyIn(buf, d);
      var crc := Crc16(buf[..RCI_PKT_LEN - 2]);
      StoreCrc(buf, crc);
      if !rdyLow {
        return Failure, None;
      }
      sent := Some(buf[..]);
      status := if writeOk then Success else Failure;
    }

    /** `phNxpUwb_RciRead` on the frame the SPI read clocked in, checking the
        CRC with the table. */
    method RciRead(checked: bool, intLow: bool, readOk: bool, frame: seq<u8>) returns (bytesRead: nat, rsp: seq<u8>)
      requires TableReady() && |frame| == RCI_PKT_LEN
      ensures var r := RciReadFrom(checked, intLow, readOk, frame);
              bytesRead == r.bytesRead && rsp == r.rsp
    {
      if !intLow || !readOk {
        return 0, [];
      }
      var offset := if frame[0] == 0 then 1 else 0;
      var payloadLen := UCI_HDR_LEN + frame[3 + offset];
      var crc := Crc16(frame[..RCI_PKT_LEN - 2]);
      if Low(crc) != frame[RCI_PKT_LEN - 2] || High(crc) != frame[RCI_PKT_LEN - 1] {
        return 0, [];
      }
      if checked && offset + payloadLen > RCI_PKT_LEN - 2 {
        return 0, [];
      }
      bytesRead := payloadLen;
      rsp := if offset + payloadLen <= RCI_PKT_LEN then frame[offset..offset + payloadLen] else frame[offset..];
    }

    /** `phNxpUwb_UciRead`, pass after pass until one returns. */
    static method UciRead(passes: seq<ReadPass>, intended: bool) returns (bytesRead: u16, rsp: seq<u8>)
      requires AllFit(passes) && ReadFrom(passes, 0, [], intended).Return?
      ensures ReadFrom(passes, 0, [], intended) == Return(bytesRead, rsp)
    {
      bytesRead, rsp := 0, [];
      var i := 0;
      var done := false;
      while !done
        invariant 0 <= i <= |passes|
        invariant done ==> ReadFrom(passes, 0, [], intended) == Return(bytesRead, rsp)
        invariant !done ==> ReadFrom(passes[i..], bytesRead, rsp, intended) == ReadFrom(passes, 0, [], intended)
        decreases |passes| - i
      {
        assert passes[i..][1..] == passes[i + 1..];
        var p := passes[i];
        i := i + 1;
        if !p.irqSignalled || !p.intLow {
          if p.timedOut {
            done := true;
          } else if intended {
            bytesRead := 0;
          }
        } else if !p.headerOk || p.dummy[0] == 0xFF {
          done := true;
        } else {
          rsp := if p.dummy[0] == 0 then p.dummy[1..] else p.dummy[..UCI_HDR_LEN];
          bytesRead := (bytesRead + UCI_HDR_LEN) % 0x1_0000;
          if rsp[0] == 0 {
            if p.timedOut {
              done := true;
            } else if intended {
              bytesRead := 0;
            }
          } else {
            var payloadLen: nat := if rsp[1] >= 0x80 then (rsp[3] as nat) * 0x100 + rsp[2] else rsp[3];
            if payloadLen != 0 && p.payloadOk {
              rsp := rsp + p.payload;
              bytesRead := (bytesRead + payloadLen) % 0x1_0000;
            }
            done := true;
          }
        }
      }
    }

    /** `phNxpUwb_UciWrite`, pass after pass until one returns. */
    static method UciWrite(data: Option<seq<u8>>, passes: seq<WritePass>, intended: bool) returns (bytesWrote: int)
      requires WriteFrom(data, passes, intended).WriteReply?
      ensures bytesWrote == WriteFrom(data, passes, intended).bytesWrote
    {
      if data.None? || data.value == [] {
        return -1;
      }
      var len := |data.value|;
      var i := 0;
      while true
        invariant 0 <= i <= |passes|
        invariant WriteFrom(data, passes[i..], intended) == WriteFrom(data, passes, intended)
        decreases |passes| - i
      {
        assert passes[i..][1..] == passes[i + 1..];
        var p := passes[i];
        i := i + 1;
        if p.intLow {
          if p.timedOut {
            return -1;
          }
        } else if !p.rdyHigh {
          return if intended then -1 else len;
        } else if !p.rdySignalled {
          if p.timedOut {
            return -1;
          }
        } else if !p.writeOk {
          return if intended then -1 else len;
        } else {
          return len;
        }
      }
    }
  }

  /** The frame-level round trip, through the methods: what `RciWrite`
      sends, `RciRead` (checked) gives back. */
  method RciExchange(t: Transport, data: seq<u8>) returns (back: seq<u8>)
    requires t.TableReady()
    requires UCI_HDR_LEN <= |data| <= RCI_PKT_LEN - 2
    requires data[0] != 0 && |data| == UCI_HDR_LEN + data[3]
    ensures back == data
  {
    var status, sent := t.RciWrite(Some(data), true, true);
    var n;
    n, back := t.RciRead(true, true, true, sent.value);
    RciRoundTrip(data);
  }
}
