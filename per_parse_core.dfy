// The PER (packet error rate) log-notification decoder of the SR040 device
// calibration tool: a logger object that walks the TLV records of each PHY
// log notification, classifies the RX status word into error buckets, keeps
// the first-path power samples, compares the received PSDU with the expected
// one and turns the counts into a per-run report.
module PerParseCore {
  import opened Bytes

  const LOG_TAG_RX_STATUS: u8 := 0x00
  const LOG_TAG_STS_INDEX: u8 := 0x09
  const LOG_TAG_RX_FIRST_PATH_INFO: u8 := 0x0B
  const LOG_TAG_RX_PSDU: u8 := 0x07

  const LOG_TAG_RX_STATUS_LENGTH: u8 := 2
  const LOG_TAG_STS_INDEX_LENGTH: u8 := 4
  const LOG_TAG_RX_FIRST_PATH_INFO_LENGTH: u8 := 40

  /** Bit positions of the error mask (the RX status word shifted right by 2). */
  const BIT_TOA_DETECT_FAILED: nat := 0
  const BIT_SIGNAL_LOST: nat := 1
  const BIT_PRMBL_TIMEOUT: nat := 2
  const BIT_SFD_TIMEOUT: nat := 3
  const BIT_SECDED_DECODE_FAILURE: nat := 4
  const BIT_RS_DECODE_FAILURE: nat := 5
  const BIT_DECODE_CHAIN_FAILURE: nat := 6
  const BIT_DATA_BUFFER_OVERFLOW: nat := 7
  const BIT_STS_MISMATCH: nat := 8

  /** The test-mode frame type the configuration selects. */
  datatype FrameType = SP0 | SP3

  /** The RXERROR dictionary of the logger. */
  datatype ErrorCounts = ErrorCounts(ok: int, timeout: int, stsFailed: int, toaFailed: int, phyDecodingFailed: int)

  /** Everything the logger accumulates. `firstPathPower` holds the first-path
      power samples read as signed 16-bit values (`FirstPathPower`); the tool
      itself keeps `FirstPathPowerAsWritten` of the same bytes, one more for a
      negative power, and builds its RSSI list from that. */
  datatype Stats = Stats(ntfCount: int, rxntfCount: int, psduErrors: int, rxError: ErrorCounts, firstPathPower: seq<int>)

  /** The record `printTestStats` writes (the PER column as a rational). */
  datatype Record = Record(numFrames: int, attenuation: int, rxTimeouts: int, rxDecodingFails: int,
                           rxToaFails: int, rxStsFails: int, rxPsduFails: int, rxErrorsTotal: int,
                           perPercent: real)

  /** Where the TLV walk stands: the statistics so far, the read index, the
      last RX status verdict, the last PSDU seen and whether Python raised
      IndexError (which ends the call). */
  datatype Cursor = Cursor(stats: Stats, index: nat, rxOk: bool, psdu: seq<u8>, raised: bool)

  function ZeroCounts(): ErrorCounts { ErrorCounts(0, 0, 0, 0, 0) }

  function ZeroStats(): Stats { Stats(0, 0, 0, ZeroCounts(), []) }

  /** Python's `p[i:j]`: slicing never fails, it is cut at the end of the list. */
  function Slice(p: seq<u8>, i: nat, j: nat): (r: seq<u8>)
    requires i <= j
    ensures |r| == if i >= |p| then 0 else if j >= |p| then |p| - i else j - i
    ensures forall k :: 0 <= k < |r| ==> r[k] == p[i + k]
  {
    if i >= |p| then [] else if j >= |p| then p[i..] else p[i..j]
  }

  /** The error mask: the RX status word read little-endian, without its two
      low flag bits (ready and data-available). */
  function RxErrorMask(b0: u8, b1: u8): bv16
  {
    (LE16(b0, b1) / 4) as bv16
  }

  predicate TimeoutBits(mask: bv16)
  {
    Bit16(mask, BIT_SIGNAL_LOST) || Bit16(mask, BIT_PRMBL_TIMEOUT) || Bit16(mask, BIT_SFD_TIMEOUT)
  }

  predicate DecodingBits(mask: bv16)
  {
    Bit16(mask, BIT_SECDED_DECODE_FAILURE) || Bit16(mask, BIT_RS_DECODE_FAILURE) ||
    Bit16(mask, BIT_DECODE_CHAIN_FAILURE) || Bit16(mask, BIT_DATA_BUFFER_OVERFLOW)
  }

  /** The classification `_handleTagRxStatus` applies to the error mask.
      A zero mask is the one OK outcome; otherwise each of the four buckets
      moves by at most one, several may move together, every one of the nine
      named bits lands in a bucket, and the bits above them move none. */
  function ClassifyRxStatus(e: ErrorCounts, mask: bv16): (r: (ErrorCounts, bool))
    ensures r.1 <==> mask == 0
    ensures mask == 0 ==> r.0 == e.(ok := e.ok + 1)
    ensures mask != 0 ==> r.0.ok == e.ok
    ensures mask != 0 ==> r.0.toaFailed == e.toaFailed + (if Bit16(mask, BIT_TOA_DETECT_FAILED) then 1 else 0)
    ensures mask != 0 ==> r.0.timeout == e.timeout + (if TimeoutBits(mask) then 1 else 0)
    ensures mask != 0 ==> r.0.phyDecodingFailed == e.phyDecodingFailed + (if DecodingBits(mask) then 1 else 0)
    ensures mask != 0 ==> r.0.stsFailed == e.stsFailed + (if Bit16(mask, BIT_STS_MISMATCH) then 1 else 0)
    ensures mask & 0x1FF != 0 ==> r.0 != e
    ensures mask != 0 && mask & 0x1FF == 0 ==> r.0 == e
  {
    if mask == 0 then
      (e.(ok := e.ok + 1), true)
    else
      var toa := if mask & 0x1 != 0 then 1 else 0;
      var timeout := if mask & 0x2 != 0 || mask & 0x4 != 0 || mask & 0x8 != 0 then 1 else 0;
      var phy := if mask & 0x10 != 0 || mask & 0x20 != 0 || mask & 0x40 != 0 || mask & 0x80 != 0 then 1 else 0;
      var sts := if mask & 0x100 != 0 then 1 else 0;
      (ErrorCounts(e.ok, e.timeout + timeout, e.stsFailed + sts, e.toaFailed + toa, e.phyDecodingFailed + phy), false)
  }

  /** `_handleTagRxStatus`: counts the RX notification, then reads the two
      status bytes (IndexError when the slice is short). */
  function RxStatusTag(c: Cursor, p: seq<u8>, index: nat, length: nat): (r: Cursor)
  {
    var s1 := c.stats.(rxntfCount := c.stats.rxntfCount + 1);
    var v := Slice(p, index, index + length);
    if |v| < 2 then c.(stats := s1, raised := true)
    else
      var (e, ok) := ClassifyRxStatus(c.stats.rxError, RxErrorMask(v[0], v[1]));
      c.(stats := s1.(rxError := e), index := index + length, rxOk := ok)
  }

  /** The first-path power field: bytes 22 and 23 of the record, little-endian,
      read as two's complement. */
  function FirstPathPower(lo: u8, hi: u8): (r: int)
    ensures -0x8000 <= r < 0x8000
    ensures (r + 0x1_0000) % 0x1_0000 == LE16(lo, hi)
  {
    SignExtend16(LE16(lo, hi))
  }

  /** The same field as the tool computes it: the raw value is or-ed under
      0xFFFF0000 and 0xFFFFFFFF is subtracted, whatever the sign bit says. */
  function FirstPathPowerAsWritten(lo: u8, hi: u8): (r: int)
  {
    (0xFFFF * 0x1_0000 + LE16(lo, hi)) - 0xFFFF_FFFF
  }

  /** The as-written conversion is the raw value minus 0xFFFF: one too high for
      every negative power and negative for every positive one. */
  lemma FirstPathPowerAsWrittenIsOffByOne(lo: u8, hi: u8)
    ensures FirstPathPowerAsWritten(lo, hi) == LE16(lo, hi) - 0xFFFF
    ensures hi >= 0x80 ==> FirstPathPowerAsWritten(lo, hi) == FirstPathPower(lo, hi) + 1
    ensures hi < 0x80 ==> FirstPathPowerAsWritten(lo, hi) < 0 <= FirstPathPower(lo, hi)
  {
  }

  /** The bytes DC CD (0xCDDC) show it: the tool gets -12835, the value is -12836. */
  lemma FirstPathPowerExample()
    ensures FirstPathPowerAsWritten(0xDC, 0xCD) == -12835
    ensures FirstPathPower(0xDC, 0xCD) == -12836
  {
  }

  /** `_handleTagRxFirstPathInfo`: keeps the first-path power of a record long
      enough to hold it (IndexError otherwise), in its corrected signed form. */
  function FirstPathTag(c: Cursor, p: seq<u8>, index: nat, length: nat): (r: Cursor)
  {
    var v := Slice(p, index, index + length);
    if |v| < 24 then c.(raised := true)
    else
      var s := c.stats.(firstPathPower := c.stats.firstPathPower + [FirstPathPower(v[22], v[23])]);
      c.(stats := s, index := index + length)
  }

  /** One iteration of the `while index < len(log_payload)` loop of `handleLogNtf`. */
  function Step(p: seq<u8>, c: Cursor): (r: Cursor)
    requires c.index < |p|
    ensures !r.raised ==> r.index >= c.index + 2
  {
    var i := c.index + 1;
    if i >= |p| then c.(raised := true)
    else
      var tag, length := p[c.index], p[i];
      var v := i + 1;
      var skip := c.(index := v + length);
      if tag == LOG_TAG_RX_STATUS then
        if length != LOG_TAG_RX_STATUS_LENGTH then skip else RxStatusTag(c, p, v, length)
      else if tag == LOG_TAG_STS_INDEX then
        if length != LOG_TAG_STS_INDEX_LENGTH then skip
        else if |Slice(p, v, v + length)| < 4 then c.(raised := true)
        else skip
      else if tag == LOG_TAG_RX_FIRST_PATH_INFO then
        if length != LOG_TAG_RX_FIRST_PATH_INFO_LENGTH then skip else FirstPathTag(c, p, v, length)
      else if tag == LOG_TAG_RX_PSDU then
        if length == 0 then skip else skip.(psdu := Slice(p, v, v + length))
      else skip
  }

  /** The TLV walk, record after record, until the payload is consumed or an
      IndexError ends it. */
  function Walk(p: seq<u8>, c: Cursor): (r: Cursor)
    decreases if c.raised then 0 else 1, |p| - c.index
  {
    if c.raised || c.index >= |p| then c else Walk(p, Step(p, c))
  }

  /** `handleLogNtf` on the statistics: count the notification, skip the
      `num_params` byte, walk the records and, for SP0 frames whose last RX
      status was OK, count a PSDU mismatch. The flag says whether IndexError
      escaped. */
  function LogNtf(s: Stats, p: seq<u8>, frameType: FrameType, txPsdu: seq<u8>): (r: (Stats, bool))
  {
    var s1 := s.(ntfCount := s.ntfCount + 1);
    if |p| == 0 then (s1, true)
    else
      var w := Walk(p, Cursor(s1, 1, false, [], false));
      if w.raised then (w.stats, true)
      else if frameType == SP0 && w.rxOk && txPsdu != w.psdu then
        (w.stats.(psduErrors := w.stats.psduErrors + 1), false)
      else (w.stats, false)
  }

  /** The counter invariant the logger keeps: counts are non-negative, no bucket
      together with OK exceeds the RX notifications, and PSDU errors are only
      ever counted on top of an OK status. */
  predicate Consistent(s: Stats)
  {
    var e := s.rxError;
    0 <= s.ntfCount && 0 <= s.psduErrors && 0 <= e.ok && 0 <= e.timeout && 0 <= e.stsFailed &&
    0 <= e.toaFailed && 0 <= e.phyDecodingFailed &&
    e.ok + e.timeout <= s.rxntfCount && e.ok + e.stsFailed <= s.rxntfCount &&
    e.ok + e.toaFailed <= s.rxntfCount && e.ok + e.phyDecodingFailed <= s.rxntfCount &&
    s.psduErrors <= e.ok
  }

  /** The walk leaves the notification count alone, keeps the invariant,
      never lowers OK, and an OK verdict it reports was counted during it. */
  lemma {:induction false} WalkKeeps(p: seq<u8>, c: Cursor, base: int)
    requires Consistent(c.stats) && c.stats.rxError.ok >= base
    requires c.rxOk ==> c.stats.rxError.ok > base
    ensures Walk(p, c).stats.ntfCount == c.stats.ntfCount
    ensures Walk(p, c).stats.psduErrors == c.stats.psduErrors
    ensures Consistent(Walk(p, c).stats)
    ensures Walk(p, c).stats.rxError.ok >= c.stats.rxError.ok
    ensures Walk(p, c).rxOk ==> Walk(p, c).stats.rxError.ok > base
    decreases if c.raised then 0 else 1, |p| - c.index
  {
    if !(c.raised || c.index >= |p|) {
      StepKeeps(p, c, base);
      WalkKeeps(p, Step(p, c), base);
    }
  }

  /** Helper: one record keeps what `WalkKeeps` promises of the walk. */
  lemma StepKeeps(p: seq<u8>, c: Cursor, base: int)
    requires c.index < |p|
    requires Consistent(c.stats) && c.stats.rxError.ok >= base
    requires c.rxOk ==> c.stats.rxError.ok > base
    ensures var r := Step(p, c);
            && r.stats.ntfCount == c.stats.ntfCount && r.stats.psduErrors == c.stats.psduErrors
            && Consistent(r.stats) && r.stats.rxError.ok >= c.stats.rxError.ok
            && (r.rxOk ==> r.stats.rxError.ok > base)
  {
    var r := Step(p, c);
    var i := c.index + 1;
    if i < |p| && p[c.index] == LOG_TAG_RX_STATUS && p[i] == LOG_TAG_RX_STATUS_LENGTH {
      assert r == RxStatusTag(c, p, i + 1, p[i] as nat);
      RxStatusTagKeeps(c, p, i + 1, p[i] as nat, base);
    } else {
      assert r.rxOk == c.rxOk && r.stats == c.stats.(firstPathPower := r.stats.firstPathPower);
    }
  }

  /** Helper: an RX_STATUS record keeps the counter invariant. */
  lemma RxStatusTagKeeps(c: Cursor, p: seq<u8>, index: nat, length: nat, base: int)
    requires Consistent(c.stats) && c.stats.rxError.ok >= base
    requires c.rxOk ==> c.stats.rxError.ok > base
    ensures var r := RxStatusTag(c, p, index, length);
            && r.stats.ntfCount == c.stats.ntfCount && r.stats.psduErrors == c.stats.psduErrors
            && Consistent(r.stats) && r.stats.rxError.ok >= c.stats.rxError.ok
            && (r.rxOk ==> r.stats.rxError.ok > base)
  {
  }

  /** Every call counts exactly one notification and keeps the invariant. */
  lemma LogNtfKeeps(s: Stats, p: seq<u8>, frameType: FrameType, txPsdu: seq<u8>)
    requires Consistent(s)
    ensures LogNtf(s, p, frameType, txPsdu).0.ntfCount == s.ntfCount + 1
    ensures Consistent(LogNtf(s, p, frameType, txPsdu).0)
  {
    var s1 := s.(ntfCount := s.ntfCount + 1);
    if |p| > 0 {
      WalkKeeps(p, Cursor(s1, 1, false, [], false), s.rxError.ok);
    }
  }

  /** An RX_STATUS record whose length is not 2 is stepped over by its length
      and changes no counter. */
  lemma RxStatusLengthMismatchSkips(p: seq<u8>, c: Cursor)
    requires c.index + 1 < |p| && !c.raised
    requires p[c.index] == LOG_TAG_RX_STATUS && p[c.index + 1] != LOG_TAG_RX_STATUS_LENGTH
    ensures Step(p, c) == c.(index := c.index + 2 + p[c.index + 1])
  {
  }

  /** A record with a tag the tool does not know is stepped over by its length
      and changes nothing else. */
  lemma UnknownTagSkips(p: seq<u8>, c: Cursor)
    requires c.index + 1 < |p| && !c.raised
    requires p[c.index] !in {LOG_TAG_RX_STATUS, LOG_TAG_STS_INDEX, LOG_TAG_RX_FIRST_PATH_INFO, LOG_TAG_RX_PSDU}
    ensures Step(p, c) == c.(index := c.index + 2 + p[c.index + 1])
  {
  }

  /** The record `printTestStats` computes from the statistics. */
  function Report(s: Stats): (r: Record)
    ensures r.numFrames == s.rxntfCount && r.attenuation == 0
    ensures r.rxErrorsTotal == s.rxntfCount - s.rxError.ok + s.psduErrors
    ensures s.rxntfCount == 0 ==> r.perPercent == 0.0
  {
    var total := s.rxntfCount - s.rxError.ok + s.psduErrors;
    Record(s.rxntfCount, 0, s.rxError.timeout, s.rxError.phyDecodingFailed, s.rxError.toaFailed,
           s.rxError.stsFailed, s.psduErrors, total,
           if s.rxntfCount == 0 then 0.0 else (total as real / s.rxntfCount as real) * 100.0)
  }

  /** On consistent statistics the error total lies between the PSDU errors
      and the frame count, so the PER is a percentage. */
  lemma ReportBounds(s: Stats)
    requires Consistent(s)
    ensures s.psduErrors <= Report(s).rxErrorsTotal <= s.rxntfCount
    ensures 0.0 <= Report(s).perPercent <= 100.0
  {
    var total := s.rxntfCount - s.rxError.ok + s.psduErrors;
    if s.rxntfCount > 0 {
      PercentBounds(total as real, s.rxntfCount as real);
    }
  }

  /** Helper: a part of a positive whole is between 0 and 100 percent of it. */
  lemma PercentBounds(x: real, n: real)
    requires 0.0 <= x <= n && n > 0.0
    ensures 0.0 <= (x / n) * 100.0 <= 100.0
  {
    assert x / n <= 1.0 by {
      assert x <= n * 1.0;
    }
  }

  /** Ten frames, seven OK and one PSDU error make four errors and a PER of 40. */
  lemma ReportExample()
    ensures var r := Report(Stats(10, 10, 1, ErrorCounts(7, 0, 0, 0, 0), []));
            r.rxErrorsTotal == 4 && r.perPercent == 40.0
  {
  }

  /** The value the tool's `_resetLogStats` puts in each RXERROR entry, and the
      result of `+= 1` on it (None: Python raises TypeError). */
  datatype PyValue = PyInt(i: int) | PyTuple(items: seq<int>)

  function PyAddOne(v: PyValue): (r: Option<PyValue>)
    ensures v.PyInt? <==> r.Some?
  {
    match v
    case PyInt(i) => Some(PyInt(i + 1))
    case PyTuple(_) => None
  }

  /** `self.RXERROR["OK"] = 0,` stores the one-element tuple `(0,)`. */
  function ResetEntryAsWritten(): PyValue
  {
    PyTuple([0])
  }

  /** The entry the reset is meant to store. */
  function ResetEntry(): PyValue
  {
    PyInt(0)
  }

  /** After the as-written reset the next classified RX status raises
      TypeError; after the intended one it counts from one. */
  lemma ResetAsWrittenBreaksCounting()
    ensures PyAddOne(ResetEntryAsWritten()) == None
    ensures PyAddOne(ResetEntry()) == Some(PyInt(1))
  {
  }

  /** The logger object of the tool; its configuration (frame type and the
      transmitted PSDU) is fixed when it is created. */
  class UciLogger {
    var ntfCount: int
    var rxntfCount: int
    var psduErrors: int
    var rxError: ErrorCounts
    var firstPathPower: seq<int>
    const frameType: FrameType
    const txPsdu: seq<u8>

    function Snapshot(): Stats
      reads this
    {
      Stats(ntfCount, rxntfCount, psduErrors, rxError, firstPathPower)
    }

    constructor (frameType: FrameType, txPsdu: seq<u8>)
      ensures Snapshot() == ZeroStats()
      ensures this.frameType == frameType && this.txPsdu == txPsdu
    {
      ntfCount, rxntfCount, psduErrors := 0, 0, 0;
      rxError := ZeroCounts();
      firstPathPower := [];
      this.frameType, this.txPsdu := frameType, txPsdu;
    }

    /** `_resetLogStats`, storing integer zeros. */
    method ResetLogStats()
      modifies this
      ensures Snapshot() == ZeroStats()
    {
      ntfCount, rxntfCount, psduErrors := 0, 0, 0;
      rxError := ZeroCounts();
      firstPathPower := [];
    }

    /** `printTestStats`: the record of the statistics so far, then a reset. */
    method PrintTestStats() returns (record: Record)
      modifies this
      ensures record == Report(old(Snapshot()))
      ensures Snapshot() == ZeroStats()
    {
      var total := rxntfCount - rxError.ok + psduErrors;
      var per := 0.0;
      if rxntfCount != 0 {
        per := (total as real / rxntfCount as real) * 100.0;
      }
      record := Record(rxntfCount, 0, rxError.timeout, rxError.phyDecodingFailed, rxError.toaFailed,
                       rxError.stsFailed, psduErrors, total, per);
      ResetLogStats();
    }

    /** `_handleTagRxStatus` on the object. */
    method HandleTagRxStatus(p: seq<u8>, index: nat, length: nat) returns (next: nat, rxOk: bool, raised: bool)
      modifies this
      ensures var r := RxStatusTag(Cursor(old(Snapshot()), index, false, [], false), p, index, length);
              Snapshot() == r.stats && raised == r.raised && (!raised ==> next == r.index && rxOk == r.rxOk)
    {
      rxntfCount := rxntfCount + 1;
      var value := Slice(p, index, index + length);
      if |value| < 2 {
        return index, false, true;
      }
      var e, ok := ClassifyRxStatus(rxError, RxErrorMask(value[0], value[1])).0,
                   ClassifyRxStatus(rxError, RxErrorMask(value[0], value[1])).1;
      rxError := e;
      next, rxOk, raised := index + length, ok, false;
    }

    /** `_handleTagRxFirstPathInfo` on the object. */
    method HandleTagRxFirstPathInfo(p: seq<u8>, index: nat, length: nat) returns (next: nat, raised: bool)
      modifies this
      ensures var r := FirstPathTag(Cursor(old(Snapshot()), index, false, [], false), p, index, length);
              Snapshot() == r.stats && raised == r.raised && (!raised ==> next == r.index)
    {
      var value := Slice(p, index, index + length);
      if |value| < 24 {
        return index, true;
      }
      firstPathPower := firstPathPower + [FirstPathPower(value[22], value[23])];
      next, raised := index + length, false;
    }

    /** One pass of the record loop of `handleLogNtf`: read a tag and a
        length at `index` and dispatch on the tag. */
    method HandleRecord(logPayload: seq<u8>, index0: nat, rxOk0: bool, rxPsdu0: seq<u8>)
      returns (index: nat, rxOk: bool, rxPsdu: seq<u8>, raised: bool)
      requires index0 < |logPayload|
      modifies this
      ensures var r := Step(logPayload, Cursor(old(Snapshot()), index0, rxOk0, rxPsdu0, false));
              Snapshot() == r.stats && raised == r.raised &&
              (!raised ==> index == r.index && rxOk == r.rxOk && rxPsdu == r.psdu)
    {
      index, rxOk, rxPsdu, raised := index0, rxOk0, rxPsdu0, false;
      var tag := logPayload[index];
      index := index + 1;
      if index >= |logPayload| {
        return index, rxOk, rxPsdu, true;
      }
      var length := logPayload[index];
      index := index + 1;
      if tag == LOG_TAG_RX_STATUS {
        if length != LOG_TAG_RX_STATUS_LENGTH {
          index := index + length;
        } else {
          index, rxOk, raised := HandleTagRxStatus(logPayload, index, length);
        }
      } else if tag == LOG_TAG_STS_INDEX {
        if length != LOG_TAG_STS_INDEX_LENGTH {
          index := index + length;
        } else {
          var value := Slice(logPayload, index, index + length);
          raised := |value| < 4;
          index := index + length;
        }
      } else if tag == LOG_TAG_RX_FIRST_PATH_INFO {
        if length != LOG_TAG_RX_FIRST_PATH_INFO_LENGTH {
          index := index + length;
        } else {
          index, raised := HandleTagRxFirstPathInfo(logPayload, index, length);
        }
      } else if tag == LOG_TAG_RX_PSDU {
        if length != 0 {
          rxPsdu := Slice(logPayload, index, index + length);
        }
        index := index + length;
      } else {
        index := index + length;
      }
    }

    /** `handleLogNtf`: decode one PHY log notification into the statistics.
        `raised` is true when the tool's IndexError escapes the call. */
    method HandleLogNtf(logPayload: seq<u8>) returns (raised: bool)
      modifies this
      ensures Snapshot() == LogNtf(old(Snapshot()), logPayload, frameType, txPsdu).0
      ensures raised == LogNtf(old(Snapshot()), logPayload, frameType, txPsdu).1
    {
      ntfCount := ntfCount + 1;
      if |logPayload| == 0 {
        return true;
      }
      ghost var start := Cursor(Snapshot(), 1, false, [], false);
      var index: nat := 1;
      var rxOk := false;
      var rxPsdu: seq<u8> := [];
      while index < |logPayload|
        invariant Walk(logPayload, Cursor(Snapshot(), index, rxOk, rxPsdu, false)) == Walk(logPayload, start)
        decreases |logPayload| - index
      {
        ghost var c := Cursor(Snapshot(), index, rxOk, rxPsdu, false);
        var r;
        index, rxOk, rxPsdu, r := HandleRecord(logPayload, index, rxOk, rxPsdu);
        if r {
          assert Walk(logPayload, Step(logPayload, c)) == Step(logPayload, c);
          return true;
        }
      }
      if frameType == SP0 && rxOk && txPsdu != rxPsdu {
        psduErrors := psduErrors + 1;
      }
      raised := false;
    }
  }
}
