// The RX PER statistics of the SR040 test-mode demo: one global record of
// 16-bit counters that every PHY log notification updates. The TLV lookup the
// demo calls for each tag lives in a library that is not part of this model;
// what it finds is passed in as a `LogEntries` value.
module DemoRxPer {
  import opened Bytes

  datatype SlotType = SP0 | SP1 | SP3

  /** What the TLV lookup found in one notification, tag by tag. The first-path
      info and the PSDU are the bytes it copied out. */
  datatype LogEntries = LogEntries(
    rxStatus: Option<bv16>,
    macStatus: Option<u8>,
    macFailReason: Option<u8>,
    firstPathInfo: Option<seq<u8>>,
    rxPsdu: Option<seq<u8>>)

  const NUM_RX_STATUS_BITS: nat := 11

  const MAC_HEADER_SUCCESS: u8 := 0x00
  const MAC_PAYLOAD_SUCCESS: u8 := 0x01
  const MAC_DECODING_FAILURE: u8 := 0xFF

  const RSN_UNSPECIFIED: u8 := 0

  /** The failure reasons that have a counter of their own. */
  const MacFailReasons: set<u8> :=
    {0, 1, 2, 3, 4, 10, 11, 12, 13, 14, 15, 20, 21, 22, 23, 24, 25,
     30, 31, 32, 33, 34, 35, 36, 50, 51, 52, 60, 61, 80, 81, 82, 83, 84, 85, 255}

  /** Size of the first-path info record the demo reads into. */
  const FIRST_PATH_INFO_SIZE: nat := 40

  /** The counter a MAC failure reason is booked under: its own, or
      RSN_UNSPECIFIED for a reason the switch does not list. */
  function MacFailCounter(reason: u8): (k: u8)
    ensures k in MacFailReasons
    ensures reason in MacFailReasons ==> k == reason
    ensures reason !in MacFailReasons ==> k == RSN_UNSPECIFIED
  {
    if reason in MacFailReasons then reason else RSN_UNSPECIFIED
  }

  /** `memcmp`-based comparison of a received PSDU with the expected frame. */
  function FrameMatches(expected: seq<u8>, received: seq<u8>): (r: bool)
    ensures r <==> |received| == |expected| && forall i :: 0 <= i < |expected| ==> received[i] == expected[i]
  {
    |received| == |expected| && received[..] == expected[..]
  }

  /** Whether a first-path record is counted: the lookup found it, it filled
      the whole structure, and its `firstPathdetected` word is not zero. */
  function FirstPathCounted(entry: Option<seq<u8>>): (r: bool)
    ensures r ==> entry.Some? && |entry.value| == FIRST_PATH_INFO_SIZE
    ensures entry.Some? && |entry.value| == FIRST_PATH_INFO_SIZE ==>
              (r <==> entry.value[0] != 0 || entry.value[1] != 0 || entry.value[2] != 0 || entry.value[3] != 0)
  {
    entry.Some? && |entry.value| == FIRST_PATH_INFO_SIZE &&
    LE32(entry.value[0], entry.value[1], entry.value[2], entry.value[3]) != 0
  }

  /** The rxStatus counters after one status word: bit i counts in counter i. */
  function CountStatusBits(counters: seq<u16>, status: bv16): (r: seq<u16>)
    requires |counters| == NUM_RX_STATUS_BITS
    ensures |r| == NUM_RX_STATUS_BITS
    ensures forall i :: 0 <= i < NUM_RX_STATUS_BITS ==>
              r[i] == if Bit16(status, i) then Inc16(counters[i]) else counters[i]
  {
    seq(NUM_RX_STATUS_BITS, i requires 0 <= i < NUM_RX_STATUS_BITS =>
      if Bit16(status, i) then Inc16(counters[i]) else counters[i])
  }

  function ZeroMacFail(): (m: map<u8, u16>)
    ensures m.Keys == MacFailReasons
    ensures forall k :: k in m ==> m[k] == 0
  {
    map k | k in MacFailReasons :: 0
  }

  /** The global `gRxPer` record (the floating-point aggregates excepted). */
  class RxPer {
    var totalRxNtfs: u16
    /** rxSuccess_Ready, rxSuccess_DataAvailable, rxError_ToaDetectFailed, ...,
        rxError_StsMismatch: the counter of status bit i is at index i. */
    var rxStatusCounts: seq<u16>
    var macHeaderSuccess: u16
    var macPayloadSuccess: u16
    var macFail: map<u8, u16>
    var fpInfoCount: u16
    var compareSuccess: u16
    var compareFailed: u16
    var expectedFrame: seq<u8>
    var slotType: SlotType

    ghost predicate Valid()
      reads this
    {
      |rxStatusCounts| == NUM_RX_STATUS_BITS && macFail.Keys == MacFailReasons
    }

    /** `demo_rx_per_Init`: every counter zero, the frame to compare with and
        the slot type stored. */
    constructor Init(slotType: SlotType, expectedFrame: seq<u8>)
      ensures Valid()
      ensures totalRxNtfs == 0 && rxStatusCounts == seq(NUM_RX_STATUS_BITS, _ => 0)
      ensures macHeaderSuccess == 0 && macPayloadSuccess == 0 && macFail == ZeroMacFail()
      ensures fpInfoCount == 0 && compareSuccess == 0 && compareFailed == 0
      ensures this.expectedFrame == expectedFrame && this.slotType == slotType
    {
      totalRxNtfs := 0;
      rxStatusCounts := seq(NUM_RX_STATUS_BITS, _ => 0);
      macHeaderSuccess, macPayloadSuccess := 0, 0;
      macFail := ZeroMacFail();
      fpInfoCount, compareSuccess, compareFailed := 0, 0, 0;
      this.expectedFrame, this.slotType := expectedFrame, slotType;
    }

    /** `rxper_ParseRxPer`: a found RX status counts one notification and
        every set bit 0..10 in its own counter; nothing else moves. */
    method ParseRxPer(rxStatus: Option<bv16>)
      requires Valid()
      modifies this`totalRxNtfs, this`rxStatusCounts
      ensures Valid()
      ensures rxStatus.None? ==> totalRxNtfs == old(totalRxNtfs) && rxStatusCounts == old(rxStatusCounts)
      ensures rxStatus.Some? ==> totalRxNtfs == Inc16(old(totalRxNtfs))
      ensures rxStatus.Some? ==> forall i :: 0 <= i < NUM_RX_STATUS_BITS ==>
                rxStatusCounts[i] == if Bit16(rxStatus.value, i) then Inc16(old(rxStatusCounts)[i])
                                     else old(rxStatusCounts)[i]
    {
      if rxStatus.None? {
        return;
      }
      totalRxNtfs := Inc16(totalRxNtfs);
      rxStatusCounts := CountStatusBits(rxStatusCounts, rxStatus.value);
    }

    /** `rxper_ParseMacFailRSN`: status 0 and 1 count header and payload
        success; status 0xFF with a found reason counts that reason, an
        unlisted one under RSN_UNSPECIFIED; anything else changes nothing. */
    method ParseMacFailRsn(macStatus: Option<u8>, macFailReason: Option<u8>)
      requires Valid()
      modifies this`macHeaderSuccess, this`macPayloadSuccess, this`macFail
      ensures Valid()
      ensures macStatus == Some(MAC_HEADER_SUCCESS) <==> macHeaderSuccess != old(macHeaderSuccess)
      ensures macHeaderSuccess == if macStatus == Some(MAC_HEADER_SUCCESS) then Inc16(old(macHeaderSuccess)) else old(macHeaderSuccess)
      ensures macPayloadSuccess == if macStatus == Some(MAC_PAYLOAD_SUCCESS) then Inc16(old(macPayloadSuccess)) else old(macPayloadSuccess)
      ensures macFail == if macStatus == Some(MAC_DECODING_FAILURE) && macFailReason.Some?
                         then var k := MacFailCounter(macFailReason.value); old(macFail)[k := Inc16(old(macFail)[k])]
                         else old(macFail)
    {
      if macStatus.None? {
        return;
      }
      if macStatus.value == MAC_DECODING_FAILURE {
        if macFailReason.None? {
          return;
        }
        var k := MacFailCounter(macFailReason.value);
        macFail := macFail[k := Inc16(macFail[k])];
      } else if macStatus.value == MAC_HEADER_SUCCESS {
        macHeaderSuccess := Inc16(macHeaderSuccess);
      } else if macStatus.value == MAC_PAYLOAD_SUCCESS {
        macPayloadSuccess := Inc16(macPayloadSuccess);
      }
    }

    /** `rxper_ParseFirstPathInfo` on its integer part: the record count. */
    method ParseFirstPathInfo(firstPathInfo: Option<seq<u8>>)
      modifies this`fpInfoCount
      ensures fpInfoCount == if FirstPathCounted(firstPathInfo) then Inc16(old(fpInfoCount)) else old(fpInfoCount)
    {
      if firstPathInfo.None? {
        return;
      }
      if |firstPathInfo.value| != FIRST_PATH_INFO_SIZE {
        return;
      }
      var v := firstPathInfo.value;
      if LE32(v[0], v[1], v[2], v[3]) != 0 {
        fpInfoCount := Inc16(fpInfoCount);
      }
    }

    /** `rxper_ParseRxFrame`: a missing PSDU fails the comparison only for SP0
        slots; a present one succeeds exactly when it equals the expected
        frame. Exactly one of the two counters moves, or (missing, not SP0)
        neither. */
    method ParseRxFrame(rxPsdu: Option<seq<u8>>)
      modifies this`compareSuccess, this`compareFailed
      ensures rxPsdu.None? && slotType != SP0 ==> compareSuccess == old(compareSuccess) && compareFailed == old(compareFailed)
      ensures rxPsdu.None? && slotType == SP0 ==> compareSuccess == old(compareSuccess) && compareFailed == Inc16(old(compareFailed))
      ensures rxPsdu.Some? && FrameMatches(expectedFrame, rxPsdu.value) ==>
                compareSuccess == Inc16(old(compareSuccess)) && compareFailed == old(compareFailed)
      ensures rxPsdu.Some? && !FrameMatches(expectedFrame, rxPsdu.value) ==>
                compareSuccess == old(compareSuccess) && compareFailed == Inc16(old(compareFailed))
    {
      if rxPsdu.None? {
        if slotType == SP0 {
          compareFailed := Inc16(compareFailed);
        }
        return;
      }
      if FrameMatches(expectedFrame, rxPsdu.value) {
        compareSuccess := Inc16(compareSuccess);
      } else {
        compareFailed := Inc16(compareFailed);
      }
    }

    /** `demo_rx_per_AppCallback_PhyLogNtf`: a notification of more than one
        byte runs every parser; a shorter one changes nothing. */
    method AppCallbackPhyLogNtf(size: nat, entries: LogEntries)
      requires Valid()
      modifies this
      ensures Valid()
      ensures size <= 1 ==> totalRxNtfs == old(totalRxNtfs) && rxStatusCounts == old(rxStatusCounts) &&
                            macHeaderSuccess == old(macHeaderSuccess) && macPayloadSuccess == old(macPayloadSuccess) &&
                            macFail == old(macFail) && fpInfoCount == old(fpInfoCount) &&
                            compareSuccess == old(compareSuccess) && compareFailed == old(compareFailed)
      // rxper_ParseRxPer
      ensures size > 1 ==> totalRxNtfs == if entries.rxStatus.Some? then Inc16(old(totalRxNtfs)) else old(totalRxNtfs)
      ensures size > 1 && entries.rxStatus.None? ==> rxStatusCounts == old(rxStatusCounts)
      ensures size > 1 && entries.rxStatus.Some? ==> forall i :: 0 <= i < NUM_RX_STATUS_BITS ==>
                rxStatusCounts[i] == if Bit16(entries.rxStatus.value, i) then Inc16(old(rxStatusCounts)[i])
                                     else old(rxStatusCounts)[i]
      // rxper_ParseMacFailRSN
      ensures size > 1 ==> macHeaderSuccess == if entries.macStatus == Some(MAC_HEADER_SUCCESS) then Inc16(old(macHeaderSuccess)) else old(macHeaderSuccess)
      ensures size > 1 ==> macPayloadSuccess == if entries.macStatus == Some(MAC_PAYLOAD_SUCCESS) then Inc16(old(macPayloadSuccess)) else old(macPayloadSuccess)
      ensures size > 1 ==> macFail == if entries.macStatus == Some(MAC_DECODING_FAILURE) && entries.macFailReason.Some?
                                      then var k := MacFailCounter(entries.macFailReason.value); old(macFail)[k := Inc16(old(macFail)[k])]
                                      else old(macFail)
      // rxper_ParseFirstPathInfo
      ensures size > 1 ==> fpInfoCount == if FirstPathCounted(entries.firstPathInfo) then Inc16(old(fpInfoCount)) else old(fpInfoCount)
      // rxper_ParseRxFrame
      ensures size > 1 ==> compareSuccess == if entries.rxPsdu.Some? && FrameMatches(expectedFrame, entries.rxPsdu.value)
                                             then Inc16(old(compareSuccess)) else old(compareSuccess)
      ensures size > 1 ==> compareFailed == if (entries.rxPsdu.None? && slotType == SP0) ||
                                               (entries.rxPsdu.Some? && !FrameMatches(expectedFrame, entries.rxPsdu.value))
                                            then Inc16(old(compareFailed)) else old(compareFailed)
      ensures expectedFrame == old(expectedFrame) && slotType == old(slotType)
    {
      if size > 1 {
        ParseRxPer(entries.rxStatus);
        ParseMacFailRsn(entries.macStatus, entries.macFailReason);
        ParseFirstPathInfo(entries.firstPathInfo);
        ParseRxFrame(entries.rxPsdu);
      }
    }
  }

  /** A status word with every one of the eleven bits set counts in all eleven counters. */
  lemma AllBitsCountEverywhere(counters: seq<u16>)
    requires |counters| == NUM_RX_STATUS_BITS
    ensures forall i :: 0 <= i < NUM_RX_STATUS_BITS ==> CountStatusBits(counters, 0x7FF)[i] == Inc16(counters[i])
  {
    forall i | 0 <= i < NUM_RX_STATUS_BITS
      ensures Bit16(0x7FF, i)
    {
      assert i == 0 || i == 1 || i == 2 || i == 3 || i == 4 || i == 5 || i == 6 || i == 7 || i == 8 || i == 9 || i == 10;
    }
  }

  /** Bits above 10 have no counter: a status word with only those set moves none. */
  lemma HighBitsCountNowhere(counters: seq<u16>, status: bv16)
    requires |counters| == NUM_RX_STATUS_BITS
    requires status & 0x7FF == 0
    ensures CountStatusBits(counters, status) == counters
  {
    forall i | 0 <= i < NUM_RX_STATUS_BITS
      ensures !Bit16(status, i)
    {
      assert i == 0 || i == 1 || i == 2 || i == 3 || i == 4 || i == 5 || i == 6 || i == 7 || i == 8 || i == 9 || i == 10;
    }
  }
}
