// The two notification decoders of the UCI interface that read a variable
// number of records: the ranging-data notification and the multicast-list
// update notification. Both read the payload front to back through a stream
// pointer and hand the decoded structure to the response callback.
module UwbUcifNtf {
  import opened Bytes
  import opened UciDefs

  const MAX_NUM_RESPONDERS: nat := 12
  const MEASUREMENT_TYPE_ONEWAY: u8 := 0x00
  const MEASUREMENT_TYPE_TWOWAY: u8 := 0x01
  const SHORT_MAC_ADDRESS: u8 := 0x00
  const EXTENDED_MAC_ADDRESS: u8 := 0x01
  const MAC_SHORT_ADD_LEN: nat := 2
  const MAC_EXT_ADD_LEN: nat := 8
  const AOA_LEN: nat := 4
  const PDOA_LEN: nat := 4
  const RANGE_DATA_MAX_RFU: nat := 12
  const TDOA_RFU_LEN: nat := 10

  /** Bytes of the fixed part of a ranging notification, up to and including
      the measurement count. */
  const RANGE_HDR_LEN: nat := 25
  /** Bytes of one two-way measurement: a short address with 12 reserved
      bytes, or an extended one with 6. */
  const TWR_RECORD_LEN: nat := 35
  /** Bytes of the fixed part of a multicast-list notification. */
  const MULTICAST_HDR_LEN: nat := 6
  /** Bytes of one controlee record: a 32-bit subsession id and a status. */
  const MULTICAST_RECORD_LEN: nat := 5

  /** What a decoder does with a notification: nothing (no callback), a read
      past the end of the payload (the source does not check the length, so
      the result would depend on memory beyond the buffer), or a callback
      with the decoded structure. */
  datatype NtfOutcome<T> = NoCallback | ReadsPastEnd | Delivered(data: T)

  datatype TwrMeasurement = TwrMeasurement(
    macAddr: seq<u8>, status: u8, nLos: u8, distance: u16,
    aoa: seq<u8>, pdoa: seq<u8>, pdoaIndex: seq<u8>, aoaDest: seq<u8>, slotIndex: u8)

  datatype TdoaMeasurement = TdoaMeasurement(
    macAddr: seq<u8>, frameType: u8, nLos: u8,
    aoa: seq<u8>, pdoa: seq<u8>, pdoaIndex: seq<u8>,
    timestamp: u64, blinkFrameNumber: u32, rssiRx1: u16, rssiRx2: u16,
    rfu: seq<u8>, deviceInfo: seq<u8>, blinkPayload: seq<u8>)

  datatype RangeData = RangeData(
    rangeDataLen: nat, seqCtr: u32, sessionId: u32, rcrIndication: u8,
    currRangeInterval: u32, measureType: u8, antennaPairSel: u8,
    macAddrMode: u8, reserved: seq<u8>, noOfMeasurements: u8,
    twr: seq<TwrMeasurement>, tdoa: Option<TdoaMeasurement>)

  /** The address length a valid addressing mode selects. */
  function MacLen(mode: u8): (n: nat)
    requires mode == SHORT_MAC_ADDRESS || mode == EXTENDED_MAC_ADDRESS
    ensures n == MAC_SHORT_ADD_LEN || n == MAC_EXT_ADD_LEN
    ensures n == MAC_SHORT_ADD_LEN <==> mode == SHORT_MAC_ADDRESS
  {
    if mode == SHORT_MAC_ADDRESS then MAC_SHORT_ADD_LEN else MAC_EXT_ADD_LEN
  }

  /** The reserved bytes skipped after a two-way record. */
  function TwrRfuLen(mode: u8): (n: nat)
    requires mode == SHORT_MAC_ADDRESS || mode == EXTENDED_MAC_ADDRESS
    ensures MacLen(mode) + 21 + n == TWR_RECORD_LEN
  {
    if mode == SHORT_MAC_ADDRESS then RANGE_DATA_MAX_RFU else 6
  }

  /** One two-way measurement read at offset `o`. */
  function DecodeTwr(p: seq<u8>, o: nat, mode: u8): (m: TwrMeasurement)
    requires mode == SHORT_MAC_ADDRESS || mode == EXTENDED_MAC_ADDRESS
    requires o + TWR_RECORD_LEN <= |p|
    ensures |m.macAddr| == MacLen(mode)
    ensures |m.aoa| == AOA_LEN && |m.pdoa| == PDOA_LEN && |m.pdoaIndex| == PDOA_LEN && |m.aoaDest| == AOA_LEN
  {
    var a := o + MacLen(mode);
    TwrMeasurement(p[o..a], p[a], p[a + 1], U16At(p, a + 2),
                   p[a + 4..a + 8], p[a + 8..a + 12], p[a + 12..a + 16], p[a + 16..a + 20], p[a + 20])
  }

  /** The decoded fixed part of a ranging notification, with no measurement
      yet. */
  function RangeHeader(p: seq<u8>): (d: RangeData)
    requires RANGE_HDR_LEN <= |p|
    ensures d.rangeDataLen == |p| && d.noOfMeasurements == p[24] && |d.reserved| == 8
    ensures d.twr == [] && d.tdoa.None?
  {
    RangeData(|p|, U32At(p, 0), U32At(p, 4), p[8], U32At(p, 9), p[13], p[14], p[15],
              p[16..24], p[24], [], None)
  }

  /** The first `n` two-way records after the header. */
  function TwrRecords(p: seq<u8>, n: nat, mode: u8): (r: seq<TwrMeasurement>)
    requires mode == SHORT_MAC_ADDRESS || mode == EXTENDED_MAC_ADDRESS
    requires RANGE_HDR_LEN + TWR_RECORD_LEN * n <= |p|
    ensures |r| == n
    decreases n
  {
    if n == 0 then [] else TwrRecords(p, n - 1, mode) + [DecodeTwr(p, RANGE_HDR_LEN + TWR_RECORD_LEN * (n - 1), mode)]
  }

  /** Helper: one more record appends the record at the next offset. */
  lemma TwrRecordsNext(p: seq<u8>, i: nat, mode: u8)
    requires mode == SHORT_MAC_ADDRESS || mode == EXTENDED_MAC_ADDRESS
    requires RANGE_HDR_LEN + TWR_RECORD_LEN * (i + 1) <= |p|
    ensures TwrRecords(p, i + 1, mode) == TwrRecords(p, i, mode) + [DecodeTwr(p, RANGE_HDR_LEN + TWR_RECORD_LEN * i, mode)]
  {
  }

  /** Record `i` of `TwrRecords` is the record stored at its own offset. */
  lemma {:induction false} TwrRecordsAt(p: seq<u8>, n: nat, mode: u8, i: nat)
    requires mode == SHORT_MAC_ADDRESS || mode == EXTENDED_MAC_ADDRESS
    requires RANGE_HDR_LEN + TWR_RECORD_LEN * n <= |p|
    requires i < n
    ensures TwrRecords(p, n, mode)[i] == DecodeTwr(p, RANGE_HDR_LEN + TWR_RECORD_LEN * i, mode)
    decreases n
  {
    if i < n - 1 {
      TwrRecordsAt(p, n - 1, mode, i);
    }
  }

  /** The one-way (TDoA) measurement read at offset `o`, or `None` when the
      variable-length device information or blink payload runs past the end. */
  function DecodeTdoa(p: seq<u8>, o: nat, mode: u8): (t: Option<TdoaMeasurement>)
    requires mode == SHORT_MAC_ADDRESS || mode == EXTENDED_MAC_ADDRESS
    ensures t.Some? ==> |t.value.macAddr| == MacLen(mode) && |t.value.rfu| == TDOA_RFU_LEN
    ensures t.Some? ==> o + MacLen(mode) + 42 + |t.value.deviceInfo| + |t.value.blinkPayload| <= |p|
  {
    var a := o + MacLen(mode);
    if a + 41 > |p| then None
    else
      var info := p[a + 40];
      var q := a + 41 + info;
      if q + 1 > |p| then None
      else
        var blink := p[q];
        if q + 1 + blink > |p| then None
        else Some(TdoaMeasurement(p[o..a], p[a], p[a + 1], p[a + 2..a + 6], p[a + 6..a + 10], p[a + 10..a + 14],
                                  U64At(p, a + 14), U32At(p, a + 22), U16At(p, a + 26), U16At(p, a + 28),
                                  p[a + 30..a + 40], p[a + 41..q], p[q + 1..q + 1 + blink]))
  }

  /** Size of the `device_info` and `blink_payload_data` arrays of the
      one-way measurement. */
  const UCI_MAX_BPRF_PAYLOAD_SIZE: nat := 0x7F

  /** The device information and the blink payload are copied with the
      size bytes the notification carries, unchecked: a decoded measurement
      fits its 127-byte arrays exactly when both size bytes are at most 127,
      and otherwise the copy runs past them. */
  lemma TdoaSizesUnchecked(p: seq<u8>, o: nat, mode: u8)
    requires mode == SHORT_MAC_ADDRESS || mode == EXTENDED_MAC_ADDRESS
    requires DecodeTdoa(p, o, mode).Some?
    ensures var a := o + MacLen(mode);
      var t := DecodeTdoa(p, o, mode).value;
      && |t.deviceInfo| == p[a + 40]
      && |t.blinkPayload| == p[a + 41 + p[a + 40]]
      && (|t.deviceInfo| <= UCI_MAX_BPRF_PAYLOAD_SIZE && |t.blinkPayload| <= UCI_MAX_BPRF_PAYLOAD_SIZE <==>
          p[a + 40] <= 0x7F && p[a + 41 + p[a + 40]] <= 0x7F)
  {
  }

  /** What `uwb_ucif_proc_ranging_data` delivers for a payload `p`. */
  function RangingOutcome(p: seq<u8>, hasCallback: bool): (r: NtfOutcome<RangeData>)
    ensures r.Delivered? ==> hasCallback && RANGE_HDR_LEN <= |p| && r.data == RangeHeader(p).(twr := r.data.twr, tdoa := r.data.tdoa)
    ensures r.Delivered? ==> r.data.noOfMeasurements as nat <= MAX_NUM_RESPONDERS
    ensures r.Delivered? && r.data.measureType == MEASUREMENT_TYPE_TWOWAY ==> |r.data.twr| == r.data.noOfMeasurements as nat
    ensures r.Delivered? && r.data.measureType != MEASUREMENT_TYPE_TWOWAY ==> r.data.twr == []
    ensures r.Delivered? ==> (r.data.tdoa.Some? <==> r.data.measureType == MEASUREMENT_TYPE_ONEWAY)
    ensures (|p| == 0 || !hasCallback) ==> r == NoCallback
    ensures RANGE_HDR_LEN <= |p| && p[24] as nat > MAX_NUM_RESPONDERS && hasCallback ==> r == NoCallback
  {
    if |p| == 0 || !hasCallback then NoCallback
    else if |p| < RANGE_HDR_LEN then ReadsPastEnd
    else
      var h := RangeHeader(p);
      var n := p[24];
      var mode := p[15];
      if n as nat > MAX_NUM_RESPONDERS then NoCallback
      else if h.measureType == MEASUREMENT_TYPE_TWOWAY then
        if n == 0 then Delivered(h)
        else if mode != SHORT_MAC_ADDRESS && mode != EXTENDED_MAC_ADDRESS then NoCallback
        else if RANGE_HDR_LEN + TWR_RECORD_LEN * n > |p| then ReadsPastEnd
        else Delivered(h.(twr := TwrRecords(p, n, mode)))
      else if h.measureType == MEASUREMENT_TYPE_ONEWAY then
        if mode != SHORT_MAC_ADDRESS && mode != EXTENDED_MAC_ADDRESS then NoCallback
        else match DecodeTdoa(p, RANGE_HDR_LEN, mode)
             case None => ReadsPastEnd
             case Some(t) => Delivered(h.(tdoa := Some(t)))
      else Delivered(h)
  }

  /** The loop of `uwb_ucif_proc_ranging_data` over the two-way records:
      `complete` says whether all `n` records lie inside the payload. */
  method ReadTwrRecords(p: seq<u8>, n: nat, mode: u8) returns (complete: bool, twr: seq<TwrMeasurement>)
    requires mode == SHORT_MAC_ADDRESS || mode == EXTENDED_MAC_ADDRESS
    requires RANGE_HDR_LEN <= |p|
    ensures complete <==> RANGE_HDR_LEN + TWR_RECORD_LEN * n <= |p|
    ensures complete ==> twr == TwrRecords(p, n, mode)
  {
    var pos := RANGE_HDR_LEN;
    twr := [];
    var i := 0;
    while i < n
      invariant 0 <= i <= n
      invariant pos == RANGE_HDR_LEN + TWR_RECORD_LEN * i <= |p|
      invariant twr == TwrRecords(p, i, mode)
    {
      if pos + TWR_RECORD_LEN > |p| {
        return false, twr;
      }
      TwrRecordsNext(p, i, mode);
      twr := twr + [DecodeTwr(p, pos, mode)];
      pos := pos + TWR_RECORD_LEN;
      i := i + 1;
    }
    complete := true;
  }

  /** `uwb_ucif_proc_ranging_data`: reads the header, rejects a count above
      `MAX_NUM_RESPONDERS`, then reads the two-way records one at a time or
      the single one-way record. */
  method ProcRangingData(p: seq<u8>, hasCallback: bool) returns (r: NtfOutcome<RangeData>)
    ensures r == RangingOutcome(p, hasCallback)
  {
    if |p| == 0 || !hasCallback {
      return NoCallback;
    }
    if |p| < RANGE_HDR_LEN {
      return ReadsPastEnd;
    }
    var data := RangeHeader(p);
    if data.noOfMeasurements as nat > MAX_NUM_RESPONDERS {
      return NoCallback;
    }
    var mode := data.macAddrMode;
    if data.measureType == MEASUREMENT_TYPE_TWOWAY {
      var n := data.noOfMeasurements as nat;
      if n > 0 {
        // The addressing mode is checked at the top of every iteration and
        // does not change, so only the first check can fail.
        if mode != SHORT_MAC_ADDRESS && mode != EXTENDED_MAC_ADDRESS {
          return NoCallback;
        }
        var complete, twr := ReadTwrRecords(p, n, mode);
        if !complete {
          return ReadsPastEnd;
        }
        data := data.(twr := twr);
      }
    } else if data.measureType == MEASUREMENT_TYPE_ONEWAY {
      if mode != SHORT_MAC_ADDRESS && mode != EXTENDED_MAC_ADDRESS {
        return NoCallback;
      }
      var t := DecodeTdoa(p, RANGE_HDR_LEN, mode);
      if t.None? {
        return ReadsPastEnd;
      }
      data := data.(tdoa := t);
    }
    r := Delivered(data);
  }

  datatype MulticastListNtf = MulticastListNtf(
    sessionId: u32, remainingList: u8, noOfControlees: u8,
    subsessionIds: seq<u32>, statuses: seq<u8>)

  /** The first `n` controlee records after the header. */
  function ControleeRecords(p: seq<u8>, n: nat): (r: (seq<u32>, seq<u8>))
    requires MULTICAST_HDR_LEN + MULTICAST_RECORD_LEN * n <= |p|
    ensures |r.0| == n && |r.1| == n
    decreases n
  {
    if n == 0 then ([], [])
    else
      var prev := ControleeRecords(p, n - 1);
      var o := MULTICAST_HDR_LEN + MULTICAST_RECORD_LEN * (n - 1);
      (prev.0 + [U32At(p, o)], prev.1 + [p[o + 4]])
  }

  /** Helper: one more controlee appends the record at the next offset. */
  lemma ControleeRecordsNext(p: seq<u8>, i: nat)
    requires MULTICAST_HDR_LEN + MULTICAST_RECORD_LEN * (i + 1) <= |p|
    ensures var o := MULTICAST_HDR_LEN + MULTICAST_RECORD_LEN * i;
            ControleeRecords(p, i + 1) == (ControleeRecords(p, i).0 + [U32At(p, o)], ControleeRecords(p, i).1 + [p[o + 4]])
  {
  }

  /** Controlee `i` is the record stored at its own offset. */
  lemma {:induction false} ControleeRecordsAt(p: seq<u8>, n: nat, i: nat)
    requires MULTICAST_HDR_LEN + MULTICAST_RECORD_LEN * n <= |p|
    requires i < n
    ensures ControleeRecords(p, n).0[i] == U32At(p, MULTICAST_HDR_LEN + MULTICAST_RECORD_LEN * i)
    ensures ControleeRecords(p, n).1[i] == p[MULTICAST_HDR_LEN + MULTICAST_RECORD_LEN * i + 4]
    decreases n
  {
    if i < n - 1 {
      ControleeRecordsAt(p, n - 1, i);
    }
  }

  /** What `uwb_ucif_proc_multicast_list_update_ntf` delivers for `p`. */
  function MulticastOutcome(p: seq<u8>, hasCallback: bool): (r: NtfOutcome<MulticastListNtf>)
    ensures (|p| == 0 || !hasCallback) ==> r == NoCallback
    ensures MULTICAST_HDR_LEN <= |p| && p[5] as nat > MAX_NUM_CONTROLLEES && hasCallback ==> r == NoCallback
    ensures r.Delivered? ==> hasCallback && |p| >= MULTICAST_HDR_LEN + MULTICAST_RECORD_LEN * r.data.noOfControlees as nat
    ensures r.Delivered? ==> r.data.noOfControlees as nat <= MAX_NUM_CONTROLLEES && r.data.noOfControlees == p[5]
    ensures r.Delivered? ==> |r.data.subsessionIds| == |r.data.statuses| == r.data.noOfControlees as nat
  {
    if |p| == 0 || !hasCallback then NoCallback
    else if |p| < MULTICAST_HDR_LEN then ReadsPastEnd
    else
      var n := p[5];
      if n as nat > MAX_NUM_CONTROLLEES then NoCallback
      else if MULTICAST_HDR_LEN + MULTICAST_RECORD_LEN * n > |p| then ReadsPastEnd
      else
        var recs := ControleeRecords(p, n);
        Delivered(MulticastListNtf(U32At(p, 0), p[4], n, recs.0, recs.1))
  }

  /** `uwb_ucif_proc_multicast_list_update_ntf`: reads the session id, the
      remaining-list count and the controlee count, rejects a count above
      `MAX_NUM_CONTROLLEES`, then reads one record per controlee. */
  method ProcMulticastListUpdateNtf(p: seq<u8>, hasCallback: bool) returns (r: NtfOutcome<MulticastListNtf>)
    ensures r == MulticastOutcome(p, hasCallback)
  {
    if |p| == 0 || !hasCallback {
      return NoCallback;
    }
    if |p| < MULTICAST_HDR_LEN {
      return ReadsPastEnd;
    }
    var sessionId := U32At(p, 0);
    var remaining := p[4];
    var n := p[5];
    if n as nat > MAX_NUM_CONTROLLEES {
      return NoCallback;
    }
    var ids: seq<u32> := [];
    var statuses: seq<u8> := [];
    var pos := MULTICAST_HDR_LEN;
    var i := 0;
    while i < n
      invariant 0 <= i <= n
      invariant pos == MULTICAST_HDR_LEN + MULTICAST_RECORD_LEN * i <= |p|
      invariant ids == ControleeRecords(p, i).0 && statuses == ControleeRecords(p, i).1
    {
      if pos + MULTICAST_RECORD_LEN > |p| {
        return ReadsPastEnd;
      }
      ControleeRecordsNext(p, i as nat);
      ids := ids + [U32At(p, pos)];
      statuses := statuses + [p[pos + 4]];
      pos := pos + MULTICAST_RECORD_LEN;
      i := i + 1;
    }
    r := Delivered(MulticastListNtf(sessionId, remaining, n, ids, statuses));
  }

  // ---------------------------------------------------------------------
  // The wire format the decoders read, written out field by field, and the
  // round trips that show the decoders recover every field.

  /** The wire bytes of one two-way measurement (reserved bytes zero). */
  function TwrBytes(m: TwrMeasurement, mode: u8): (b: seq<u8>)
    requires mode == SHORT_MAC_ADDRESS || mode == EXTENDED_MAC_ADDRESS
    requires |m.macAddr| == MacLen(mode)
    requires |m.aoa| == AOA_LEN && |m.pdoa| == PDOA_LEN && |m.pdoaIndex| == PDOA_LEN && |m.aoaDest| == AOA_LEN
    ensures |b| == TWR_RECORD_LEN
  {
    m.macAddr + [m.status, m.nLos] + ToLE16(m.distance) + m.aoa + m.pdoa + m.pdoaIndex + m.aoaDest
      + [m.slotIndex] + Zeros(TwrRfuLen(mode))
  }

  /** Where each field lies in the wire bytes of a two-way record. */
  lemma TwrBytesLayout(m: TwrMeasurement, mode: u8)
    requires mode == SHORT_MAC_ADDRESS || mode == EXTENDED_MAC_ADDRESS
    requires |m.macAddr| == MacLen(mode)
    requires |m.aoa| == AOA_LEN && |m.pdoa| == PDOA_LEN && |m.pdoaIndex| == PDOA_LEN && |m.aoaDest| == AOA_LEN
    ensures var r := TwrBytes(m, mode); var a := MacLen(mode);
            r[..a] == m.macAddr && r[a] == m.status && r[a + 1] == m.nLos &&
            r[a + 2..a + 4] == ToLE16(m.distance) && r[a + 4..a + 8] == m.aoa &&
            r[a + 8..a + 12] == m.pdoa && r[a + 12..a + 16] == m.pdoaIndex &&
            r[a + 16..a + 20] == m.aoaDest && r[a + 20] == m.slotIndex
  {
    var a := MacLen(mode);
    var s1 := m.macAddr + [m.status, m.nLos];
    var s2 := s1 + ToLE16(m.distance);
    var s3 := s2 + m.aoa;
    var s4 := s3 + m.pdoa;
    var s5 := s4 + m.pdoaIndex;
    var s6 := s5 + m.aoaDest;
    var s7 := s6 + [m.slotIndex];
    var r := s7 + Zeros(TwrRfuLen(mode));
    assert r == TwrBytes(m, mode);
    PrefixSlice(s7, Zeros(TwrRfuLen(mode)), 0, a + 21);
    PrefixSlice(s6, [m.slotIndex], 0, a + 20);
    PrefixSlice(s5, m.aoaDest, 0, a + 16);
    PrefixSlice(s4, m.pdoaIndex, 0, a + 12);
    PrefixSlice(s3, m.pdoa, 0, a + 8);
    PrefixSlice(s2, m.aoa, 0, a + 4);
    assert r[..a + 20] == s6;
    assert r[a + 16..a + 20] == s6[a + 16..a + 20] == m.aoaDest;
    assert r[..a + 16] == s5;
    assert r[a + 12..a + 16] == s5[a + 12..a + 16] == m.pdoaIndex;
    assert r[..a + 12] == s4;
    assert r[a + 8..a + 12] == s4[a + 8..a + 12] == m.pdoa;
    assert r[..a + 8] == s3;
    assert r[a + 4..a + 8] == s3[a + 4..a + 8] == m.aoa;
    assert r[..a + 4] == s2;
    assert r[a + 2..a + 4] == s2[a + 2..a + 4] == ToLE16(m.distance);
    PrefixSlice(s1, ToLE16(m.distance), 0, a + 2);
    assert r[..a + 2] == s1;
    assert r[..a] == s1[..a] == m.macAddr;
  }

  /** A two-way record decodes back to the measurement it was written from,
      wherever it sits in the payload. */
  lemma DecodeTwrBytes(m: TwrMeasurement, mode: u8, pre: seq<u8>, post: seq<u8>)
    requires mode == SHORT_MAC_ADDRESS || mode == EXTENDED_MAC_ADDRESS
    requires |m.macAddr| == MacLen(mode)
    requires |m.aoa| == AOA_LEN && |m.pdoa| == PDOA_LEN && |m.pdoaIndex| == PDOA_LEN && |m.aoaDest| == AOA_LEN
    ensures DecodeTwr(pre + TwrBytes(m, mode) + post, |pre|, mode) == m
  {
    var r := TwrBytes(m, mode);
    var p := pre + r + post;
    var o := |pre|;
    var a := MacLen(mode);
    TwrBytesLayout(m, mode);
    MidSlice(pre, r, post, 0, a);
    MidSlice(pre, r, post, a + 2, a + 4);
    MidSlice(pre, r, post, a + 4, a + 8);
    MidSlice(pre, r, post, a + 8, a + 12);
    MidSlice(pre, r, post, a + 12, a + 16);
    MidSlice(pre, r, post, a + 16, a + 20);
    assert p[o + a] == r[a] && p[o + a + 1] == r[a + 1] && p[o + a + 20] == r[a + 20];
    assert ToLE16(U16At(p, o + a + 2)) == ToLE16(m.distance);
    LE16Injective(U16At(p, o + a + 2), m.distance);
  }

  /** Every measurement has the field sizes the wire format fixes. */
  predicate TwrShaped(ms: seq<TwrMeasurement>, mode: u8)
    requires mode == SHORT_MAC_ADDRESS || mode == EXTENDED_MAC_ADDRESS
  {
    forall m | m in ms ::
      |m.macAddr| == MacLen(mode) && |m.aoa| == AOA_LEN && |m.pdoa| == PDOA_LEN &&
      |m.pdoaIndex| == PDOA_LEN && |m.aoaDest| == AOA_LEN
  }

  /** The wire bytes of a list of two-way measurements, one record after the
      other. */
  function TwrListBytes(ms: seq<TwrMeasurement>, mode: u8): (b: seq<u8>)
    requires mode == SHORT_MAC_ADDRESS || mode == EXTENDED_MAC_ADDRESS
    requires TwrShaped(ms, mode)
    ensures |b| == TWR_RECORD_LEN * |ms|
  {
    if ms == [] then [] else TwrListBytes(ms[..|ms| - 1], mode) + TwrBytes(ms[|ms| - 1], mode)
  }

  /** Record `i` of the list sits at `35 * i`. */
  lemma {:induction false} TwrListBytesAt(ms: seq<TwrMeasurement>, mode: u8, i: nat)
    requires mode == SHORT_MAC_ADDRESS || mode == EXTENDED_MAC_ADDRESS
    requires TwrShaped(ms, mode)
    requires i < |ms|
    ensures TwrListBytes(ms, mode)[TWR_RECORD_LEN * i..TWR_RECORD_LEN * (i + 1)] == TwrBytes(ms[i], mode)
    decreases |ms|
  {
    var init := ms[..|ms| - 1];
    var b1, b2 := TwrListBytes(init, mode), TwrBytes(ms[|ms| - 1], mode);
    assert TwrListBytes(ms, mode) == b1 + b2;
    if i < |ms| - 1 {
      TwrListBytesAt(init, mode, i);
      assert init[i] == ms[i];
      assert (b1 + b2)[TWR_RECORD_LEN * i..TWR_RECORD_LEN * (i + 1)] == b1[TWR_RECORD_LEN * i..TWR_RECORD_LEN * (i + 1)];
    } else {
      assert (b1 + b2)[|b1|..|b1| + |b2|] == b2;
    }
  }

  /** The wire bytes of the fixed part of a ranging notification. */
  function RangeHeaderBytes(d: RangeData): (b: seq<u8>)
    requires |d.reserved| == 8
    ensures |b| == RANGE_HDR_LEN
  {
    ToLE32(d.seqCtr) + ToLE32(d.sessionId) + [d.rcrIndication] + ToLE32(d.currRangeInterval)
      + [d.measureType, d.antennaPairSel, d.macAddrMode] + d.reserved + [d.noOfMeasurements]
  }

  /** A two-way ranging notification that the wire format can carry: a valid
      addressing mode, at most `MAX_NUM_RESPONDERS` records of the right
      shape, and the length field equal to the payload size. */
  predicate TwoWayShaped(d: RangeData)
  {
    d.measureType == MEASUREMENT_TYPE_TWOWAY && |d.reserved| == 8 &&
    (d.macAddrMode == SHORT_MAC_ADDRESS || d.macAddrMode == EXTENDED_MAC_ADDRESS) &&
    |d.twr| == d.noOfMeasurements as nat <= MAX_NUM_RESPONDERS &&
    TwrShaped(d.twr, d.macAddrMode) && d.tdoa.None? &&
    d.rangeDataLen == RANGE_HDR_LEN + TWR_RECORD_LEN * |d.twr|
  }

  /** The wire bytes of a two-way ranging notification. */
  function TwoWayBytes(d: RangeData): (b: seq<u8>)
    requires TwoWayShaped(d)
    ensures |b| == d.rangeDataLen
  {
    RangeHeaderBytes(d) + TwrListBytes(d.twr, d.macAddrMode)
  }

  /** The header bytes decode back to the header fields. */
  lemma RangeHeaderRoundTrip(d: RangeData, post: seq<u8>)
    requires |d.reserved| == 8
    ensures var p := RangeHeaderBytes(d) + post;
            var h := RangeHeader(p);
            h.seqCtr == d.seqCtr && h.sessionId == d.sessionId && h.rcrIndication == d.rcrIndication &&
            h.currRangeInterval == d.currRangeInterval && h.measureType == d.measureType &&
            h.antennaPairSel == d.antennaPairSel && h.macAddrMode == d.macAddrMode &&
            h.reserved == d.reserved && h.noOfMeasurements == d.noOfMeasurements
  {
    var p := RangeHeaderBytes(d) + post;
    assert p[0..4] == ToLE32(d.seqCtr);
    LE32Injective(U32At(p, 0), d.seqCtr);
    assert p[4..8] == ToLE32(d.sessionId);
    LE32Injective(U32At(p, 4), d.sessionId);
    assert p[9..13] == ToLE32(d.currRangeInterval);
    LE32Injective(U32At(p, 9), d.currRangeInterval);
    assert p[16..24] == d.reserved;
  }

  /** Record `i` of a two-way notification's wire bytes decodes back to
      measurement `i`. */
  lemma TwoWayRecordRoundTrip(d: RangeData, i: nat)
    requires TwoWayShaped(d)
    requires i < |d.twr|
    ensures DecodeTwr(TwoWayBytes(d), RANGE_HDR_LEN + TWR_RECORD_LEN * i, d.macAddrMode) == d.twr[i]
  {
    var mode := d.macAddrMode;
    var list := TwrListBytes(d.twr, mode);
    var lo := TWR_RECORD_LEN * i;
    var hi := TWR_RECORD_LEN * (i + 1);
    TwrListBytesAt(d.twr, mode, i);
    assert list == list[..lo] + TwrBytes(d.twr[i], mode) + list[hi..];
    var pre := RangeHeaderBytes(d) + list[..lo];
    assert TwoWayBytes(d) == pre + TwrBytes(d.twr[i], mode) + list[hi..];
    assert d.twr[i] in d.twr;
    DecodeTwrBytes(d.twr[i], mode, pre, list[hi..]);
  }

  /** Decoding the wire bytes of a two-way ranging notification delivers that
      notification: every header field and every measurement comes back. */
  lemma TwoWayRoundTrip(d: RangeData)
    requires TwoWayShaped(d)
    ensures RangingOutcome(TwoWayBytes(d), true) == Delivered(d)
  {
    var p := TwoWayBytes(d);
    var mode := d.macAddrMode;
    var n := d.noOfMeasurements as nat;
    RangeHeaderRoundTrip(d, TwrListBytes(d.twr, mode));
    if n > 0 {
      var recs := TwrRecords(p, n, mode);
      forall i | 0 <= i < n
        ensures recs[i] == d.twr[i]
      {
        TwrRecordsAt(p, n, mode, i);
        TwoWayRecordRoundTrip(d, i);
      }
      assert recs == d.twr;
    }
  }
}
