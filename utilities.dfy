// The demo serializers: each copies the fields of one API structure into a
// response buffer through a stream pointer and adds each field's size to a
// 16-bit running offset, which it reports as the response size. Multi-byte
// fields are written little-endian.
module Utilities {
  import opened Bytes
  import opened UciDefs
  import opened UwbUcifNtf
  import opened UwbApiTypes


  /** One field written through the stream pointer. */
  datatype Field = U8(b: u8) | U16(h: u16) | U32(w: u32) | U64(d: u64) | Arr(bytes: seq<u8>)

  function FieldBytes(f: Field): (r: seq<u8>)
  {
    match f
    case U8(b) => [b]
    case U16(h) => ToLE16(h)
    case U32(w) => ToLE32(w)
    case U64(d) => ToLE64(d)
    case Arr(bytes) => bytes
  }

  /** The size the serializer adds to its offset for a field: the `sizeof`
      of a scalar, the copied length of an array. */
  function FieldSize(f: Field): (n: nat)
  {
    match f
    case U8(_) => 1
    case U16(_) => 2
    case U32(_) => 4
    case U64(_) => 8
    case Arr(bytes) => |bytes|
  }

  /** The bytes of a field list, one field after the other. */
  function Encode(fs: seq<Field>): (r: seq<u8>)
  {
    if fs == [] then [] else Encode(fs[..|fs| - 1]) + FieldBytes(fs[|fs| - 1])
  }

  /** The sum of the sizes of a field list. */
  function TotalSize(fs: seq<Field>): nat
  {
    if fs == [] then 0 else TotalSize(fs[..|fs| - 1]) + FieldSize(fs[|fs| - 1])
  }

  /** The bytes a field writes are as many as the size it accounts. */
  lemma FieldSizeIsWritten(f: Field)
    ensures |FieldBytes(f)| == FieldSize(f)
  {
  }

  /** Every field list accounts exactly the bytes it writes. */
  lemma {:induction false} TotalSizeIsWritten(fs: seq<Field>)
    ensures |Encode(fs)| == TotalSize(fs)
    decreases |fs|
  {
    if fs != [] {
      TotalSizeIsWritten(fs[..|fs| - 1]);
      FieldSizeIsWritten(fs[|fs| - 1]);
    }
  }

  /** The writing loop common to every `serializeDataFrom*` function: each
      field is appended and its size added to the offset, truncated to 16
      bits as the `(UINT16)` cast does. The reported size is the number of
      bytes written, modulo 2^16. */
  method Serialize(fs: seq<Field>) returns (buf: seq<u8>, size: u16)
    ensures buf == Encode(fs)
    ensures size == |buf| % 0x1_0000
  {
    buf := [];
    var offset: u16 := 0;
    var i := 0;
    while i < |fs|
      invariant 0 <= i <= |fs|
      invariant buf == Encode(fs[..i])
      invariant offset == TotalSize(fs[..i]) % 0x1_0000
    {
      assert fs[..i + 1][..i] == fs[..i];
      buf := buf + FieldBytes(fs[i]);
      offset := (offset + FieldSize(fs[i])) % 0x1_0000;
      i := i + 1;
    }
    assert fs[..|fs|] == fs;
    TotalSizeIsWritten(fs);
    size := offset;
  }

  /** Encoding one more field appends its bytes. */
  lemma EncodeSnoc(fs: seq<Field>, f: Field)
    ensures Encode(fs + [f]) == Encode(fs) + FieldBytes(f)
  {
    assert (fs + [f])[..|fs|] == fs;
  }

  /** A single field encodes to its own bytes. */
  lemma EncodeOne(f: Field)
    ensures Encode([f]) == FieldBytes(f)
  {
    assert [f][..0] == [];
  }

  lemma EncodeAppend(fs: seq<Field>, gs: seq<Field>)
    ensures Encode(fs + gs) == Encode(fs) + Encode(gs)
    decreases |gs|
  {
    if gs == [] {
      assert fs + gs == fs;
    } else {
      var g := gs[..|gs| - 1];
      assert (fs + gs)[..|fs + gs| - 1] == fs + g;
      EncodeAppend(fs, g);
    }
  }

  // ---------------------------------------------------------------------
  // The structures and their layouts, one function per serializer.


  /** The address length the ranging-parameter serializer uses: 2, or 8 on
      SR100T when the addressing mode is not short. */
  function AddrLen(chip: Chip, macAddrMode: u8): (n: nat)
    ensures n == MAC_EXT_ADD_LEN <==> chip == SR100T && macAddrMode != SHORT_MAC_ADDRESS
    ensures n == MAC_SHORT_ADD_LEN || n == MAC_EXT_ADD_LEN
  {
    match chip
    case SR100T => if macAddrMode != SHORT_MAC_ADDRESS then MAC_EXT_ADD_LEN else MAC_SHORT_ADD_LEN
    case SR040 => MAC_SHORT_ADD_LEN
  }

  /** Whether the structure holds the bytes the serializer copies. */
  predicate RangingParamsReadable(chip: Chip, p: RangingParams)
  {
    var a := AddrLen(chip, p.macAddrMode);
    a <= |p.deviceMacAddr| && a * p.noOfControlees <= |p.dstMacAddr|
  }

  /** `serializeDataFromRangingParams`. */
  function RangingParamsFields(chip: Chip, p: RangingParams): seq<Field>
    requires RangingParamsReadable(chip, p)
  {
    var a := AddrLen(chip, p.macAddrMode);
    [U8(p.deviceRole), U8(p.multiNodeMode), U8(p.noOfControlees)]
      + (if chip == SR100T then [U8(p.macAddrMode)] else [])
      + [Arr(p.deviceMacAddr[..a]), Arr(p.dstMacAddr[..a * p.noOfControlees]), U8(p.deviceType)]
  }

  /** The ranging parameters take three bytes, one more for the addressing
      mode on SR100T, one address for the device and one per controlee, and
      the device type. */
  lemma RangingParamsSize(chip: Chip, p: RangingParams)
    requires RangingParamsReadable(chip, p)
    ensures TotalSize(RangingParamsFields(chip, p)) ==
            3 + (if chip == SR100T then 1 else 0) + AddrLen(chip, p.macAddrMode) * (1 + p.noOfControlees) + 1
  {
    var a := AddrLen(chip, p.macAddrMode);
    var head: seq<Field> := [U8(p.deviceRole), U8(p.multiNodeMode), U8(p.noOfControlees)];
    var mode: seq<Field> := if chip == SR100T then [U8(p.macAddrMode)] else [];
    var tail: seq<Field> := [Arr(p.deviceMacAddr[..a]), Arr(p.dstMacAddr[..a * p.noOfControlees]), U8(p.deviceType)];
    TotalSizeAppend(head + mode, tail);
    TotalSizeAppend(head, mode);
    TotalSizeIsSum(head);
    assert Widths(head) == [1, 1, 1];
    if chip == SR100T {
      TotalSizeOne(U8(p.macAddrMode));
    }
    TotalSizeIsSum(tail);
    assert Widths(tail) == [a, a * p.noOfControlees, 1];
    Sum3(a, a * p.noOfControlees, 1);
  }

  /** Helper: the sum of a three-element list. */
  lemma Sum3(x: nat, y: nat, z: nat)
    ensures Sum([x, y, z]) == x + y + z
  {
    assert Sum([z]) == z by {
      assert [z][1..] == [];
    }
    assert Sum([y, z]) == y + z by {
      assert [y, z][1..] == [z];
    }
    assert [x, y, z][1..] == [y, z];
  }

  /** `serializeDataFromDebugParams`. */
  function DebugParamsFields(d: DebugParams): seq<Field>
  {
    [U16(d.secureThread), U16(d.secureIsrThread), U16(d.nonSecureIsrThread), U16(d.shellThread),
     U16(d.phyThread), U16(d.rangingThread), U8(d.dataLoggerNtf), U8(d.cirLogNtf), U8(d.psduLogNtf),
     U8(d.rframeLogNtf)]
  }

  /** `phRfTestParams_t`. */
  datatype RfTestParams = RfTestParams(
    numOfPckts: u32, tGap: u32, tStart: u32, tWin: u32, randomizedSize: u8, rawPhr: u16,
    rmarkerTxStart: u32, rmarkerRxStart: u32, stsIndexAutoIncr: u8, macCfg: u8)

  /** `serializeDataFromPerParams`. */
  function PerParamsFields(t: RfTestParams): seq<Field>
  {
    [U32(t.numOfPckts), U32(t.tGap), U32(t.tStart), U32(t.tWin), U8(t.randomizedSize), U16(t.rawPhr),
     U32(t.rmarkerTxStart), U32(t.rmarkerRxStart), U8(t.stsIndexAutoIncr), U8(t.macCfg)]
  }

  /** A field list of scalars only, as a list of their widths. */
  function Widths(fs: seq<Field>): seq<nat>
  {
    seq(|fs|, i requires 0 <= i < |fs| => FieldSize(fs[i]))
  }

  function Sum(ns: seq<nat>): nat
  {
    if ns == [] then 0 else ns[0] + Sum(ns[1..])
  }

  lemma {:induction false} SumSnoc(ns: seq<nat>, x: nat)
    ensures Sum(ns + [x]) == Sum(ns) + x
    decreases |ns|
  {
    if ns == [] {
      assert [x][1..] == [];
    } else {
      assert (ns + [x])[1..] == ns[1..] + [x];
      SumSnoc(ns[1..], x);
    }
  }

  /** Helper: the sum of a one-element list. */
  lemma Sum1(x: nat)
    ensures Sum([x]) == x
  {
    assert [x][1..] == [];
  }

  /** Helper: a list split into four blocks sums to the blocks' sums. */
  lemma {:induction false} SumBlocks(a: seq<nat>, b: seq<nat>, c: seq<nat>, d: seq<nat>)
    ensures Sum(a + b + c + d) == Sum(a) + Sum(b) + Sum(c) + Sum(d)
  {
    SumAppend(a + b + c, d);
    SumAppend(a + b, c);
    SumAppend(a, b);
  }

  lemma {:induction false} SumAppend(a: seq<nat>, b: seq<nat>)
    ensures Sum(a + b) == Sum(a) + Sum(b)
    decreases |a|
  {
    if a == [] {
      assert a + b == b;
    } else {
      assert (a + b)[1..] == a[1..] + b;
      SumAppend(a[1..], b);
    }
  }

  /** The size of a field list is the sum of its field widths. */
  lemma {:induction false} TotalSizeIsSum(fs: seq<Field>)
    ensures TotalSize(fs) == Sum(Widths(fs))
    decreases |fs|
  {
    if fs != [] {
      var init := fs[..|fs| - 1];
      assert Widths(fs) == Widths(init) + [FieldSize(fs[|fs| - 1])];
      TotalSizeIsSum(init);
      SumSnoc(Widths(init), FieldSize(fs[|fs| - 1]));
    }
  }

  /** The PER test parameters serialize to 29 bytes: four 32-bit times, the
      randomized-size byte, the 16-bit raw PHR, two 32-bit markers and two
      bytes. */
  lemma PerParamsSize(t: RfTestParams)
    ensures TotalSize(PerParamsFields(t)) == 29
  {
    var fs := PerParamsFields(t);
    TotalSizeIsSum(fs);
    assert Widths(fs) == [4, 4, 4, 4, 1, 2, 4, 4, 1, 1];
    assert [4, 4, 4, 4, 1, 2, 4, 4, 1, 1] == [4, 4, 4] + [4, 1, 2] + [4, 4, 1] + [1];
    SumBlocks([4, 4, 4], [4, 1, 2], [4, 4, 1], [1]);
    Sum3(4, 4, 4);
    Sum3(4, 1, 2);
    Sum3(4, 4, 1);
    Sum1(1);
  }

  /** The debug parameters serialize to 16 bytes. */
  lemma DebugParamsSize(d: DebugParams)
    ensures TotalSize(DebugParamsFields(d)) == 16
  {
    var fs := DebugParamsFields(d);
    TotalSizeIsSum(fs);
    assert Widths(fs) == [2, 2, 2, 2, 2, 2, 1, 1, 1, 1];
    assert [2, 2, 2, 2, 2, 2, 1, 1, 1, 1] == [2, 2, 2] + [2, 2, 2] + [1, 1, 1] + [1];
    SumBlocks([2, 2, 2], [2, 2, 2], [1, 1, 1], [1]);
    Sum3(2, 2, 2);
    Sum3(1, 1, 1);
    Sum1(1);
  }

  /** One `phRangingMesr_t`; the angle fields hold the bit patterns of the
      signed 16-bit values. */
  datatype ApiTwrMeasurement = ApiTwrMeasurement(
    macAddr: seq<u8>, status: u8, nLos: u8, distance: u16,
    aoaFirst: u16, aoaSecond: u16, pdoaFirst: u16, pdoaSecond: u16,
    pdoaFirstIndex: u16, pdoaSecondIndex: u16, aoaDestFirst: u16, aoaDestSecond: u16, slotIndex: u8)

  /** `phRangingMesrTdoa_t`. */
  datatype ApiTdoaMeasurement = ApiTdoaMeasurement(
    macAddr: seq<u8>, frameType: u8, nLos: u8,
    aoaFirst: u16, aoaSecond: u16, pdoaFirst: u16, pdoaSecond: u16,
    pdoaFirstIndex: u16, pdoaSecondIndex: u16, timestamp: u64, blinkFrameNumber: u32,
    rssiRx1: u16, rssiRx2: u16, deviceInfo: seq<u8>, blinkPayload: seq<u8>)

  /** `phRangingData_t`. */
  datatype ApiRangingData = ApiRangingData(
    seqCtr: u32, sessionId: u32, rcrIndication: u8, currRangeInterval: u32,
    rangingMeasureType: u8, antennaPairSel: u8, macAddrModeIndicator: u8, noOfMeasurements: u8,
    rangeMeas: seq<ApiTwrMeasurement>, rangeMeasTdoa: ApiTdoaMeasurement)

  /** The address length the ranging-data serializer uses: 2 for the short
      mode, 8 for any other. */
  function MeasMacLen(mode: u8): (n: nat)
    ensures n == MAC_SHORT_ADD_LEN <==> mode == SHORT_MAC_ADDRESS
    ensures n == MAC_SHORT_ADD_LEN || n == MAC_EXT_ADD_LEN
  {
    if mode == SHORT_MAC_ADDRESS then MAC_SHORT_ADD_LEN else MAC_EXT_ADD_LEN
  }

  /** Whether the structure holds the bytes the serializer copies: an address
      per measurement and one record per counted measurement, and device
      information and blink payload whose lengths fit their size bytes. */
  predicate RangingDataReadable(d: ApiRangingData)
  {
    var a := MeasMacLen(d.macAddrModeIndicator);
    (d.rangingMeasureType == MEASUREMENT_TYPE_TWOWAY ==>
       d.noOfMeasurements as nat <= |d.rangeMeas| &&
       forall i | 0 <= i < d.noOfMeasurements as nat :: a <= |d.rangeMeas[i].macAddr|) &&
    (d.rangingMeasureType == MEASUREMENT_TYPE_ONEWAY ==>
       a <= |d.rangeMeasTdoa.macAddr| && |d.rangeMeasTdoa.deviceInfo| < 0x100 &&
       |d.rangeMeasTdoa.blinkPayload| < 0x100)
  }

  function TwrFields(m: ApiTwrMeasurement, a: nat): seq<Field>
    requires a <= |m.macAddr|
  {
    [Arr(m.macAddr[..a]), U8(m.status), U8(m.nLos), U16(m.distance), U16(m.aoaFirst), U16(m.aoaSecond),
     U16(m.pdoaFirst), U16(m.pdoaSecond), U16(m.pdoaFirstIndex), U16(m.pdoaSecondIndex),
     U16(m.aoaDestFirst), U16(m.aoaDestSecond), U8(m.slotIndex)]
  }

  function TwrListFields(ms: seq<ApiTwrMeasurement>, a: nat): seq<Field>
    requires forall i | 0 <= i < |ms| :: a <= |ms[i].macAddr|
  {
    if ms == [] then [] else TwrListFields(ms[..|ms| - 1], a) + TwrFields(ms[|ms| - 1], a)
  }

  function TdoaFields(t: ApiTdoaMeasurement, a: nat): seq<Field>
    requires a <= |t.macAddr| && |t.deviceInfo| < 0x100 && |t.blinkPayload| < 0x100
  {
    [Arr(t.macAddr[..a]), U8(t.frameType), U8(t.nLos), U16(t.aoaFirst), U16(t.aoaSecond),
     U16(t.pdoaFirst), U16(t.pdoaSecond), U16(t.pdoaFirstIndex), U16(t.pdoaSecondIndex),
     U64(t.timestamp), U32(t.blinkFrameNumber), U16(t.rssiRx1), U16(t.rssiRx2),
     U8(|t.deviceInfo|), Arr(t.deviceInfo), U8(|t.blinkPayload|), Arr(t.blinkPayload)]
  }

  /** `serializeDataFromRangingDataNtf`: the fixed fields, then the counted
      two-way measurements or the one-way measurement, or nothing more for
      any other measurement type. */
  function RangingDataNtfFields(d: ApiRangingData): seq<Field>
    requires RangingDataReadable(d)
  {
    var a := MeasMacLen(d.macAddrModeIndicator);
    [U32(d.seqCtr), U32(d.sessionId), U8(d.rcrIndication), U32(d.currRangeInterval),
     U8(d.rangingMeasureType), U8(d.antennaPairSel), U8(d.macAddrModeIndicator), U8(d.noOfMeasurements)]
      + (if d.rangingMeasureType == MEASUREMENT_TYPE_TWOWAY then
           TwrListFields(d.rangeMeas[..d.noOfMeasurements], a)
         else if d.rangingMeasureType == MEASUREMENT_TYPE_ONEWAY then
           TdoaFields(d.rangeMeasTdoa, a)
         else [])
  }

  lemma TotalSizeAppend(fs: seq<Field>, gs: seq<Field>)
    ensures TotalSize(fs + gs) == TotalSize(fs) + TotalSize(gs)
    decreases |gs|
  {
    if gs == [] {
      assert fs + gs == fs;
    } else {
      var g := gs[..|gs| - 1];
      assert (fs + gs)[..|fs + gs| - 1] == fs + g;
      TotalSizeAppend(fs, g);
    }
  }

  /** One two-way measurement takes its address and 21 bytes. */
  lemma TwrFieldsSize(m: ApiTwrMeasurement, a: nat)
    requires a <= |m.macAddr|
    ensures TotalSize(TwrFields(m, a)) == a + 21
  {
    var fs := TwrFields(m, a);
    var rest := fs[1..];
    assert fs == [fs[0]] + rest;
    TotalSizeAppend([fs[0]], rest);
    TotalSizeOne(fs[0]);
    TotalSizeIsSum(rest);
    assert Widths(rest) == [1, 1, 2, 2, 2, 2, 2, 2, 2, 2, 2, 1];
    assert [1, 1, 2, 2, 2, 2, 2, 2, 2, 2, 2, 1] == [1, 1, 2] + [2, 2, 2] + [2, 2, 2] + [2, 2, 1];
    SumBlocks([1, 1, 2], [2, 2, 2], [2, 2, 2], [2, 2, 1]);
    Sum3(1, 1, 2);
    Sum3(2, 2, 2);
    Sum3(2, 2, 1);
  }

  lemma TotalSizeOne(f: Field)
    ensures TotalSize([f]) == FieldSize(f)
  {
    assert [f][..0] == [];
  }

  /** A two-way ranging notification takes 17 bytes plus an address and 21
      bytes per measurement. */
  lemma {:induction false} TwrListSize(ms: seq<ApiTwrMeasurement>, a: nat)
    requires forall i | 0 <= i < |ms| :: a <= |ms[i].macAddr|
    ensures TotalSize(TwrListFields(ms, a)) == (a + 21) * |ms|
    decreases |ms|
  {
    if ms != [] {
      var init := ms[..|ms| - 1];
      TwrListSize(init, a);
      TotalSizeAppend(TwrListFields(init, a), TwrFields(ms[|ms| - 1], a));
      TwrFieldsSize(ms[|ms| - 1], a);
    }
  }

  lemma RangingDataTwoWaySize(d: ApiRangingData)
    requires RangingDataReadable(d) && d.rangingMeasureType == MEASUREMENT_TYPE_TWOWAY
    ensures TotalSize(RangingDataNtfFields(d)) ==
            17 + (MeasMacLen(d.macAddrModeIndicator) + 21) * d.noOfMeasurements as nat
  {
    var a := MeasMacLen(d.macAddrModeIndicator);
    var hdr := [U32(d.seqCtr), U32(d.sessionId), U8(d.rcrIndication), U32(d.currRangeInterval),
                U8(d.rangingMeasureType), U8(d.antennaPairSel), U8(d.macAddrModeIndicator), U8(d.noOfMeasurements)];
    TotalSizeIsSum(hdr);
    assert Widths(hdr) == [4, 4, 1, 4, 1, 1, 1, 1];
    assert [4, 4, 1, 4, 1, 1, 1, 1] == [4, 4, 1] + [4, 1, 1] + [1] + [1];
    SumBlocks([4, 4, 1], [4, 1, 1], [1], [1]);
    Sum3(4, 4, 1);
    Sum3(4, 1, 1);
    Sum1(1);
    TotalSizeAppend(hdr, TwrListFields(d.rangeMeas[..d.noOfMeasurements], a));
    TwrListSize(d.rangeMeas[..d.noOfMeasurements], a);
  }

  /** `phUwbDevInfo_t` as the stack-information serializer reads it. On
      SR040 `devName` is the fixed-size name array. */
  datatype StackInfo = StackInfo(uciVersion: u16, devName: seq<u8>, fwMajor: u8, fwMinor: u8, mwMajor: u8, mwMinor: u8)

  /** `serializeStackInfo`: on SR100T the name is preceded by its length. */
  function StackInfoFields(chip: Chip, s: StackInfo): seq<Field>
    requires |s.devName| < 0x100
  {
    [U16(s.uciVersion)]
      + (if chip == SR100T then [U8(|s.devName|)] else [])
      + [Arr(s.devName), U8(s.fwMajor), U8(s.fwMinor), U8(s.mwMajor), U8(s.mwMinor)]
  }

  /** `serializeDataFromPerTxDataNtf`. */
  function PerTxDataNtfFields(status: u8): seq<Field>
  {
    [U8(status)]
  }

  /** `serializeDataFromRcvDataNtf` (SR100T): session, status, length and
      the data. */
  function RcvDataNtfFields(sessionId: u32, status: u8, data: seq<u8>): seq<Field>
    requires |data| < 0x100
  {
    [U32(sessionId), U8(status), U8(|data|), Arr(data)]
  }

  /** `serializeDataFromSendDataNtf` (SR100T). */
  function SendDataNtfFields(sessionId: u32, status: u8): seq<Field>
  {
    [U32(sessionId), U8(status)]
  }

  /** `serializeDataFromLoopTestNtf` (SR100T). */
  function LoopTestNtfFields(status: u8, loopCnt: u16, loopPassCount: u16): seq<Field>
  {
    [U8(status), U16(loopCnt), U16(loopPassCount)]
  }

  /** `serializeDataFromSessionStatusNtf`: the reason code is not sent. */
  function SessionStatusNtfFields(sessionId: u32, state: u8): seq<Field>
  {
    [U32(sessionId), U8(state)]
  }

  /** `serializeDataFromDoBindStatusNtf` (SR100T). */
  function DoBindStatusNtfFields(status: u8, countRemaining: u8, bindingState: u8): seq<Field>
  {
    [U8(status), U8(countRemaining), U8(bindingState)]
  }

  /** `serializeDataFromGetBindingStatusNtf` (SR100T). */
  function GetBindingStatusNtfFields(status: u8, seBindingCount: u8, uwbdBindingCount: u8): seq<Field>
  {
    [U8(status), U8(seBindingCount), U8(uwbdBindingCount)]
  }

  /** `serializeDataFromGetBindingCountResponse` (SR100T). */
  function GetBindingCountResponseFields(bindingStatus: u8, uwbdBindingCount: u8, seBindingCount: u8): seq<Field>
  {
    [U8(bindingStatus), U8(uwbdBindingCount), U8(seBindingCount)]
  }

  /** `factoryFwTestStatus_t` (SR100T). */
  datatype FactoryTestStatus = FactoryTestStatus(
    shutDownStatus: u8, fwDlStatus: u8, seInitStatus: u8, connectivityTestStatus: u8, wtxCount: u8,
    doBindStatus: u8, doBindCountRemaining: u8, doBindBindingState: u8,
    bindingStatus: u8, uwbdBindingCount: u8, seBindingCount: u8, testStatus: u8)

  /** `serializeDataFromFactoryTestStatus`: twelve status bytes. */
  function FactoryTestStatusFields(f: FactoryTestStatus): seq<Field>
  {
    [U8(f.shutDownStatus), U8(f.fwDlStatus), U8(f.seInitStatus), U8(f.connectivityTestStatus),
     U8(f.wtxCount), U8(f.doBindStatus), U8(f.doBindCountRemaining), U8(f.doBindBindingState),
     U8(f.bindingStatus), U8(f.uwbdBindingCount), U8(f.seBindingCount), U8(f.testStatus)]
  }

  /** `mainLineFwTestStatus_t` (SR100T). */
  datatype MainlineTestStatus = MainlineTestStatus(
    shutDownStatus: u8, fwDlStatus: u8, seInitStatus: u8,
    loopStatus: u8, loopCnt: u16, loopPassCount: u16,
    bindingStatus: u8, uwbdBindingCount: u8, seBindingCount: u8, testStatus: u8)

  /** `serializeDataFromMainlineTestStatus`. */
  function MainlineTestStatusFields(m: MainlineTestStatus): seq<Field>
  {
    [U8(m.shutDownStatus), U8(m.fwDlStatus), U8(m.seInitStatus), U8(m.loopStatus), U16(m.loopCnt),
     U16(m.loopPassCount), U8(m.bindingStatus), U8(m.uwbdBindingCount), U8(m.seBindingCount), U8(m.testStatus)]
  }

  /** `serializeDataFromDoCalibrationNtf` (SR100T): the status, then the
      calibration value. */
  function DoCalibrationNtfFields(status: u8, calibValueOut: seq<u8>): seq<Field>
  {
    [U8(status), Arr(calibValueOut)]
  }

  /** Whether a multicast notification holds one subsession id and one status
      per counted controlee. */
  predicate MulticastReadable(n: MulticastListNtf)
  {
    n.noOfControlees as nat <= |n.subsessionIds| && n.noOfControlees as nat <= |n.statuses|
  }

  function ControleeFields(ids: seq<u32>, statuses: seq<u8>): seq<Field>
    requires |ids| == |statuses|
    ensures |ControleeFields(ids, statuses)| == 2 * |ids|
  {
    if ids == [] then []
    else ControleeFields(ids[..|ids| - 1], statuses[..|ids| - 1]) + [U32(ids[|ids| - 1]), U8(statuses[|ids| - 1])]
  }

  /** `serializeDataFromMulticastControleeListUpdateNtf`: session, remaining
      list, count, then a subsession id and a status per controlee. */
  function MulticastNtfFields(n: MulticastListNtf): seq<Field>
    requires MulticastReadable(n)
  {
    var k := n.noOfControlees as nat;
    [U32(n.sessionId), U8(n.remainingList), U8(n.noOfControlees)]
      + ControleeFields(n.subsessionIds[..k], n.statuses[..k])
  }

  /** Encoding the controlee records appends the last record's five bytes
      to the encoding of the others. */
  lemma ControleeEncodeSnoc(ids: seq<u32>, statuses: seq<u8>)
    requires |ids| == |statuses| && ids != []
    ensures var k := |ids| - 1;
            Encode(ControleeFields(ids, statuses)) ==
            Encode(ControleeFields(ids[..k], statuses[..k])) + ToLE32(ids[k]) + [statuses[k]]
  {
    var k := |ids| - 1;
    var init := ControleeFields(ids[..k], statuses[..k]);
    assert ControleeFields(ids, statuses) == init + [U32(ids[k])] + [U8(statuses[k])];
    EncodeSnoc(init + [U32(ids[k])], U8(statuses[k]));
    EncodeSnoc(init, U32(ids[k]));
  }

  /** The controlee records take five bytes each. */
  lemma {:induction false} ControleeLength(ids: seq<u32>, statuses: seq<u8>)
    requires |ids| == |statuses|
    ensures |Encode(ControleeFields(ids, statuses))| == MULTICAST_RECORD_LEN * |ids|
    decreases |ids|
  {
    if ids != [] {
      var k := |ids| - 1;
      ControleeEncodeSnoc(ids, statuses);
      ControleeLength(ids[..k], statuses[..k]);
    }
  }

  /** A five-byte record of `b0` is still there once a record is appended. */
  lemma RecordKept(b0: seq<u8>, t: seq<u8>, o: nat)
    requires o + 5 <= |b0|
    ensures (b0 + t)[o..o + 4] == b0[o..o + 4] && (b0 + t)[o + 4] == b0[o + 4]
  {
    PrefixSlice(b0, t, o, o + 4);
  }

  /** The appended record sits right after `b0`. */
  lemma RecordAppended(b0: seq<u8>, w: seq<u8>, s: u8)
    requires |w| == 4
    ensures (b0 + (w + [s]))[|b0|..|b0| + 4] == w && (b0 + (w + [s]))[|b0| + 4] == s
  {
    assert (b0 + (w + [s]))[|b0|..|b0| + 4] == (w + [s])[..4];
  }

  /** Record `i` holds the little-endian subsession id, then the status. */
  lemma {:induction false} ControleeBytes(ids: seq<u32>, statuses: seq<u8>, i: nat)
    requires |ids| == |statuses| && i < |ids|
    ensures var b := Encode(ControleeFields(ids, statuses));
            |b| == MULTICAST_RECORD_LEN * |ids| &&
            b[MULTICAST_RECORD_LEN * i..MULTICAST_RECORD_LEN * i + 4] == ToLE32(ids[i]) &&
            b[MULTICAST_RECORD_LEN * i + 4] == statuses[i]
    decreases |ids|
  {
    var k := |ids| - 1;
    var b0 := Encode(ControleeFields(ids[..k], statuses[..k]));
    ControleeEncodeSnoc(ids, statuses);
    ControleeLength(ids[..k], statuses[..k]);
    ControleeLength(ids, statuses);
    assert Encode(ControleeFields(ids, statuses)) == b0 + (ToLE32(ids[k]) + [statuses[k]]);
    var o := MULTICAST_RECORD_LEN * i;
    if i < k {
      ControleeBytes(ids[..k], statuses[..k], i);
      assert o + 5 <= |b0| by {
        assert o + 5 == MULTICAST_RECORD_LEN * (i + 1);
      }
      RecordKept(b0, ToLE32(ids[k]) + [statuses[k]], o);
    } else {
      RecordAppended(b0, ToLE32(ids[k]), statuses[k]);
    }
  }

  /** The multicast notification takes six bytes plus five per controlee. */
  lemma MulticastNtfSize(n: MulticastListNtf)
    requires MulticastReadable(n)
    ensures |Encode(MulticastNtfFields(n))| == MULTICAST_HDR_LEN + MULTICAST_RECORD_LEN * n.noOfControlees as nat
  {
    var k := n.noOfControlees as nat;
    var hdr := [U32(n.sessionId), U8(n.remainingList), U8(n.noOfControlees)];
    EncodeAppend(hdr, ControleeFields(n.subsessionIds[..k], n.statuses[..k]));
    MulticastHeaderBytes(n);
    ControleeLength(n.subsessionIds[..k], n.statuses[..k]);
  }

  /** The three header fields of the multicast notification. */
  lemma MulticastHeaderBytes(n: MulticastListNtf)
    ensures Encode([U32(n.sessionId), U8(n.remainingList), U8(n.noOfControlees)]) ==
            ToLE32(n.sessionId) + [n.remainingList, n.noOfControlees]
  {
    var hdr := [U32(n.sessionId), U8(n.remainingList), U8(n.noOfControlees)];
    assert hdr == [U32(n.sessionId)] + [U8(n.remainingList)] + [U8(n.noOfControlees)];
    EncodeSnoc([U32(n.sessionId)] + [U8(n.remainingList)], U8(n.noOfControlees));
    EncodeSnoc([U32(n.sessionId)], U8(n.remainingList));
    EncodeOne(U32(n.sessionId));
  }

  /** The wire bytes of a multicast notification: the header, then the
      controlee records. */
  lemma MulticastBytesSplit(n: MulticastListNtf)
    requires |n.subsessionIds| == |n.statuses| == n.noOfControlees as nat
    ensures Encode(MulticastNtfFields(n)) ==
            ToLE32(n.sessionId) + [n.remainingList, n.noOfControlees] +
            Encode(ControleeFields(n.subsessionIds, n.statuses))
  {
    var k := n.noOfControlees as nat;
    assert n.subsessionIds[..k] == n.subsessionIds && n.statuses[..k] == n.statuses;
    EncodeAppend([U32(n.sessionId), U8(n.remainingList), U8(n.noOfControlees)],
                 ControleeFields(n.subsessionIds, n.statuses));
    MulticastHeaderBytes(n);
  }

  /** Controlee `i` of the wire bytes decodes back to subsession id `i` and
      status `i`. */
  lemma MulticastRecordRoundTrip(n: MulticastListNtf, i: nat)
    requires |n.subsessionIds| == |n.statuses| == n.noOfControlees as nat
    requires i < n.noOfControlees as nat
    ensures var p := Encode(MulticastNtfFields(n));
            MULTICAST_HDR_LEN + MULTICAST_RECORD_LEN * n.noOfControlees as nat <= |p| &&
            U32At(p, MULTICAST_HDR_LEN + MULTICAST_RECORD_LEN * i) == n.subsessionIds[i] &&
            p[MULTICAST_HDR_LEN + MULTICAST_RECORD_LEN * i + 4] == n.statuses[i]
  {
    var rb := Encode(ControleeFields(n.subsessionIds, n.statuses));
    var h := ToLE32(n.sessionId) + [n.remainingList, n.noOfControlees];
    MulticastBytesSplit(n);
    ControleeBytes(n.subsessionIds, n.statuses, i);
    RecordInFrame(h, rb, MULTICAST_RECORD_LEN * i, n.subsessionIds[i], n.statuses[i]);
  }

  /** Helper: a record inside the bytes after a header is read at its offset
      past the header. */
  lemma RecordInFrame(h: seq<u8>, rb: seq<u8>, o: nat, id: u32, st: u8)
    requires o + 5 <= |rb| && rb[o..o + 4] == ToLE32(id) && rb[o + 4] == st
    ensures U32At(h + rb, |h| + o) == id && (h + rb)[|h| + o + 4] == st
  {
    MidSlice(h, rb, [], o, o + 4);
    assert h + rb + [] == h + rb;
    LE32Injective(U32At(h + rb, |h| + o), id);
  }

  /** What the demo serializes is what the UCI layer decodes: the bytes of a
      multicast notification with at most eight controlees decode back to the
      same notification. */
  lemma MulticastRoundTrip(n: MulticastListNtf)
    requires |n.subsessionIds| == |n.statuses| == n.noOfControlees as nat <= MAX_NUM_CONTROLLEES
    ensures MulticastOutcome(Encode(MulticastNtfFields(n)), true) == Delivered(n)
  {
    MulticastNtfSize(n);
    MulticastHeaderRoundTrip(n);
    MulticastRecordsRoundTrip(n);
  }

  /** Helper: the header fields read back from the wire bytes. */
  lemma MulticastHeaderRoundTrip(n: MulticastListNtf)
    requires |n.subsessionIds| == |n.statuses| == n.noOfControlees as nat
    ensures var p := Encode(MulticastNtfFields(n));
            |p| >= MULTICAST_HDR_LEN && U32At(p, 0) == n.sessionId && p[4] == n.remainingList && p[5] == n.noOfControlees
  {
    var p := Encode(MulticastNtfFields(n));
    MulticastBytesSplit(n);
    assert p[..4] == ToLE32(n.sessionId);
    LE32Injective(U32At(p, 0), n.sessionId);
  }

  /** Helper: the controlee records read back from the wire bytes. */
  lemma MulticastRecordsRoundTrip(n: MulticastListNtf)
    requires |n.subsessionIds| == |n.statuses| == n.noOfControlees as nat
    ensures var p := Encode(MulticastNtfFields(n));
            MULTICAST_HDR_LEN + MULTICAST_RECORD_LEN * n.noOfControlees as nat <= |p| &&
            ControleeRecords(p, n.noOfControlees as nat) == (n.subsessionIds, n.statuses)
  {
    var k := n.noOfControlees as nat;
    var p := Encode(MulticastNtfFields(n));
    MulticastNtfSize(n);
    var out := ControleeRecords(p, k);
    forall i | 0 <= i < k
      ensures out.0[i] == n.subsessionIds[i] && out.1[i] == n.statuses[i]
    {
      ControleeRecordsAt(p, k, i);
      MulticastRecordRoundTrip(n, i);
    }
    assert out.0 == n.subsessionIds && out.1 == n.statuses;
  }
}
