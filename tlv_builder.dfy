// The demo tracker's TLV link to the phone. A TLV is a one-byte type, a
// 16-bit little-endian length and the value. Responses are built field by
// field in a static buffer and sent whole; requests arrive in chunks of at
// most 255 bytes and are reassembled in a receive buffer.
module TlvBuilder {
  import opened Bytes

  const TLV_VALUE_OFFSET: nat := 3
  const TLV_MAX_VALUE_SIZE: nat := 2049
  const TLV_MAX_TOTAL_SIZE: nat := TLV_MAX_VALUE_SIZE + TLV_VALUE_OFFSET + 1
  /** The largest value field of a response. */
  const MAX_RSP_LEN: nat := 64

  /** `UWB_Hif_t`: the host interface a TLV came over. */
  datatype Hif = Ble | Uart

  /** `tlv_t`: a type and its value. */
  datatype Tlv = Tlv(tlvType: u8, value: seq<u8>)

  /** The bytes of a TLV on the link. */
  function Frame(t: Tlv): (f: seq<u8>)
    requires |t.value| < 0x1_0000
    ensures |f| == TLV_VALUE_OFFSET + |t.value| && f[0] == t.tlvType
    ensures LE16(f[1], f[2]) == |t.value| && f[TLV_VALUE_OFFSET..] == t.value
  {
    [t.tlvType] + ToLE16(|t.value|) + t.value
  }

  /** Reading a whole frame: the header's length must match the bytes that
      follow it. */
  function ParseFrame(f: seq<u8>): (r: Option<Tlv>)
    ensures r.Some? <==> |f| >= TLV_VALUE_OFFSET && |f| == TLV_VALUE_OFFSET + LE16(f[1], f[2])
    ensures r.Some? ==> r.value.tlvType == f[0] && r.value.value == f[TLV_VALUE_OFFSET..]
  {
    if |f| >= TLV_VALUE_OFFSET && |f| == TLV_VALUE_OFFSET + LE16(f[1], f[2]) then
      Some(Tlv(f[0], f[TLV_VALUE_OFFSET..]))
    else
      None
  }

  /** A frame reads back as the TLV it was written from. */
  lemma FrameRoundTrip(t: Tlv)
    requires |t.value| < 0x1_0000
    ensures ParseFrame(Frame(t)) == Some(t)
  {
  }

  /** A frame that reads is the frame of what it reads as. */
  lemma ParseFrameRoundTrip(f: seq<u8>)
    requires ParseFrame(f).Some?
    ensures |ParseFrame(f).value.value| < 0x1_0000 && Frame(ParseFrame(f).value) == f
  {
    var t := ParseFrame(f).value;
    LE16Bytes(f[1], f[2]);
    assert Frame(t)[..TLV_VALUE_OFFSET] == f[..TLV_VALUE_OFFSET];
    assert Frame(t) == Frame(t)[..TLV_VALUE_OFFSET] + Frame(t)[TLV_VALUE_OFFSET..];
    assert f == f[..TLV_VALUE_OFFSET] + f[TLV_VALUE_OFFSET..];
  }

  // ---------------------------------------------------------------------
  // Building a response

  /** A field added to a value of a response: appended when the value stays
      within `MAX_RSP_LEN` bytes, and otherwise the whole value is dropped. */
  function Added(v: seq<u8>, field: seq<u8>): (r: seq<u8>)
    ensures |v| + |field| <= MAX_RSP_LEN ==> r == v + field
    ensures |v| + |field| > MAX_RSP_LEN ==> r == []
  {
    if |v| + |field| <= MAX_RSP_LEN then v + field else []
  }

  /** Fields added one after the other. */
  function AddAll(v: seq<u8>, fields: seq<seq<u8>>): seq<u8>
    decreases |fields|
  {
    if fields == [] then v else AddAll(Added(v, fields[0]), fields[1..])
  }

  lemma AddOne(v: seq<u8>, f: seq<u8>)
    ensures AddAll(v, [f]) == Added(v, f)
  {
    assert [f][1..] == [];
  }

  lemma AddTwo(v: seq<u8>, f: seq<u8>, g: seq<u8>)
    ensures AddAll(v, [f, g]) == Added(Added(v, f), g)
  {
    assert [f, g][1..] == [g];
    AddOne(Added(v, f), g);
  }

  lemma AddThree(v: seq<u8>, f: seq<u8>, g: seq<u8>, h: seq<u8>)
    ensures AddAll(v, [f, g, h]) == Added(Added(Added(v, f), g), h)
  {
    assert [f, g, h][1..] == [g, h];
    AddTwo(Added(v, f), g, h);
  }

  function TotalSize(fields: seq<seq<u8>>): nat
  {
    if fields == [] then 0 else |fields[0]| + TotalSize(fields[1..])
  }

  /** Fields that fit together make up the value, in order; once they do
      not fit, the value is never longer than the fields after the drop. */
  lemma {:induction false} AddAllFits(v: seq<u8>, fields: seq<seq<u8>>)
    ensures |v| + TotalSize(fields) <= MAX_RSP_LEN ==> AddAll(v, fields) == v + Concat(fields)
    ensures |AddAll(v, fields)| <= MAX_RSP_LEN || AddAll(v, fields) == v
    decreases |fields|
  {
    if fields != [] {
      AddAllFits(Added(v, fields[0]), fields[1..]);
      if |v| + TotalSize(fields) <= MAX_RSP_LEN {
        assert v + fields[0] + Concat(fields[1..]) == v + Concat(fields);
      }
    }
  }

  /** The response buffer `mTlv`: the type at 0, the length at 1..2 and the
      value from `TLV_VALUE_OFFSET`, `mValueLen` bytes long. */
  class Builder {
    const mTlv: array<u8>
    var mValueLen: nat

    ghost predicate Valid()
      reads this
    {
      mTlv.Length == TLV_VALUE_OFFSET + MAX_RSP_LEN && mValueLen <= MAX_RSP_LEN
    }

    /** The value field built so far. */
    function Value(): seq<u8>
      requires Valid()
      reads this, mTlv
    {
      mTlv[TLV_VALUE_OFFSET..TLV_VALUE_OFFSET + mValueLen]
    }

    constructor ()
      ensures Valid() && mValueLen == 0 && fresh(mTlv)
    {
      mTlv := new u8[TLV_VALUE_OFFSET + MAX_RSP_LEN](_ => 0);
      mValueLen := 0;
    }

    /** `tlvStart`: a new response of the given type, with an empty value. */
    method TlvStart(tlvType: u8) returns (ok: bool)
      requires Valid()
      modifies this, mTlv
      ensures Valid() && ok
      ensures mValueLen == 0 && mTlv[0] == tlvType
      ensures mTlv[1..] == old(mTlv[1..])
    {
      mValueLen := 0;
      mTlv[0] := tlvType;
      ok := true;
    }

    /** `tlvCancel`: the value is dropped; the type stays. */
    method TlvCancel()
      requires Valid()
      modifies this
      ensures Valid() && mValueLen == 0
    {
      mValueLen := 0;
    }

    /** `tlvAdd_UINT8`: a byte is appended when it fits in the 64 bytes of
        the value; otherwise the whole value is dropped. */
    method TlvAddU8(data: u8) returns (ok: bool)
      requires Valid()
      modifies this, mTlv
      ensures Valid() && mTlv[0] == old(mTlv[0])
      ensures ok <==> old(mValueLen) + 1 <= MAX_RSP_LEN
      ensures Value() == Added(old(Value()), [data])
      ensures !ok ==> mTlv[..] == old(mTlv[..])
    {
      if mValueLen + 1 > MAX_RSP_LEN {
        TlvCancel();
        return false;
      }
      mTlv[TLV_VALUE_OFFSET + mValueLen] := data;
      mValueLen := mValueLen + 1;
      ok := true;
    }

    /** `tlvAdd_UINT16`: the high byte first. */
    method TlvAddU16(data: u16) returns (ok: bool)
      requires Valid()
      modifies this, mTlv
      ensures Valid() && mTlv[0] == old(mTlv[0])
      ensures ok <==> old(mValueLen) + 2 <= MAX_RSP_LEN
      ensures Value() == Added(old(Value()), ToBE16(data))
      ensures !ok ==> mTlv[..] == old(mTlv[..])
    {
      if mValueLen + 2 > MAX_RSP_LEN {
        TlvCancel();
        return false;
      }
      var at := TLV_VALUE_OFFSET + mValueLen;
      mTlv[at + 1] := data % 0x100;
      mTlv[at] := data / 0x100;
      mValueLen := mValueLen + 2;
      ok := true;
    }

    /** `tlvAdd_UINT32`: the most significant byte first. */
    method TlvAddU32(data: u32) returns (ok: bool)
      requires Valid()
      modifies this, mTlv
      ensures Valid() && mTlv[0] == old(mTlv[0])
      ensures ok <==> old(mValueLen) + 4 <= MAX_RSP_LEN
      ensures Value() == Added(old(Value()), ToBE32(data))
      ensures !ok ==> mTlv[..] == old(mTlv[..])
    {
      if mValueLen + 4 > MAX_RSP_LEN {
        TlvCancel();
        return false;
      }
      var at := TLV_VALUE_OFFSET + mValueLen;
      var b := ToBE32(data);
      mTlv[at + 3] := b[3];
      mTlv[at + 2] := b[2];
      mTlv[at + 1] := b[1];
      mTlv[at] := b[0];
      mValueLen := mValueLen + 4;
      ok := true;
    }

    /** `tlvAdd_PTR`: a byte string is appended when it fits. */
    method TlvAddPtr(data: seq<u8>) returns (ok: bool)
      requires Valid() && |data| < 0x1_0000
      modifies this, mTlv
      ensures Valid() && mTlv[0] == old(mTlv[0])
      ensures ok <==> old(mValueLen) + |data| <= MAX_RSP_LEN
      ensures Value() == Added(old(Value()), data)
      ensures !ok ==> mTlv[..] == old(mTlv[..])
    {
      if mValueLen + |data| > MAX_RSP_LEN {
        TlvCancel();
        return false;
      }
      var at := TLV_VALUE_OFFSET + mValueLen;
      for i := 0 to |data|
        invariant mValueLen == old(mValueLen)
        invariant mTlv[..at] == old(mTlv[..at])
        invariant mTlv[at..at + i] == data[..i]
      {
        mTlv[at + i] := data[i];
      }
      assert mTlv[TLV_VALUE_OFFSET..at + |data|] == mTlv[TLV_VALUE_OFFSET..at] + mTlv[at..at + |data|];
      assert mTlv[TLV_VALUE_OFFSET..at] == mTlv[..at][TLV_VALUE_OFFSET..];
      mValueLen := mValueLen + |data|;
      ok := true;
    }

    /** `tlvSend`: the length goes into the header, low byte first, and the
        header and value are handed to the interface the last request came
        over. Only BLE is wired up; `sendOk` is what the BLE stack answers.
        Returns the bytes handed over. */
    method TlvSend(iface: Hif, sendOk: bool) returns (ok: bool, sent: Option<seq<u8>>)
      requires Valid()
      modifies mTlv
      ensures Valid() && Value() == old(Value()) && mTlv[0] == old(mTlv[0])
      ensures ok <==> iface == Ble && sendOk
      ensures sent == if iface == Ble then Some(Frame(Tlv(mTlv[0], Value()))) else None
    {
      mTlv[1] := mValueLen % 0x100;
      mTlv[2] := mValueLen / 0x100;
      if iface == Ble {
        sent := Some(mTlv[..TLV_VALUE_OFFSET + mValueLen]);
        assert mTlv[..TLV_VALUE_OFFSET + mValueLen] == [mTlv[0]] + ToLE16(mValueLen) + Value();
        ok := sendOk;
      } else {
        sent := None;
        ok := false;
      }
    }
  }

  /** Whatever a response was built from, the frame sent for it reads back
      as its type and value, and the value never exceeds 64 bytes. */
  lemma SentResponseReads(tlvType: u8, value: seq<u8>)
    requires |value| <= MAX_RSP_LEN
    ensures ParseFrame(Frame(Tlv(tlvType, value))) == Some(Tlv(tlvType, value))
    ensures |Frame(Tlv(tlvType, value))| <= TLV_VALUE_OFFSET + MAX_RSP_LEN
  {
    FrameRoundTrip(Tlv(tlvType, value));
  }

  // ---------------------------------------------------------------------
  // Reassembling a request

  /** `rcvTlv`: the receive buffer, the bytes received so far, the size the
      header announced and whether the header was read. The buffer is a
      sequence so that a copy past its declared size shows as growth. */
  datatype RcvState = RcvState(data: seq<u8>, rcvSize: u16, expSize: u16, offsetFlag: bool)

  /** The state `tlvBuilderInit` and `tlvFlushInput` leave. */
  function Idle(data: seq<u8>): RcvState
  {
    RcvState(data, 0, 0, false)
  }

  /** A 16-bit wrap never makes a size larger. */
  lemma WrapBelow(n: nat)
    ensures n % 0x1_0000 <= n
  {
  }

  /** The first half of `tlvRecv`: the chunk is appended, and once three
      bytes are in, the header's length plus three is taken, once, as the
      expected size (both sizes are 16-bit and wrap). */
  function Appended(s: RcvState, chunk: seq<u8>): (a: RcvState)
    requires s.rcvSize <= |s.data|
    ensures a.rcvSize <= |a.data| && s.rcvSize + |chunk| <= |a.data|
  {
    var data := Write(s.data, s.rcvSize, chunk);
    var rcvSize: u16 := (s.rcvSize + |chunk|) % 0x1_0000;
    WrapBelow(s.rcvSize + |chunk|);
    if rcvSize >= TLV_VALUE_OFFSET && !s.offsetFlag then
      RcvState(data, rcvSize, (LE16(data[1], data[2]) + TLV_VALUE_OFFSET) % 0x1_0000, true)
    else
      RcvState(data, rcvSize, s.expSize, s.offsetFlag)
  }

  /** The second half: when the received size is exactly the expected one,
      the TLV is handed on and reception restarts. */
  function Completed(a: RcvState): (r: (RcvState, Option<Tlv>))
    requires a.rcvSize <= |a.data|
    ensures r.0.rcvSize <= |r.0.data| && r.0.data == a.data
    ensures r.1.Some? <==> a.rcvSize >= TLV_VALUE_OFFSET && a.expSize == a.rcvSize
    ensures r.1.Some? ==> r.0.rcvSize == 0 && !r.0.offsetFlag
    ensures r.1.None? ==> r.0 == a
  {
    if a.rcvSize >= TLV_VALUE_OFFSET && a.expSize == a.rcvSize then
      (a.(rcvSize := 0, offsetFlag := false), Some(Tlv(a.data[0], a.data[TLV_VALUE_OFFSET..a.expSize])))
    else
      (a, None)
  }

  /** One call of `tlvRecv` with a chunk. `checked` selects the corrected
      reception, which flushes the input instead of copying past the
      buffer. */
  function RecvStep(s: RcvState, chunk: seq<u8>, checked: bool): (r: (RcvState, Option<Tlv>))
    requires s.rcvSize <= |s.data| && |chunk| < 0x100
    ensures r.0.rcvSize <= |r.0.data|
    ensures r.1.Some? ==> r.0.rcvSize == 0 && !r.0.offsetFlag
  {
    if checked && s.rcvSize + |chunk| > TLV_MAX_TOTAL_SIZE then
      (Idle(s.data), None)
    else
      Completed(Appended(s, chunk))
  }

  predicate ChunksFit(chunks: seq<seq<u8>>)
  {
    forall i :: 0 <= i < |chunks| ==> |chunks[i]| < 0x100
  }

  /** A run of `tlvRecv` calls: the final state and the TLVs handed on. */
  function Feed(s: RcvState, chunks: seq<seq<u8>>, checked: bool): (r: (RcvState, seq<Tlv>))
    requires s.rcvSize <= |s.data| && ChunksFit(chunks)
    ensures r.0.rcvSize <= |r.0.data|
    decreases |chunks|
  {
    if chunks == [] then (s, [])
    else
      var step := RecvStep(s, chunks[0], checked);
      var rest := Feed(step.0, chunks[1..], checked);
      (rest.0, (if step.1.Some? then [step.1.value] else []) + rest.1)
  }

  /** A frame that fits the buffer, in a partly received state: the bytes so
      far are its prefix, the header was read exactly when three bytes are
      in, and the remaining chunks carry the rest of it. */
  ghost predicate Receiving(s: RcvState, frame: seq<u8>, chunks: seq<seq<u8>>)
  {
    TLV_VALUE_OFFSET <= |frame| <= TLV_MAX_TOTAL_SIZE
    && |frame| == TLV_VALUE_OFFSET + LE16(frame[1], frame[2])
    && (forall i :: 0 <= i < |chunks| ==> 0 < |chunks[i]| < 0x100)
    && s.rcvSize <= |s.data| && s.rcvSize < |frame|
    && s.data[..s.rcvSize] == frame[..s.rcvSize]
    && Concat(chunks) == frame[s.rcvSize..]
    && (s.offsetFlag <==> s.rcvSize >= TLV_VALUE_OFFSET)
    && (s.offsetFlag ==> s.expSize as int == |frame|)
  }

  /** Appending the next chunk of a frame being received keeps the bytes
      a prefix of the frame and reads the header once three bytes are in. */
  lemma AppendChunk(s: RcvState, frame: seq<u8>, chunks: seq<seq<u8>>)
    requires Receiving(s, frame, chunks)
    ensures chunks != []
    ensures var a := Appended(s, chunks[0]);
            var m := s.rcvSize as nat + |chunks[0]|;
            m <= |frame| && a.rcvSize as nat == m && a.data[..m] == frame[..m]
            && (a.offsetFlag <==> m >= TLV_VALUE_OFFSET)
            && (a.offsetFlag ==> a.expSize as int == |frame|)
            && frame[m..] == Concat(chunks[1..])
  {
    NextChunk(s.rcvSize as nat, frame, chunks);
    AppendPrefix(s, frame, chunks[0]);
  }

  /** The same for one chunk, the frame's next bytes. */
  lemma AppendPrefix(s: RcvState, frame: seq<u8>, c: seq<u8>)
    requires TLV_VALUE_OFFSET <= |frame| <= TLV_MAX_TOTAL_SIZE
    requires |frame| == TLV_VALUE_OFFSET + LE16(frame[1], frame[2])
    requires s.rcvSize as nat + |c| <= |frame| && s.rcvSize <= |s.data|
    requires s.data[..s.rcvSize] == frame[..s.rcvSize] && frame[s.rcvSize..s.rcvSize as nat + |c|] == c
    requires s.offsetFlag <==> s.rcvSize >= TLV_VALUE_OFFSET
    requires s.offsetFlag ==> s.expSize as int == |frame|
    ensures var a := Appended(s, c);
            var m := s.rcvSize as nat + |c|;
            a.rcvSize as nat == m && a.data[..m] == frame[..m]
            && (a.offsetFlag <==> m >= TLV_VALUE_OFFSET)
            && (a.offsetFlag ==> a.expSize as int == |frame|)
  {
    var n := s.rcvSize as nat;
    var m := n + |c|;
    var data := Write(s.data, n, c);
    WriteKeepsPrefix(s.data, n, c, frame);
    WrapSmall(m);
    if m >= TLV_VALUE_OFFSET && !s.offsetFlag {
      HeaderLength(data, frame, m);
      WrapSmall(|frame|);
    }
  }

  /** Writing the frame's next bytes behind a prefix of it gives a longer
      prefix. */
  lemma WriteKeepsPrefix(d: seq<u8>, n: nat, c: seq<u8>, frame: seq<u8>)
    requires n <= |d| && n + |c| <= |frame|
    requires d[..n] == frame[..n] && frame[n..n + |c|] == c
    ensures Write(d, n, c)[..n + |c|] == frame[..n + |c|]
  {
    var data := Write(d, n, c);
    WriteContents(d, n, c);
    var m := n + |c|;
    assert data[..m] == data[..n] + data[n..m];
    assert frame[..m] == frame[..n] + frame[n..m];
  }

  /** Bytes that hold three bytes of a frame hold its length field. */
  lemma HeaderLength(data: seq<u8>, frame: seq<u8>, m: nat)
    requires TLV_VALUE_OFFSET <= m <= |data| && m <= |frame| && data[..m] == frame[..m]
    ensures LE16(data[1], data[2]) == LE16(frame[1], frame[2])
  {
    assert data[1] == data[..m][1] && data[2] == data[..m][2];
  }

  /** A 16-bit wrap leaves a size that fits as it is. */
  lemma WrapSmall(n: nat)
    requires n < 0x1_0000
    ensures n % 0x1_0000 == n
  {
  }

  /** However a frame is cut into chunks, it is handed on once, whole, when
      its last byte arrives, and reception restarts. */
  lemma {:induction false} Reassembly(s: RcvState, frame: seq<u8>, chunks: seq<seq<u8>>, checked: bool)
    requires Receiving(s, frame, chunks)
    ensures ChunksFit(chunks)
    ensures Feed(s, chunks, checked).1 == [Tlv(frame[0], frame[TLV_VALUE_OFFSET..])]
    ensures Feed(s, chunks, checked).0.rcvSize == 0 && !Feed(s, chunks, checked).0.offsetFlag
    decreases |chunks|
  {
    AppendChunk(s, frame, chunks);
    var a := Appended(s, chunks[0]);
    var m := a.rcvSize as nat;
    var step := RecvStep(s, chunks[0], checked);
    assert step == Completed(a);
    if m == |frame| {
      EmptyConcat(chunks[1..]);
      assert a.data[TLV_VALUE_OFFSET..m] == frame[TLV_VALUE_OFFSET..] by {
        assert a.data[TLV_VALUE_OFFSET..m] == a.data[..m][TLV_VALUE_OFFSET..];
      }
      assert step.1 == Some(Tlv(frame[0], frame[TLV_VALUE_OFFSET..]));
    } else {
      assert step.0 == a;
      Reassembly(a, frame, chunks[1..], checked);
    }
  }

  /** A TLV sent whole from the other side, in chunks of any size, is the
      TLV `tlvRecv` hands on. */
  lemma ChunkedFrameReassembles(t: Tlv, chunks: seq<seq<u8>>, buffer: seq<u8>, checked: bool)
    requires |t.value| <= TLV_MAX_VALUE_SIZE + 1
    requires forall i :: 0 <= i < |chunks| ==> 0 < |chunks[i]| < 0x100
    requires Concat(chunks) == Frame(t)
    ensures ChunksFit(chunks)
    ensures Feed(Idle(buffer), chunks, checked).1 == [t]
  {
    var frame := Frame(t);
    assert frame[0..] == frame;
    Reassembly(Idle(buffer), frame, chunks, checked);
    assert frame[TLV_VALUE_OFFSET..] == t.value;
  }

  /** While the expected size is still ahead, chunks are only appended. */
  lemma {:induction false} FeedBelowExpected(s: RcvState, chunks: seq<seq<u8>>)
    requires s.rcvSize <= |s.data| && ChunksFit(chunks) && s.offsetFlag
    requires s.rcvSize + |Concat(chunks)| < s.expSize
    ensures Feed(s, chunks, false).1 == []
    ensures Feed(s, chunks, false).0.rcvSize == s.rcvSize + |Concat(chunks)| <= |Feed(s, chunks, false).0.data|
    decreases |chunks|
  {
    if chunks != [] {
      assert Concat(chunks) == chunks[0] + Concat(chunks[1..]);
      var step := RecvStep(s, chunks[0], false);
      assert step.1.None? && step.0.rcvSize == s.rcvSize + |chunks[0]|;
      FeedBelowExpected(step.0, chunks[1..]);
    }
  }

  /** `k` copies of a chunk are `k` times as long. */
  lemma {:induction false} ConcatCopies(k: nat, c: seq<u8>)
    ensures |Concat(seq(k, _ => c))| == k * |c|
  {
    if k > 0 {
      assert seq(k, _ => c)[1..] == seq(k - 1, _ => c);
      ConcatCopies(k - 1, c);
    }
  }

  /** As written, `tlvRecv` copies each chunk behind the bytes received so
      far without checking the room left: a header announcing 4000 bytes
      followed by nine chunks of 255 bytes takes the received bytes past
      the 2053-byte buffer, and nothing is handed on. */
  lemma RecvOverflows()
    ensures var chunks := [[0x01, 0xA0, 0x0F]] + seq(9, _ => Zeros(255));
            ChunksFit(chunks)
            && Feed(Idle(Zeros(TLV_MAX_TOTAL_SIZE)), chunks, false).1 == []
            && |Feed(Idle(Zeros(TLV_MAX_TOTAL_SIZE)), chunks, false).0.data| > TLV_MAX_TOTAL_SIZE
  {
    var rest: seq<seq<u8>> := seq(9, _ => Zeros(255));
    var chunks := [[0x01, 0xA0, 0x0F]] + rest;
    assert chunks[1..] == rest;
    var step := RecvStep(Idle(Zeros(TLV_MAX_TOTAL_SIZE)), [0x01, 0xA0, 0x0F], false);
    assert step.0.data[1] == 0xA0 && step.0.data[2] == 0x0F;
    assert step.1.None? && step.0.expSize == 4003 && step.0.rcvSize == 3 && step.0.offsetFlag;
    ConcatCopies(9, Zeros(255));
    FeedBelowExpected(step.0, rest);
  }

  /** With the room checked, the receive buffer keeps its size whatever
      arrives. */
  lemma {:induction false} CheckedRecvStaysInBounds(s: RcvState, chunks: seq<seq<u8>>)
    requires |s.data| == TLV_MAX_TOTAL_SIZE && s.rcvSize <= |s.data| && ChunksFit(chunks)
    ensures |Feed(s, chunks, true).0.data| == TLV_MAX_TOTAL_SIZE
    decreases |chunks|
  {
    if chunks != [] {
      CheckedRecvStaysInBounds(RecvStep(s, chunks[0], true).0, chunks[1..]);
    }
  }

  /** The receive side of the link. */
  class Receiver {
    var data: seq<u8>
    var rcvSize: u16
    var expSize: u16
    var offsetFlag: bool
    /** `mInterface`: where the last request came from, and so where the
        response goes. */
    var iface: Hif

    ghost predicate Valid()
      reads this
    {
      rcvSize <= |data|
    }

    function State(): RcvState
      reads this
    {
      RcvState(data, rcvSize, expSize, offsetFlag)
    }

    /** `tlvBuilderInit`: an empty buffer of `TLV_MAX_TOTAL_SIZE` bytes;
        BLE is the default interface. */
    constructor ()
      ensures Valid() && State() == Idle(Zeros(TLV_MAX_TOTAL_SIZE)) && iface == Ble
    {
      data := Zeros(TLV_MAX_TOTAL_SIZE);
      rcvSize, expSize := 0, 0;
      offsetFlag := false;
      iface := Ble;
    }

    /** `tlvRecv`, as written. Returns the TLV it hands on, if any. */
    method TlvRecv(interface: Hif, tlv: seq<u8>) returns (received: Option<Tlv>)
      requires Valid() && |tlv| < 0x100
      modifies this
      ensures Valid() && iface == interface
      ensures (State(), received) == RecvStep(old(State()), tlv, false)
    {
      iface := interface;
      Append(tlv);
      received := Complete();
    }

    /** The first half of `tlvRecv`: copy the chunk in and read the header
        once three bytes are in. */
    method Append(tlv: seq<u8>)
      requires Valid()
      modifies this
      ensures Valid() && iface == old(iface)
      ensures State() == Appended(old(State()), tlv)
    {
      ghost var s := State();
      var buf := Write(data, rcvSize, tlv);
      var total := rcvSize + |tlv|;
      WrapBelow(total);
      var size: u16 := total % 0x1_0000;
      var expected, flag := expSize, offsetFlag;
      if size >= TLV_VALUE_OFFSET && !flag {
        expected := (LE16(buf[1], buf[2]) + TLV_VALUE_OFFSET) % 0x1_0000;
        flag := true;
      }
      assert Appended(s, tlv) == RcvState(buf, size, expected, flag);
      data, rcvSize, expSize, offsetFlag := buf, size, expected, flag;
    }

    /** The second half: hand the TLV on when the expected size is in. */
    method Complete() returns (received: Option<Tlv>)
      requires Valid()
      modifies this
      ensures Valid() && iface == old(iface)
      ensures (State(), received) == Completed(old(State()))
    {
      received := None;
      if rcvSize >= TLV_VALUE_OFFSET && expSize == rcvSize {
        received := Some(Tlv(data[0], data[TLV_VALUE_OFFSET..expSize]));
        rcvSize := 0;
        offsetFlag := false;
      }
    }

    /** `tlvFlushInput`: reception restarts; the buffer's bytes stay. */
    method TlvFlushInput()
      modifies this
      ensures Valid() && State() == Idle(old(data)) && iface == old(iface)
    {
      rcvSize, expSize := 0, 0;
      offsetFlag := false;
    }
  }
}
