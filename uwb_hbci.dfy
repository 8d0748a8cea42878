// The host boot command interface (HBCI) of the Rhodes board: packets of a
// class byte, an instruction byte, a 12-bit length and a segment nibble,
// followed by a payload and a one-byte checksum, and the encrypted firmware
// download that sends the image in chunks of 2048 bytes.
module UwbHbci {
  import opened Bytes

  const FW_CHUNK_LEN: nat := 2048
  const HBCI_HDR_LEN: nat := 4
  /** A header, a full chunk and the checksum. */
  const MAX_HBCI_LEN: nat := FW_CHUNK_LEN + HBCI_HDR_LEN + 1

  const FINAL_PACKET: u8 := 0x00
  const SEG_PACKET: u8 := 0x08

  const GENERAL_QRY_CLA: u8 := 0x01
  const GENERAL_ANS_CLA: u8 := 0x02
  const GENERAL_CMD_CLA: u8 := 0x03
  const GENERAL_ACK_CLA: u8 := 0x04
  const QRY_STATUS_INS: u8 := 0x21
  const ANS_HBCI_READY_INS: u8 := 0x21
  const ANS_MODE_PATCH_HIF_READY_INS: u8 := 0x24
  const CMD_MODE_HIF_INS: u8 := 0x24
  const ACK_VALID_APDU_INS: u8 := 0x01
  const FW_DWNLD_QRY_CLA: u8 := 0x51
  const FW_DWNLD_ANS_CLA: u8 := 0x52
  const FW_DWNLD_CMD_CLA: u8 := 0x53
  const FW_DWNLD_QRY_IMAGE_STATUS: u8 := 0x01
  const FW_DWNLD_DWNLD_IMAGE: u8 := 0x01
  const FW_DWNLD_IMAGE_SUCCESS: u8 := 0x01

  /** `a | b` on the low `w` bits. */
  function OrBits(a: nat, b: nat, w: nat): (r: nat)
    requires a < Pow2(w) && b < Pow2(w)
    ensures r < Pow2(w)
  {
    if w == 0 then 0
    else 2 * OrBits(a / 2, b / 2, w - 1) + (if a % 2 == 1 || b % 2 == 1 then 1 else 0)
  }

  /** `x | y` for a nibble `y`: only the low nibble of `x` changes. */
  function OrNibble(x: u8, y: nat): u8
    requires y < 16
  {
    assert Pow2(4) == 16;
    x - x % 16 + OrBits(x % 16, y, 4)
  }

  /** Or-ing into zero bits leaves the other operand. */
  lemma {:induction false} OrBitsZero(b: nat, w: nat)
    requires b < Pow2(w)
    ensures OrBits(0, b, w) == b
  {
    if w > 0 {
      OrBitsZero(b / 2, w - 1);
    }
  }

  /** Or-ing a nibble into a byte whose low nibble is clear adds it. */
  lemma OrLowNibble(x: u8, y: nat)
    requires x % 16 == 0 && y < 16
    ensures OrNibble(x, y) == x + y
  {
    assert Pow2(4) == 16;
    OrBitsZero(y, 4);
  }

  /** The sum of the bytes, as a plain number. */
  function Sum(bytes: seq<u8>): nat
  {
    if bytes == [] then 0 else Sum(bytes[..|bytes| - 1]) + bytes[|bytes| - 1]
  }

  /** The checksum byte: the one that makes the byte sum a multiple of 256. */
  function Lrc(bytes: seq<u8>): (c: u8)
    ensures (Sum(bytes) + c) % 256 == 0
  {
    (256 - Sum(bytes) % 256) % 256
  }

  /** The length field of a final packet holding the `len` bytes so far: the
      payload and the checksum to come, or 0 for a header alone. */
  function LengthField(len: nat): nat
    requires len >= HBCI_HDR_LEN
  {
    if len == HBCI_HDR_LEN then 0 else len + 1 - HBCI_HDR_LEN
  }

  /** Byte 2 after `hbci_done` on a packet of `len` bytes: the low byte of
      a final packet's length field, zero in a segment. */
  function Byte2(len: nat, seg: u8): u8
    requires len >= HBCI_HDR_LEN
  {
    if seg == FINAL_PACKET then LengthField(len) % 256 else 0
  }

  /** Byte 3 after `hbci_done`, from its value `b3` before: a final packet
      ors in the length field's high nibble, a segment clears the low
      nibble. */
  function Byte3(b3: u8, len: nat, seg: u8): u8
    requires len >= HBCI_HDR_LEN
  {
    if seg == FINAL_PACKET then OrNibble(b3, (LengthField(len) / 256) % 16) else b3 - b3 % 16
  }

  /** What `hbci_done` makes of the packet `p`: the header gets its length
      bytes and a packet with a payload gains the checksum of all its
      bytes. */
  function Finished(p: seq<u8>, seg: u8): (r: seq<u8>)
    requires |p| >= HBCI_HDR_LEN
    ensures |r| == if |p| > HBCI_HDR_LEN then |p| + 1 else |p|
  {
    var q := p[..2] + [Byte2(|p|, seg), Byte3(p[3], |p|, seg)] + p[4..];
    if |p| > HBCI_HDR_LEN then q + [Lrc(q)] else q
  }

  /** The packet `hbci_prepare`, `hbci_add` and `hbci_done` build. Byte 2
      is left as it was by `hbci_prepare` and always rewritten by
      `hbci_done`, so its earlier contents do not matter. */
  function Built(cla: u8, ins: u8, seg: u8, payload: seq<u8>): seq<u8>
  {
    Finished([cla, ins, 0, (seg * 16) % 256] + payload, seg)
  }

  lemma FinishedIgnoresByte2(p: seq<u8>, x: u8, seg: u8)
    requires |p| >= HBCI_HDR_LEN
    ensures Finished(p[2 := x], seg) == Finished(p, seg)
  {
    assert p[2 := x][..2] == p[..2];
    assert p[2 := x][4..] == p[4..];
  }

  /** The header a packet of `len` bytes gets when its segment nibble went
      in first: the nibble reads back, a final packet's 12-bit length
      field holds the payload and checksum, a segment's is zero. */
  lemma HeaderFields(seg: u8, len: nat)
    requires seg < 16 && HBCI_HDR_LEN <= len <= MAX_HBCI_LEN
    ensures var b2 := Byte2(len, seg); var b3 := Byte3((seg * 16) % 256, len, seg);
      && b3 / 16 == seg
      && (seg == FINAL_PACKET ==> b2 as nat + 256 * (b3 as nat % 16) == LengthField(len))
      && (seg != FINAL_PACKET ==> b2 == 0 && b3 % 16 == 0)
  {
    var hi := (seg * 16) % 256;
    NibbleHigh(seg);
    if seg == FINAL_PACKET {
      var l := LengthField(len);
      OrLowNibble(0, (l / 256) % 16);
      LengthSplit(l);
    } else {
      assert Byte3(hi, len, seg) == hi - hi % 16;
    }
  }

  /** A nibble shifted into the high half of a byte reads back. */
  lemma NibbleHigh(seg: u8)
    requires seg < 16
    ensures (seg * 16) % 256 == seg * 16 && (seg * 16) / 16 == seg && (seg * 16) % 16 == 0
  {
  }

  /** A 12-bit length splits into its low byte and its high nibble. */
  lemma LengthSplit(l: nat)
    requires l < 0x1000
    ensures l % 256 + 256 * ((l / 256) % 16) == l
  {
  }

  /** The bytes of a built packet. */
  lemma BuiltBytes(cla: u8, ins: u8, seg: u8, payload: seq<u8>)
    ensures var pkt := Built(cla, ins, seg, payload);
      var n := HBCI_HDR_LEN + |payload|;
      && |pkt| == n + (if payload == [] then 0 else 1)
      && pkt[0] == cla && pkt[1] == ins
      && pkt[2] == Byte2(n, seg) && pkt[3] == Byte3((seg * 16) % 256, n, seg)
      && pkt[4..n] == payload
      && (payload != [] ==> pkt[n] == Lrc(pkt[..n]))
  {
    var p := [cla, ins, 0, (seg * 16) % 256] + payload;
    var q := p[..2] + [Byte2(|p|, seg), Byte3(p[3], |p|, seg)] + p[4..];
    assert q[4..] == payload;
    if payload != [] {
      assert (q + [Lrc(q)])[..|p|] == q;
    }
  }

  /** A packet taken apart. */
  datatype Packet = Packet(cla: u8, ins: u8, seg: u8, payload: seq<u8>)

  /** Reading a packet back: the class and instruction bytes, the segment
      nibble and the payload between the header and the checksum. A packet
      is refused when its checksum is wrong, when a final packet's length
      field disagrees with its length, or when a segment's length bits are
      set. */
  function Parse(pkt: seq<u8>): (r: Option<Packet>)
  {
    if |pkt| < HBCI_HDR_LEN || |pkt| == HBCI_HDR_LEN + 1 || |pkt| > MAX_HBCI_LEN then None
    else
      var seg := pkt[3] / 16;
      var field := pkt[2] as nat + 256 * (pkt[3] as nat % 16);
      var n := if |pkt| == HBCI_HDR_LEN then HBCI_HDR_LEN else |pkt| - 1;
      if n < |pkt| && pkt[n] != Lrc(pkt[..n]) then None
      else if seg == FINAL_PACKET && field != LengthField(n) then None
      else if seg != FINAL_PACKET && field != 0 then None
      else Some(Packet(pkt[0], pkt[1], seg, pkt[4..n]))
  }

  /** Every packet built with a segment nibble and at most a chunk of
      payload reads back as what was put in. */
  lemma ParseBuilt(cla: u8, ins: u8, seg: u8, payload: seq<u8>)
    requires seg < 16 && |payload| <= FW_CHUNK_LEN
    ensures Parse(Built(cla, ins, seg, payload)) == Some(Packet(cla, ins, seg, payload))
  {
    BuiltBytes(cla, ins, seg, payload);
    HeaderFields(seg, HBCI_HDR_LEN + |payload|);
  }

  /** What `Parse` found in a packet it accepts. */
  lemma ParsedFields(pkt: seq<u8>)
    requires Parse(pkt).Some?
    ensures var d := Parse(pkt).value;
      var n := HBCI_HDR_LEN + |d.payload|;
      && |pkt| == n + (if d.payload == [] then 0 else 1)
      && pkt[0] == d.cla && pkt[1] == d.ins && pkt[3] / 16 == d.seg && pkt[4..n] == d.payload
      && (d.seg == FINAL_PACKET ==> pkt[2] as nat + 256 * (pkt[3] as nat % 16) == LengthField(n))
      && (d.seg != FINAL_PACKET ==> pkt[2] == 0 && pkt[3] % 16 == 0)
      && (d.payload != [] ==> pkt[n] == Lrc(pkt[..n]))
  {
  }

  /** Two headers with the same segment nibble and length fields agree. */
  lemma SameHeader(x2: u8, x3: u8, y2: u8, y3: u8)
    requires x3 / 16 == y3 / 16
    requires x2 as nat + 256 * (x3 as nat % 16) == y2 as nat + 256 * (y3 as nat % 16)
    ensures x2 == y2 && x3 == y3
  {
  }

  /** Every packet `Parse` accepts is the one built from its parts. */
  lemma BuiltParsed(pkt: seq<u8>)
    requires Parse(pkt).Some?
    ensures var d := Parse(pkt).value;
      d.seg < 16 && Built(d.cla, d.ins, d.seg, d.payload) == pkt
  {
    var d := Parse(pkt).value;
    var n := HBCI_HDR_LEN + |d.payload|;
    ParsedFields(pkt);
    BuiltBytes(d.cla, d.ins, d.seg, d.payload);
    HeaderFields(d.seg, n);
    var b := Built(d.cla, d.ins, d.seg, d.payload);
    SameHeader(b[2], b[3], pkt[2], pkt[3]);
    assert b[..n] == pkt[..n] by {
      assert b[..n] == [b[0], b[1], b[2], b[3]] + b[4..n];
      assert pkt[..n] == [pkt[0], pkt[1], pkt[2], pkt[3]] + pkt[4..n];
    }
    if d.payload == [] {
      assert b == b[..n] && pkt == pkt[..n];
    } else {
      assert b == b[..n] + [b[n]] && pkt == pkt[..n] + [pkt[n]];
    }
  }

  /** The checksum makes the byte sum of a packet with a payload a multiple
      of 256. */
  lemma BuiltSum(cla: u8, ins: u8, seg: u8, payload: seq<u8>)
    requires payload != []
    ensures Sum(Built(cla, ins, seg, payload)) % 256 == 0
  {
    BuiltBytes(cla, ins, seg, payload);
    var pkt := Built(cla, ins, seg, payload);
    assert pkt[..|pkt| - 1] + [pkt[|pkt| - 1]] == pkt;
  }

  /** A query: the header alone, with a zero length. */
  function Query(cla: u8, ins: u8): seq<u8>
  {
    [cla, ins, 0, 0]
  }

  /** A query is the final packet of a header without payload. */
  lemma QueryHeader(cla: u8, ins: u8)
    ensures Built(cla, ins, FINAL_PACKET, []) == Query(cla, ins)
  {
    OrLowNibble(0, 0);
  }

  /** The header of the chip's answer to one transfer, or a failed
      transfer. */
  datatype HbciAnswer = XferError | Received(cla: u8, ins: u8, b2: u8, b3: u8)

  /** `hbci_check`: the class and instruction are the expected ones and
      the segment is the high nibble of byte 2. */
  predicate HbciCheck(a: HbciAnswer, cla: u8, ins: u8, seg: u8)
  {
    a.Received? && a.cla == cla && a.ins == ins && a.b2 / 16 == seg
  }

  /** The payload length the receive driver reads from an answer's header:
      byte 2 is its high byte, byte 3 its low byte. */
  function DriverLength(a: HbciAnswer): nat
    requires a.Received?
  {
    a.b2 as nat * 256 + a.b3 as nat
  }

  /** The header of an answer in the receive driver's layout: byte 2 holds
      the segment nibble above the top four bits of the 12-bit length, and
      byte 3 the length's low byte. */
  function AnswerHeader(cla: u8, ins: u8, seg: u8, len: nat): (a: HbciAnswer)
    requires seg < 16 && len < 0x1000
    ensures a.Received? && a.cla == cla && a.ins == ins
    ensures DriverLength(a) == seg as nat * 0x1000 + len
  {
    LengthSplit(len);
    Received(cla, ins, seg * 16 + len / 256, len % 256)
  }

  /** `hbci_check` accepts an answer laid out by the driver exactly when its
      class, instruction and segment are the expected ones, whatever its
      length; so every final answer of the expected class and instruction
      passes, and the driver reads its length as it was sent. */
  lemma CheckReadsAnswerSegment(cla: u8, ins: u8, seg: u8, len: nat, c: u8, i: u8, s: u8)
    requires seg < 16 && len < 0x1000
    ensures HbciCheck(AnswerHeader(cla, ins, seg, len), c, i, s) <==> c == cla && i == ins && s == seg
    ensures seg == FINAL_PACKET ==> DriverLength(AnswerHeader(cla, ins, seg, len)) == len
  {
    var a := AnswerHeader(cla, ins, seg, len);
    assert a.b2 / 16 == seg by {
      assert a.b2 == seg * 16 + len / 256 && len / 256 < 16;
    }
  }

  /** `hbci_packet_t` over its static buffer: the bytes, how many of them
      make the packet, its segment nibble and its last checksum. */
  class HbciPacket {
    const data: array<u8>
    var len: nat
    var seg: u8
    var crc: u8

    ghost predicate Valid()
      reads this
    {
      data.Length == MAX_HBCI_LEN && len <= MAX_HBCI_LEN
    }

    /** The zero-filled static buffer, with an empty packet. */
    constructor ()
      ensures Valid() && fresh(data) && len == 0
    {
      data := new u8[MAX_HBCI_LEN](_ => 0);
      len := 0;
      seg := FINAL_PACKET;
      crc := 0;
    }

    /** `hbci_prepare`: the header's class, instruction and segment nibble;
        byte 2 is left for `hbci_done`. */
    method Prepare(cla: u8, ins: u8, s: u8)
      requires Valid()
      modifies this, data
      ensures Valid() && len == HBCI_HDR_LEN && seg == s && crc == 0
      ensures data[..] == old(data[..])[0 := cla][1 := ins][3 := (s * 16) % 256]
    {
      data[0] := cla;
      data[1] := ins;
      data[3] := (s * 16) % 256;
      seg := s;
      len := HBCI_HDR_LEN;
      crc := 0;
    }

    /** `hbci_add`: appends `payload` when the packet stays within the
        buffer, and otherwise fails and changes nothing. */
    method Add(payload: seq<u8>) returns (ok: bool)
      requires Valid() && |payload| < 0x1_0000
      modifies this, data
      ensures Valid() && seg == old(seg) && crc == old(crc)
      ensures ok <==> old(len) + |payload| <= MAX_HBCI_LEN
      ensures ok ==> len == old(len) + |payload| && data[..len] == old(data[..len]) + payload
      ensures forall k :: len <= k < data.Length ==> data[k] == old(data[k])
      ensures !ok ==> len == old(len) && data[..] == old(data[..])
    {
      if len + |payload| > MAX_HBCI_LEN {
        return false;
      }
      ghost var before := data[..];
      for i := 0 to |payload|
        invariant len == old(len) && seg == old(seg) && crc == old(crc)
        invariant forall k :: 0 <= k < data.Length ==>
                    data[k] == if len <= k < len + i then payload[k - len] else before[k]
      {
        data[len + i] := payload[i];
      }
      assert data[..len + |payload|] == before[..len] + payload;
      len := len + |payload|;
      ok := true;
    }

    /** `hbci_add` with room kept for the checksum `hbci_done` appends. */
    method AddChecked(payload: seq<u8>) returns (ok: bool)
      requires Valid() && |payload| < 0x1_0000
      modifies this, data
      ensures Valid() && seg == old(seg) && crc == old(crc)
      ensures ok <==> old(len) + |payload| < MAX_HBCI_LEN
      ensures ok ==> len == old(len) + |payload| && data[..len] == old(data[..len]) + payload
      ensures forall k :: len <= k < data.Length ==> data[k] == old(data[k])
      ensures !ok ==> len == old(len) && data[..] == old(data[..])
    {
      if len + |payload| >= MAX_HBCI_LEN {
        return false;
      }
      ok := Add(payload);
    }

    /** The length bytes of `hbci_done`. */
    method WriteLength()
      requires Valid() && len >= HBCI_HDR_LEN
      modifies data
      ensures data[..] == old(data[..])[2 := Byte2(len, seg)][3 := Byte3(old(data[3]), len, seg)]
    {
      if seg == FINAL_PACKET {
        if len == HBCI_HDR_LEN {
          data[2] := (len - HBCI_HDR_LEN) % 256;
          data[3] := OrNibble(data[3], ((len - HBCI_HDR_LEN) / 256) % 16);
        } else {
          data[2] := (len + 1 - HBCI_HDR_LEN) % 256;
          data[3] := OrNibble(data[3], ((len + 1 - HBCI_HDR_LEN) / 256) % 16);
        }
      } else {
        data[2] := 0;
        data[3] := data[3] - data[3] % 16;
      }
    }

    /** The checksum loop of `hbci_done`: `crc` becomes the byte that
        brings the sum of the packet's bytes to a multiple of 256. */
    method ComputeCrc()
      requires Valid()
      modifies this
      ensures len == old(len) && seg == old(seg) && crc == Lrc(data[..len])
    {
      crc := 0;
      for i := 0 to len
        invariant len == old(len) && seg == old(seg) && Valid()
        invariant crc == Sum(data[..i]) % 256
      {
        assert data[..i + 1][..i] == data[..i];
        crc := (crc + data[i]) % 256;
      }
      // `(crc ^ 0xFF) + 1` in a byte: the complement of the sum, plus one
      crc := ((255 - crc) + 1) % 256;
    }

    /** `hbci_done` on a prepared packet: writes the length bytes and, for
        a packet with a payload, appends the checksum of all its bytes.
        `overflow` reports a packet filling the whole buffer, whose
        checksum lands one byte past it and is not modelled. */
    method Done() returns (overflow: bool)
      requires Valid() && len >= HBCI_HDR_LEN
      modifies this, data
      ensures Valid() && seg == old(seg)
      ensures overflow <==> old(len) == MAX_HBCI_LEN
      ensures !overflow ==> data[..len] == Finished(old(data[..len]), seg)
      ensures forall k :: len <= k < data.Length ==> data[k] == old(data[k])
      ensures overflow ==> len == old(len) && data[..len] == Finished(old(data[..len]), seg)[..len]
    {
      ghost var p := data[..len];
      WriteLength();
      ghost var q := p[..2] + [Byte2(|p|, seg), Byte3(p[3], |p|, seg)] + p[4..];
      assert data[..len] == q;
      overflow := false;
      if len > HBCI_HDR_LEN {
        ComputeCrc();
        if len == data.Length {
          overflow := true;
        } else {
          data[len] := crc;
          assert data[..len + 1] == q + [Lrc(q)];
          len := len + 1;
        }
      }
    }
  }

  /** A whole chunk and one byte more pass the bound of `hbci_add`, and the
      packet then fills the buffer, leaving no byte for the checksum. */
  method FullPacketOverflows() returns (added: bool, overflow: bool)
    ensures added && overflow
  {
    var snd := new HbciPacket();
    snd.Prepare(FW_DWNLD_CMD_CLA, FW_DWNLD_DWNLD_IMAGE, FINAL_PACKET);
    added := snd.Add(Zeros(FW_CHUNK_LEN + 1));
    overflow := snd.Done();
  }

  /** With room kept for the checksum, every payload `hbci_add` accepts
      into a prepared packet leaves `hbci_done` inside the buffer. */
  method CheckedAddNeverOverflows(payload: seq<u8>) returns (added: bool, overflow: bool)
    requires |payload| < 0x1_0000
    ensures added <==> |payload| <= FW_CHUNK_LEN
    ensures !overflow
  {
    var snd := new HbciPacket();
    snd.Prepare(FW_DWNLD_CMD_CLA, FW_DWNLD_DWNLD_IMAGE, FINAL_PACKET);
    added := snd.AddChecked(payload);
    overflow := snd.Done();
  }

  /** The number of chunks of an image of `fwSize` bytes: `fwSize / 2048`
      rounded up. */
  function NumChunks(fwSize: nat): (n: nat)
    ensures fwSize == 0 ==> n == 0
    ensures fwSize > 0 ==> n >= 1 && (n - 1) * FW_CHUNK_LEN < fwSize <= n * FW_CHUNK_LEN
  {
    fwSize / FW_CHUNK_LEN + (if fwSize % FW_CHUNK_LEN == 0 then 0 else 1)
  }

  /** Every chunk but the last is a segment, the last a final packet. */
  function ChunkSeg(fwSize: nat, i: nat): u8
  {
    if i < NumChunks(fwSize) - 1 then SEG_PACKET else FINAL_PACKET
  }

  /** The length of chunk `i`: a full chunk, or for the last one what is
      left of the image. */
  function ChunkLen(fwSize: nat, i: nat): (len: nat)
    requires i < NumChunks(fwSize)
    ensures 1 <= len <= FW_CHUNK_LEN && i * FW_CHUNK_LEN + len <= fwSize
    ensures i * FW_CHUNK_LEN + len == fwSize <==> i == NumChunks(fwSize) - 1
  {
    if i < NumChunks(fwSize) - 1 then FW_CHUNK_LEN
    else fwSize - (NumChunks(fwSize) - 1) * FW_CHUNK_LEN
  }

  /** Chunk `i` of the image. */
  function Chunk(image: seq<u8>, i: nat): seq<u8>
    requires i < NumChunks(|image|)
  {
    image[i * FW_CHUNK_LEN..i * FW_CHUNK_LEN + ChunkLen(|image|, i)]
  }

  function Chunks(image: seq<u8>): seq<seq<u8>>
  {
    seq(NumChunks(|image|), i requires 0 <= i < NumChunks(|image|) => Chunk(image, i))
  }

  /** The chunks from `i` on, joined, are the image from chunk `i`'s
      start. */
  lemma {:induction false} ChunksTile(image: seq<u8>, i: nat)
    requires i < NumChunks(|image|)
    ensures Concat(Chunks(image)[i..]) == image[i * FW_CHUNK_LEN..]
    decreases NumChunks(|image|) - i
  {
    var cs := Chunks(image);
    assert cs[i..][0] == Chunk(image, i);
    assert cs[i..][1..] == cs[i + 1..];
    if i == NumChunks(|image|) - 1 {
      assert cs[i + 1..] == [];
    } else {
      ChunksTile(image, i + 1);
      assert image[i * FW_CHUNK_LEN..] == Chunk(image, i) + image[(i + 1) * FW_CHUNK_LEN..];
    }
  }

  /** The chunks of an image, joined, are the image. */
  lemma ChunksJoin(image: seq<u8>)
    ensures Concat(Chunks(image)) == image
  {
    if |image| > 0 {
      ChunksTile(image, 0);
      assert Chunks(image)[0..] == Chunks(image);
    } else {
      assert Chunks(image) == [];
    }
  }

  /** The packet carrying chunk `i`. */
  function ChunkPacket(image: seq<u8>, i: nat): (pkt: seq<u8>)
    requires i < NumChunks(|image|)
    ensures |pkt| > HBCI_HDR_LEN
  {
    Built(FW_DWNLD_CMD_CLA, FW_DWNLD_DWNLD_IMAGE, ChunkSeg(|image|, i), Chunk(image, i))
  }

  /** One transfer of the download and the class and instruction its answer
      must carry. */
  datatype Step = Step(out: seq<u8>, cla: u8, ins: u8)

  /** Every transfer of `UWB_HbciEncryptedFwDownload` while the chip answers
      as expected: the status query, the switch to HIF mode and the second
      status query; then for an image with bytes, each chunk's header and
      the rest of its packet, and the image status query. */
  function Plan(image: seq<u8>): seq<Step>
  {
    var queries := [Step(Query(GENERAL_QRY_CLA, QRY_STATUS_INS), GENERAL_ANS_CLA, ANS_HBCI_READY_INS),
                    Step(Query(GENERAL_CMD_CLA, CMD_MODE_HIF_INS), GENERAL_ACK_CLA, ACK_VALID_APDU_INS),
                    Step(Query(GENERAL_QRY_CLA, QRY_STATUS_INS), GENERAL_ANS_CLA, ANS_MODE_PATCH_HIF_READY_INS)];
    if |image| == 0 then queries
    else queries + ChunkSteps(image) + [Step(Query(FW_DWNLD_QRY_CLA, FW_DWNLD_QRY_IMAGE_STATUS), FW_DWNLD_ANS_CLA, FW_DWNLD_IMAGE_SUCCESS)]
  }

  /** Transfer `j` of the chunks: the header of chunk `j / 2` for even `j`,
      the rest of its packet for odd `j`. */
  function ChunkStep(image: seq<u8>, j: nat): Step
    requires j < 2 * NumChunks(|image|)
  {
    var pkt := ChunkPacket(image, j / 2);
    if j % 2 == 0 then Step(pkt[..HBCI_HDR_LEN], GENERAL_ACK_CLA, ACK_VALID_APDU_INS)
    else Step(pkt[HBCI_HDR_LEN..], GENERAL_ACK_CLA, ACK_VALID_APDU_INS)
  }

  function ChunkSteps(image: seq<u8>): (r: seq<Step>)
    ensures |r| == 2 * NumChunks(|image|)
  {
    seq(2 * NumChunks(|image|), j requires 0 <= j < 2 * NumChunks(|image|) => ChunkStep(image, j))
  }

  /** Transfer `3 + j` of the plan is transfer `j` of the chunks. */
  lemma PlanStep(image: seq<u8>, j: nat)
    requires j < 2 * NumChunks(|image|)
    ensures |Plan(image)| == 4 + 2 * NumChunks(|image|) && Plan(image)[3 + j] == ChunkStep(image, j)
  {
    var steps := ChunkSteps(image);
    assert Plan(image)[3..3 + |steps|] == steps;
    assert steps[j] == ChunkStep(image, j);
  }

  /** The two transfers of chunk `i` in the plan. */
  lemma PlanSteps(image: seq<u8>, i: nat)
    requires i < NumChunks(|image|)
    ensures var plan := Plan(image); var n := NumChunks(|image|);
      && |plan| == 4 + 2 * n
      && plan[3 + 2 * i] == Step(ChunkPacket(image, i)[..HBCI_HDR_LEN], GENERAL_ACK_CLA, ACK_VALID_APDU_INS)
      && plan[4 + 2 * i] == Step(ChunkPacket(image, i)[HBCI_HDR_LEN..], GENERAL_ACK_CLA, ACK_VALID_APDU_INS)
  {
    PlanStep(image, 2 * i);
    PlanStep(image, 2 * i + 1);
    assert (2 * i) / 2 == i && (2 * i) % 2 == 0;
    assert (2 * i + 1) / 2 == i && (2 * i + 1) % 2 == 1;
  }

  /** The chip reads back, from each chunk's two transfers, the chunk as a
      packet of its own with the download command and the chunk's segment
      nibble; the chunks joined are the image; all chunks but the last are
      segments. */
  lemma PlanCarriesImage(image: seq<u8>, i: nat)
    requires i < NumChunks(|image|)
    ensures var plan := Plan(image);
      && |plan| == 4 + 2 * NumChunks(|image|)
      && Parse(plan[3 + 2 * i].out + plan[4 + 2 * i].out)
         == Some(Packet(FW_DWNLD_CMD_CLA, FW_DWNLD_DWNLD_IMAGE, ChunkSeg(|image|, i), Chunks(image)[i]))
      && (ChunkSeg(|image|, i) == FINAL_PACKET <==> i == NumChunks(|image|) - 1)
      && Concat(Chunks(image)) == image
  {
    var pkt := ChunkPacket(image, i);
    PlanSteps(image, i);
    assert pkt[..HBCI_HDR_LEN] + pkt[HBCI_HDR_LEN..] == pkt;
    ParseBuilt(FW_DWNLD_CMD_CLA, FW_DWNLD_DWNLD_IMAGE, ChunkSeg(|image|, i), Chunk(image, i));
    ChunksJoin(image);
  }

  /** `hbci_prepare` and `hbci_done` of a query, and the header
      `hbci_transceive_hdr` sends. */
  method SendQuery(snd: HbciPacket, cla: u8, ins: u8) returns (out: seq<u8>)
    requires snd.Valid()
    modifies snd, snd.data
    ensures snd.Valid() && out == Query(cla, ins)
  {
    snd.Prepare(cla, ins, FINAL_PACKET);
    ghost var before := snd.data[..snd.len];
    assert before == [cla, ins, before[2], 0];
    QueryFinished(cla, ins, before[2]);
    var overflow := snd.Done();
    assert snd.data[..snd.len] == Query(cla, ins);
    out := snd.data[..HBCI_HDR_LEN];
  }

  lemma QueryFinished(cla: u8, ins: u8, x: u8)
    ensures Finished([cla, ins, x, 0], FINAL_PACKET) == Query(cla, ins)
  {
    var p: seq<u8> := [cla, ins, x, 0];
    assert LengthField(|p|) == 0;
    OrLowNibble(0, 0);
    assert p[..2] == [cla, ins] && p[4..] == [];
  }

  /** `hbci_prepare`, `hbci_add` and `hbci_done` of chunk `i`, and what
      `hbci_transceive_hdr` and `hbci_transceive_payload` send. The chunk
      always fits, so `hbci_add` never fails here. */
  method SendChunk(snd: HbciPacket, image: seq<u8>, i: nat) returns (hdr: seq<u8>, rest: seq<u8>)
    requires snd.Valid() && i < NumChunks(|image|)
    modifies snd, snd.data
    ensures snd.Valid()
    ensures hdr == ChunkPacket(image, i)[..HBCI_HDR_LEN] && rest == ChunkPacket(image, i)[HBCI_HDR_LEN..]
  {
    var seg := if i < NumChunks(|image|) - 1 then SEG_PACKET else FINAL_PACKET;
    ghost var x := FillChunk(snd, image, i, seg);
    var overflow := snd.Done();
    PreparedFinished(FW_DWNLD_CMD_CLA, FW_DWNLD_DWNLD_IMAGE, x, seg, Chunk(image, i));
    ghost var pkt := snd.data[..snd.len];
    hdr := snd.data[..HBCI_HDR_LEN];
    rest := snd.data[HBCI_HDR_LEN..snd.len];
    assert hdr == pkt[..HBCI_HDR_LEN] && rest == pkt[HBCI_HDR_LEN..];
  }

  /** `hbci_prepare` and `hbci_add` of chunk `i`; `x` is what byte 2 was
      left holding. */
  method FillChunk(snd: HbciPacket, image: seq<u8>, i: nat, seg: u8) returns (ghost x: u8)
    requires snd.Valid() && i < NumChunks(|image|)
    modifies snd, snd.data
    ensures snd.Valid() && snd.seg == seg && snd.len == HBCI_HDR_LEN + |Chunk(image, i)|
    ensures snd.data[..snd.len] == [FW_DWNLD_CMD_CLA, FW_DWNLD_DWNLD_IMAGE, x, (seg * 16) % 256] + Chunk(image, i)
  {
    var chunkLen := if i < NumChunks(|image|) - 1 then FW_CHUNK_LEN else |image| - (NumChunks(|image|) - 1) * FW_CHUNK_LEN;
    snd.Prepare(FW_DWNLD_CMD_CLA, FW_DWNLD_DWNLD_IMAGE, seg);
    x := snd.data[2];
    assert snd.data[..snd.len] == [FW_DWNLD_CMD_CLA, FW_DWNLD_DWNLD_IMAGE, x, (seg * 16) % 256];
    var added := snd.Add(image[i * FW_CHUNK_LEN..i * FW_CHUNK_LEN + chunkLen]);
    assert added;
  }

  /** Whatever byte 2 held, finishing a prepared packet gives the built
      one. */
  lemma PreparedFinished(cla: u8, ins: u8, x: u8, seg: u8, payload: seq<u8>)
    ensures Finished([cla, ins, x, (seg * 16) % 256] + payload, seg) == Built(cla, ins, seg, payload)
  {
    var p := [cla, ins, 0, (seg * 16) % 256] + payload;
    assert p[2 := x] == [cla, ins, x, (seg * 16) % 256] + payload;
    FinishedIgnoresByte2(p, x, seg);
  }

  /** The answer passes the check its step of the plan asks for. */
  predicate Answered(a: HbciAnswer, step: Step)
  {
    HbciCheck(a, step.cla, step.ins, FINAL_PACKET)
  }

  /** `sent` is the start of `plan` and each of its transfers but the last
      was answered as the plan expects. */
  predicate Followed(plan: seq<Step>, sent: seq<seq<u8>>, reply: nat -> HbciAnswer)
  {
    && 1 <= |sent| <= |plan|
    && (forall k :: 0 <= k < |sent| ==> sent[k] == plan[k].out)
    && (forall k :: 0 <= k < |sent| - 1 ==> Answered(reply(k), plan[k]))
  }

  /** After an expected answer the download makes the plan's next
      transfer. */
  lemma FollowNext(plan: seq<Step>, sent: seq<seq<u8>>, out: seq<u8>, reply: nat -> HbciAnswer)
    requires Followed(plan, sent, reply) && |sent| < |plan|
    requires Answered(reply(|sent| - 1), plan[|sent| - 1]) && out == plan[|sent|].out
    ensures Followed(plan, sent + [out], reply)
  {
  }

  /** The length of the plan and its queries. */
  lemma PlanQueries(image: seq<u8>)
    ensures var plan := Plan(image);
      && |plan| == (if |image| == 0 then 3 else 4 + 2 * NumChunks(|image|))
      && plan[0] == Step(Query(GENERAL_QRY_CLA, QRY_STATUS_INS), GENERAL_ANS_CLA, ANS_HBCI_READY_INS)
      && plan[1] == Step(Query(GENERAL_CMD_CLA, CMD_MODE_HIF_INS), GENERAL_ACK_CLA, ACK_VALID_APDU_INS)
      && plan[2] == Step(Query(GENERAL_QRY_CLA, QRY_STATUS_INS), GENERAL_ANS_CLA, ANS_MODE_PATCH_HIF_READY_INS)
      && (|image| > 0 ==> plan[|plan| - 1] == Step(Query(FW_DWNLD_QRY_CLA, FW_DWNLD_QRY_IMAGE_STATUS), FW_DWNLD_ANS_CLA, FW_DWNLD_IMAGE_SUCCESS))
  {
  }

  /** Helper: the number of transfers the plan makes. */
  lemma PlanLength(image: seq<u8>)
    ensures |Plan(image)| == if |image| == 0 then 3 else 4 + 2 * NumChunks(|image|)
  {
    PlanQueries(image);
  }

  /** One turn of the chunk loop: chunk `i`'s header and, when its answer
      passes, the rest of its packet. */
  method SendChunkRound(snd: HbciPacket, image: seq<u8>, i: nat, reply: nat -> HbciAnswer, sent0: seq<seq<u8>>)
    returns (ok: bool, sent: seq<seq<u8>>)
    requires snd.Valid() && i < NumChunks(|image|) && |sent0| == 3 + 2 * i
    requires Followed(Plan(image), sent0, reply) && Answered(reply(|sent0| - 1), Plan(image)[|sent0| - 1])
    modifies snd, snd.data
    ensures snd.Valid() && Followed(Plan(image), sent, reply)
    ensures ok <==> |sent| == |sent0| + 2 && Answered(reply(|sent| - 1), Plan(image)[|sent| - 1])
    ensures !ok ==> !Answered(reply(|sent| - 1), Plan(image)[|sent| - 1])
  {
    ghost var plan := Plan(image);
    PlanSteps(image, i);
    var hdr, rest := SendChunk(snd, image, i);
    FollowNext(plan, sent0, hdr, reply);
    sent := sent0 + [hdr];
    if !HbciCheck(reply(3 + 2 * i), GENERAL_ACK_CLA, ACK_VALID_APDU_INS, FINAL_PACKET) {
      return false, sent;
    }
    FollowNext(plan, sent, rest, reply);
    sent := sent + [rest];
    ok := HbciCheck(reply(4 + 2 * i), GENERAL_ACK_CLA, ACK_VALID_APDU_INS, FINAL_PACKET);
  }

  /** The chunk loop of `UWB_HbciEncryptedFwDownload`, entered after the
      three queries were answered as expected. */
  method SendChunks(snd: HbciPacket, image: seq<u8>, reply: nat -> HbciAnswer, sent0: seq<seq<u8>>)
    returns (ok: bool, sent: seq<seq<u8>>)
    requires snd.Valid() && |image| > 0 && |sent0| == 3
    requires Followed(Plan(image), sent0, reply) && Answered(reply(2), Plan(image)[2])
    modifies snd, snd.data
    ensures snd.Valid() && Followed(Plan(image), sent, reply)
    ensures ok ==> |sent| == |Plan(image)| - 1 && Answered(reply(|sent| - 1), Plan(image)[|sent| - 1])
    ensures !ok ==> !Answered(reply(|sent| - 1), Plan(image)[|sent| - 1])
  {
    ghost var plan := Plan(image);
    PlanLength(image);
    sent := sent0;
    var fwSize := |image|;
    var numChunks := fwSize / FW_CHUNK_LEN + (if fwSize % FW_CHUNK_LEN == 0 then 0 else 1);
    assert |plan| == 4 + 2 * numChunks;
    for i := 0 to numChunks
      invariant snd.Valid() && |sent| == 3 + 2 * i
      invariant Followed(plan, sent, reply) && Answered(reply(|sent| - 1), plan[|sent| - 1])
    {
      var roundOk;
      roundOk, sent := SendChunkRound(snd, image, i, reply, sent);
      if !roundOk {
        return false, sent;
      }
    }
    ok := true;
  }

  /** `UWB_HbciEncryptedFwDownload`. `reply(k)` is the chip's answer to the
      `k`-th transfer; `sent` the transfers made. The download follows
      `Plan(image)` up to the first answer that fails its check, and
      succeeds when every answer passes and the image has bytes. */
  method EncryptedFwDownload(image: seq<u8>, reply: nat -> HbciAnswer)
    returns (ok: bool, sent: seq<seq<u8>>)
    requires |image| < 0x8000_0000
    ensures Followed(Plan(image), sent, reply)
    ensures |sent| < |Plan(image)| ==> !Answered(reply(|sent| - 1), Plan(image)[|sent| - 1])
    ensures ok <==> |image| > 0 && |sent| == |Plan(image)| && Answered(reply(|sent| - 1), Plan(image)[|sent| - 1])
  {
    PlanQueries(image);
    var snd := new HbciPacket();
    var queriesOk;
    queriesOk, sent := SendQueries(snd, image, reply);
    if !queriesOk {
      return false, sent;
    }

    if |image| == 0 {
      return false, sent;
    }
    var chunksOk;
    chunksOk, sent := SendChunks(snd, image, reply, sent);
    if !chunksOk {
      return false, sent;
    }

    ok, sent := QueryImageStatus(snd, image, reply, sent);
  }

  /** The image status query that ends the download, once every chunk was
      acknowledged. */
  method QueryImageStatus(snd: HbciPacket, image: seq<u8>, reply: nat -> HbciAnswer, sent0: seq<seq<u8>>)
    returns (ok: bool, sent: seq<seq<u8>>)
    requires snd.Valid() && |image| > 0 && |sent0| == |Plan(image)| - 1
    requires Followed(Plan(image), sent0, reply) && Answered(reply(|sent0| - 1), Plan(image)[|sent0| - 1])
    modifies snd, snd.data
    ensures Followed(Plan(image), sent, reply) && |sent| == |Plan(image)|
    ensures ok <==> Answered(reply(|sent| - 1), Plan(image)[|sent| - 1])
  {
    ghost var plan := Plan(image);
    PlanQueries(image);
    var out := SendQuery(snd, FW_DWNLD_QRY_CLA, FW_DWNLD_QRY_IMAGE_STATUS);
    FollowNext(plan, sent0, out, reply);
    sent := sent0 + [out];
    ok := HbciCheck(reply(|sent| - 1), FW_DWNLD_ANS_CLA, FW_DWNLD_IMAGE_SUCCESS, FINAL_PACKET);
  }

  /** The three queries that open `UWB_HbciEncryptedFwDownload`: the status
      query, the switch to HIF mode and the second status query, stopping
      at the first unexpected answer. */
  method SendQueries(snd: HbciPacket, image: seq<u8>, reply: nat -> HbciAnswer)
    returns (ok: bool, sent: seq<seq<u8>>)
    requires snd.Valid()
    modifies snd, snd.data
    ensures snd.Valid() && Followed(Plan(image), sent, reply) && |sent| <= 3
    ensures ok <==> |sent| == 3 && Answered(reply(2), Plan(image)[2])
    ensures !ok ==> !Answered(reply(|sent| - 1), Plan(image)[|sent| - 1])
  {
    ghost var plan := Plan(image);
    PlanQueries(image);

    var out := SendQuery(snd, GENERAL_QRY_CLA, QRY_STATUS_INS);
    sent := [out];
    if !HbciCheck(reply(0), GENERAL_ANS_CLA, ANS_HBCI_READY_INS, FINAL_PACKET) {
      return false, sent;
    }

    out := SendQuery(snd, GENERAL_CMD_CLA, CMD_MODE_HIF_INS);
    FollowNext(plan, sent, out, reply);
    sent := sent + [out];
    if !HbciCheck(reply(1), GENERAL_ACK_CLA, ACK_VALID_APDU_INS, FINAL_PACKET) {
      return false, sent;
    }

    out := SendQuery(snd, GENERAL_QRY_CLA, QRY_STATUS_INS);
    FollowNext(plan, sent, out, reply);
    sent := sent + [out];
    ok := HbciCheck(reply(2), GENERAL_ANS_CLA, ANS_MODE_PATCH_HIF_READY_INS, FINAL_PACKET);
  }
}
