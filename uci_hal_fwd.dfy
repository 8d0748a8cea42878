// The SR100T firmware download master. It talks to the chip's host boot
// interface (HBCI) in APDUs: a class byte, an instruction byte, a 16-bit
// length word and a payload closed by a longitudinal parity byte
// (ISO 1155). The host keeps one MOSI and one MISO APDU and reuses them
// for every transfer.
module UciHalFwd {
  import opened Bytes
  import UwbHbci

  const LEN_HDR: nat := 4
  const LEN_LRC: nat := 1
  const MAX_LEN_DATA_MOSI: nat := 2048
  const MAX_LEN_PAYLOAD_MOSI: nat := MAX_LEN_DATA_MOSI + LEN_LRC
  const MAX_LEN_DATA_MISO: nat := 256
  const MAX_LEN_PAYLOAD_MISO: nat := MAX_LEN_DATA_MISO + LEN_LRC
  const APDU_SEG_FLAG: u16 := 0x8000

  /** Classes live in the high nibble, subclasses in the low one. */
  const CLASS_GENERAL: u8 := 0x00
  const SUBCLASS_QUERY: u8 := 0x01
  const SUBCLASS_ANSWER: u8 := 0x02
  const SUBCLASS_ACK: u8 := 0x04

  /** Acknowledgement instructions; the error ones have the top bit set. */
  const VALID_APDU: u8 := 0x01
  const INVALID_CLASS: u8 := 0x82
  const INVALID_INSTRUCTION: u8 := 0x83
  const INVALID_SEGMENT_LENGTH: u8 := 0x84

  const ANS_HBCI_READY: u8 := 0x21
  const ANS_MODE_PATCH_ROM_READY: u8 := 0x23
  const ANS_MODE_HIF_IMAGE_READY: u8 := 0x24
  const CMD_MODE_PATCH_ROM: u8 := 0x23
  const CMD_MODE_HIF_IMAGE: u8 := 0x24

  const QRY_CHIP_ID: u8 := 0x31
  const QRY_HELIOS_ID: u8 := 0x32
  const QRY_CA_ROOT_PUB_KEY: u8 := 0x33
  const QRY_NXP_PUB_KEY: u8 := 0x34
  const QRY_ROM_VERSION: u8 := 0x35

  datatype Status = Success | Failure

  /** The MISO APDU as a transfer leaves it. */
  datatype MisoApdu = MisoApdu(cls: u8, ins: u8, len: u16, payload: seq<u8>)

  /** One `phNxpUwb_HbciTransceive`: whether the transfer went through, and
      the MISO APDU it left behind. */
  datatype Reply = Reply(xferOk: bool, miso: MisoApdu)

  /** The four header bytes of an APDU as they lie in memory, with the
      length word little endian. */
  function Header(cls: u8, ins: u8, len: u16): (h: seq<u8>)
    ensures |h| == LEN_HDR && h[0] == cls && h[1] == ins
  {
    [cls, ins, len % 0x100, len / 0x100]
  }

  predicate Acked(m: MisoApdu)
  {
    m.cls == CLASS_GENERAL + SUBCLASS_ACK && m.ins == VALID_APDU
  }

  /** `phHbci_CalcLrc`: the byte that brings the sum of the buffer to a
      multiple of 256, and 0 for an empty buffer. */
  method CalcLrc(buf: seq<u8>) returns (lrc: u8)
    requires |buf| < 0x1_0000
    ensures lrc == UwbHbci.Lrc(buf)
    ensures (UwbHbci.Sum(buf) + lrc) % 256 == 0
    ensures buf == [] ==> lrc == 0
  {
    lrc := 0;
    if |buf| == 0 {
      return;
    }
    for i := 0 to |buf|
      invariant lrc == UwbHbci.Sum(buf[..i]) % 256
    {
      SumNext(buf, i, lrc);
      lrc := (lrc + buf[i]) % 256;
    }
    assert buf[..|buf|] == buf;
    // `lrc ^= 0xFF` on a byte is `255 - lrc`
    lrc := 255 - lrc;
    lrc := (lrc + 1) % 256;
  }

  /** Adding the next byte to a running sum kept modulo 256. */
  lemma SumNext(buf: seq<u8>, i: nat, acc: nat)
    requires i < |buf| && acc == UwbHbci.Sum(buf[..i]) % 256
    ensures (acc + buf[i]) % 256 == UwbHbci.Sum(buf[..i + 1]) % 256
  {
    assert buf[..i + 1][..i] == buf[..i];
  }

  /** The answer each mode waits for after the status query: HBCI ready
      for mode 0, and the matching mode-ready answer for the two download
      modes. No other mode is ever ready. */
  function ReadyAnswer(mode: u8): Option<u8>
  {
    if mode == 0 then Some(ANS_HBCI_READY)
    else if mode == CMD_MODE_PATCH_ROM then Some(ANS_MODE_PATCH_ROM_READY)
    else if mode == CMD_MODE_HIF_IMAGE then Some(ANS_MODE_HIF_IMAGE_READY)
    else None
  }

  /** `phHbci_GeneralStatus`: judges the last MISO APDU in a mode. The
      failure answers, acknowledgements (which only report errors) and
      unknown classes all fail. */
  function GeneralStatus(miso: MisoApdu, mode: u8): (status: Status)
    ensures status == Success <==>
      miso.cls == CLASS_GENERAL + SUBCLASS_ANSWER && ReadyAnswer(mode) == Some(miso.ins)
  {
    if miso.cls == CLASS_GENERAL + SUBCLASS_ANSWER then
      if miso.ins == ANS_HBCI_READY then
        if mode == 0 then Success else Failure
      else if miso.ins == ANS_MODE_PATCH_ROM_READY then
        if mode == CMD_MODE_PATCH_ROM then Success else Failure
      else if miso.ins == ANS_MODE_HIF_IMAGE_READY then
        if mode == CMD_MODE_HIF_IMAGE then Success else Failure
      else Failure
    else Failure
  }

  /** The answer class for a query class: same class, answer subclass. */
  function AnswerClass(cls: u8): (c: u8)
    ensures c / 16 == cls / 16 && c % 16 == SUBCLASS_ANSWER
  {
    (cls / 16) * 16 + SUBCLASS_ANSWER
  }

  /** The data size an answer's length word announces: none when the
      segment flag is set, otherwise the length less the checksum byte. */
  function AnnouncedData(len: u16): Option<nat>
  {
    if len >= APDU_SEG_FLAG then None
    else if len == 0 then Some(0)
    else Some(len - LEN_LRC)
  }

  /** An info answer the host accepts: the expected class and instruction,
      not segmented, and within (or, when asked, exactly) `maxSz` bytes. */
  predicate InfoAnswerOk(ans: MisoApdu, expCls: u8, expIns: u8, maxSz: nat, matchMaxSz: bool)
  {
    && ans.cls == expCls && ans.ins == expIns
    && AnnouncedData(ans.len).Some?
    && AnnouncedData(ans.len).value <= maxSz
    && (matchMaxSz ==> AnnouncedData(ans.len).value == maxSz)
  }

  /** The instruction of the acknowledgement the host sends back for an
      info answer; the first fault found picks the error code. */
  function AckFor(ans: MisoApdu, expCls: u8, expIns: u8, maxSz: nat, matchMaxSz: bool): (a: u8)
    ensures a == VALID_APDU <==> InfoAnswerOk(ans, expCls, expIns, maxSz, matchMaxSz)
    ensures a != VALID_APDU ==> a >= 0x80 && a in {INVALID_CLASS, INVALID_INSTRUCTION, INVALID_SEGMENT_LENGTH}
    ensures ans.cls != expCls ==> a == INVALID_CLASS
  {
    var dataSz := if AnnouncedData(ans.len).Some? then AnnouncedData(ans.len).value else 0;
    if ans.cls != expCls then INVALID_CLASS
    else if ans.ins != expIns then INVALID_INSTRUCTION
    else if AnnouncedData(ans.len).None? then INVALID_SEGMENT_LENGTH
    else if dataSz > maxSz then INVALID_SEGMENT_LENGTH
    else if matchMaxSz && dataSz != maxSz then INVALID_SEGMENT_LENGTH
    else VALID_APDU
  }

  /** The checksum test on the MISO APDU left by the acknowledgement: the
      byte after `dataSz` data bytes closes the header and data. */
  predicate LrcOk(m: MisoApdu, dataSz: nat)
    requires dataSz < |m.payload|
  {
    m.payload[dataSz] == UwbHbci.Lrc(Header(m.cls, m.ins, m.len) + m.payload[..dataSz])
  }

  /** The data a query brings in, given the answer to the query (`first`)
      and the MISO APDU after the acknowledgement (`second`); None when it
      fails. */
  function QueryData(first: MisoApdu, second: MisoApdu, expCls: u8, expIns: u8, maxSz: nat, matchMaxSz: bool): (r: Option<seq<u8>>)
    requires |second.payload| == MAX_LEN_PAYLOAD_MISO
    ensures r.Some? ==> maxSz <= MAX_LEN_DATA_MISO && InfoAnswerOk(first, expCls, expIns, maxSz, matchMaxSz)
    ensures r.Some? ==> |r.value| == AnnouncedData(first.len).value > 0
    ensures r.Some? ==> |r.value| <= maxSz && (matchMaxSz ==> |r.value| == maxSz)
    ensures r.Some? ==> r.value == second.payload[..|r.value|]
    ensures r.Some? ==> UwbHbci.Sum(Header(second.cls, second.ins, second.len) + second.payload[..|r.value| + 1]) % 256 == 0
  {
    if maxSz > MAX_LEN_DATA_MISO then None
    else if AnnouncedData(first.len) == Some(0) then None
    else if AckFor(first, expCls, expIns, maxSz, matchMaxSz) != VALID_APDU then None
    else
      var dataSz := AnnouncedData(first.len).value;
      if !LrcOk(second, dataSz) then None
      else
        ClosedSum(Header(second.cls, second.ins, second.len), second.payload, dataSz);
        Some(second.payload[..dataSz])
  }

  /** Header, data and the checksum byte of header and data sum to a
      multiple of 256. */
  lemma ClosedSum(h: seq<u8>, payload: seq<u8>, n: nat)
    requires n < |payload| && payload[n] == UwbHbci.Lrc(h + payload[..n])
    ensures UwbHbci.Sum(h + payload[..n + 1]) % 256 == 0
  {
    var q := h + payload[..n];
    assert (h + payload[..n + 1])[..|q|] == q;
  }

  /** The info size each general query expects, for the five queries
      `phHbci_GetGeneralInfo` knows. */
  function InfoSize(ins: u8): Option<nat>
  {
    if ins == QRY_CHIP_ID then Some(16)
    else if ins == QRY_HELIOS_ID then Some(4)
    else if ins == QRY_CA_ROOT_PUB_KEY then Some(64)
    else if ins == QRY_NXP_PUB_KEY then Some(64)
    else if ins == QRY_ROM_VERSION then Some(1)
    else None
  }

  /** What `PutCommand` takes from the rest `rem` of the image in one round. */
  function ChunkData(rem: seq<u8>): nat
  {
    if |rem| > MAX_LEN_DATA_MOSI then MAX_LEN_DATA_MOSI else |rem|
  }

  /** The length word of a round's header: the segment flag alone when more
      data follows, the data and its checksum byte for the last chunk, 0 for
      an empty image. */
  function ChunkLen(rem: seq<u8>): u16
  {
    if |rem| > MAX_LEN_DATA_MOSI then APDU_SEG_FLAG
    else if rem == [] then 0
    else |rem| + LEN_LRC
  }

  /** The transfers of one round when each is acknowledged: the header,
      then (with data) the data closed by the checksum of header and data. */
  function RoundTransfers(cls: u8, ins: u8, rem: seq<u8>): seq<seq<u8>>
  {
    var h := Header(cls, ins, ChunkLen(rem));
    var d := rem[..ChunkData(rem)];
    if d == [] then [h] else [h, d + [UwbHbci.Lrc(h + d)]]
  }

  /** Every transfer `PutCommand` makes for `rem` when each is acknowledged. */
  function PutTransfers(cls: u8, ins: u8, rem: seq<u8>): seq<seq<u8>>
    decreases |rem|
  {
    RoundTransfers(cls, ins, rem)
      + if |rem| > MAX_LEN_DATA_MOSI then PutTransfers(cls, ins, rem[MAX_LEN_DATA_MOSI..]) else []
  }

  /** The transfers after the first round. */
  lemma PutUnfold(cls: u8, ins: u8, rem: seq<u8>) returns (rest: seq<seq<u8>>)
    ensures PutTransfers(cls, ins, rem) == RoundTransfers(cls, ins, rem) + rest
    ensures rest == if |rem| > MAX_LEN_DATA_MOSI then PutTransfers(cls, ins, rem[MAX_LEN_DATA_MOSI..]) else []
  {
    rest := if |rem| > MAX_LEN_DATA_MOSI then PutTransfers(cls, ins, rem[MAX_LEN_DATA_MOSI..]) else [];
  }

  /** The transfers still to make from `pos` on are one round and then
      the transfers from where that round's data ends. */
  lemma PutSplit(cls: u8, ins: u8, img: seq<u8>, pos: nat, prev: seq<seq<u8>>)
    requires pos <= |img|
    ensures pos + ChunkData(img[pos..]) <= |img|
    ensures pos < |img| ==> ChunkData(img[pos..]) > 0
    ensures var next := pos + ChunkData(img[pos..]);
      prev + PutTransfers(cls, ins, img[pos..])
      == prev + RoundTransfers(cls, ins, img[pos..]) + if next < |img| then PutTransfers(cls, ins, img[next..]) else []
  {
    var rem := img[pos..];
    var rest := PutUnfold(cls, ins, rem);
    if |rem| > MAX_LEN_DATA_MOSI {
      assert rem[MAX_LEN_DATA_MOSI..] == img[pos + MAX_LEN_DATA_MOSI..];
    }
    Regroup(prev, RoundTransfers(cls, ins, rem), rest);
  }

  lemma Regroup(a: seq<seq<u8>>, b: seq<seq<u8>>, c: seq<seq<u8>>)
    ensures a + (b + c) == a + b + c
  {
  }

  /** The number of rounds for a non-empty image: one per started chunk. */
  function Rounds(n: nat): nat
  {
    (n + MAX_LEN_DATA_MOSI - 1) / MAX_LEN_DATA_MOSI
  }

  function Init(s: seq<u8>): seq<u8>
  {
    if s == [] then [] else s[..|s| - 1]
  }

  /** The image data a run of header and payload transfers carries: every
      payload transfer without its checksum byte. */
  function Data(ts: seq<seq<u8>>): seq<u8>
  {
    if |ts| < 2 then [] else Init(ts[1]) + Data(ts[2..])
  }

  /** The payload transfers, put together, give back the image. */
  lemma {:induction false} PutCarriesImage(cls: u8, ins: u8, img: seq<u8>)
    ensures Data(PutTransfers(cls, ins, img)) == img
    decreases |img|
  {
    var ts := PutTransfers(cls, ins, img);
    var r := RoundTransfers(cls, ins, img);
    var d := img[..ChunkData(img)];
    if img == [] {
      assert ts == r;
    } else if |img| > MAX_LEN_DATA_MOSI {
      var rest := PutTransfers(cls, ins, img[MAX_LEN_DATA_MOSI..]);
      assert ts == r + rest;
      assert ts[1] == d + [UwbHbci.Lrc(Header(cls, ins, ChunkLen(img)) + d)];
      assert Init(ts[1]) == d;
      assert ts[2..] == rest;
      PutCarriesImage(cls, ins, img[MAX_LEN_DATA_MOSI..]);
      assert d + img[MAX_LEN_DATA_MOSI..] == img;
    } else {
      assert ts == r && |ts| == 2;
      assert Init(ts[1]) == img;
      assert Data(ts[2..]) == [];
    }
  }

  /** An image takes one header and payload pair per 2048-byte chunk
      started; an empty image takes a single header. */
  lemma {:induction false} PutCount(cls: u8, ins: u8, img: seq<u8>)
    ensures |PutTransfers(cls, ins, img)| == if img == [] then 1 else 2 * Rounds(|img|)
    decreases |img|
  {
    if |img| > MAX_LEN_DATA_MOSI {
      PutCount(cls, ins, img[MAX_LEN_DATA_MOSI..]);
      assert Rounds(|img|) == Rounds(|img| - MAX_LEN_DATA_MOSI) + 1;
    }
  }

  /** Round `k` of a non-empty image: every header but the last carries
      the segment flag alone, the last carries its data size plus one, each
      payload holds up to 2048 data bytes, and header and payload sum to a
      multiple of 256. */
  lemma PutRound(cls: u8, ins: u8, img: seq<u8>, k: nat)
    requires img != [] && k < Rounds(|img|)
    ensures var ts := PutTransfers(cls, ins, img);
      && 2 * k + 1 < |ts|
      && ts[2 * k] == Header(cls, ins, if k + 1 < Rounds(|img|) then APDU_SEG_FLAG else |img| - MAX_LEN_DATA_MOSI * k + LEN_LRC)
      && 2 <= |ts[2 * k + 1]| <= MAX_LEN_PAYLOAD_MOSI
      && (k + 1 < Rounds(|img|) ==> |ts[2 * k + 1]| == MAX_LEN_PAYLOAD_MOSI)
      && UwbHbci.Sum(ts[2 * k] + ts[2 * k + 1]) % 256 == 0
  {
    RoundAt(cls, ins, img, k);
    var ts := PutTransfers(cls, ins, img);
    FirstRound(cls, ins, img[MAX_LEN_DATA_MOSI * k..]);
    assert ts[2 * k] == ts[2 * k..][0] && ts[2 * k + 1] == ts[2 * k..][1];
  }

  /** Round `k` of an image is the first round of what is left of it after
      `k` chunks. */
  lemma {:induction false} RoundAt(cls: u8, ins: u8, img: seq<u8>, k: nat)
    requires img != [] && k < Rounds(|img|)
    ensures MAX_LEN_DATA_MOSI * k < |img|
    ensures k + 1 < Rounds(|img|) <==> |img| - MAX_LEN_DATA_MOSI * k > MAX_LEN_DATA_MOSI
    ensures var ts := PutTransfers(cls, ins, img);
      2 * k <= |ts| && ts[2 * k..] == PutTransfers(cls, ins, img[MAX_LEN_DATA_MOSI * k..])
    decreases k
  {
    RoundIndex(|img|, k);
    if k == 0 {
      assert img[MAX_LEN_DATA_MOSI * k..] == img;
    } else {
      RoundAt(cls, ins, img[MAX_LEN_DATA_MOSI..], k - 1);
      RoundShift(cls, ins, img, k);
    }
  }

  /** The rounds after the first are the rounds of the image less its first
      chunk, so round `k` of the image is round `k - 1` of that rest. */
  lemma RoundShift(cls: u8, ins: u8, img: seq<u8>, k: nat)
    requires |img| > MAX_LEN_DATA_MOSI && 0 < k
    requires MAX_LEN_DATA_MOSI * k == MAX_LEN_DATA_MOSI + MAX_LEN_DATA_MOSI * (k - 1) < |img|
    requires var tr := PutTransfers(cls, ins, img[MAX_LEN_DATA_MOSI..]);
      2 * (k - 1) <= |tr|
      && tr[2 * (k - 1)..] == PutTransfers(cls, ins, img[MAX_LEN_DATA_MOSI..][MAX_LEN_DATA_MOSI * (k - 1)..])
    ensures var ts := PutTransfers(cls, ins, img);
      2 * k <= |ts| && ts[2 * k..] == PutTransfers(cls, ins, img[MAX_LEN_DATA_MOSI * k..])
  {
    assert img[MAX_LEN_DATA_MOSI..][MAX_LEN_DATA_MOSI * (k - 1)..] == img[MAX_LEN_DATA_MOSI * k..];
    LaterRounds(cls, ins, img);
    DropPairs(PutTransfers(cls, ins, img), k, PutTransfers(cls, ins, img[MAX_LEN_DATA_MOSI * k..]));
  }

  /** Where round `k` of an image of `n` bytes starts, and whether it is the
      last; after the first round the image is one chunk shorter. */
  lemma RoundIndex(n: nat, k: nat)
    requires n > 0 && k < Rounds(n)
    ensures MAX_LEN_DATA_MOSI * k < n
    ensures k + 1 < Rounds(n) <==> n - MAX_LEN_DATA_MOSI * k > MAX_LEN_DATA_MOSI
    ensures k > 0 ==>
              n > MAX_LEN_DATA_MOSI && k - 1 < Rounds(n - MAX_LEN_DATA_MOSI)
              && MAX_LEN_DATA_MOSI * k == MAX_LEN_DATA_MOSI + MAX_LEN_DATA_MOSI * (k - 1)
  {
    RoundsOfLength(n);
  }

  /** Dropping `k` pairs is dropping one pair and then `k - 1` more. */
  lemma DropPairs<T>(ts: seq<T>, k: nat, tail: seq<T>)
    requires 2 <= |ts| && 0 < k && 2 * (k - 1) <= |ts[2..]| && ts[2..][2 * (k - 1)..] == tail
    ensures 2 * k <= |ts| && ts[2 * k..] == tail
  {
    assert ts[2 * k..] == ts[2..][2 * (k - 1)..];
  }

  /** An image of `n > 0` bytes takes one round when it fits a chunk, and
      otherwise one more round than what is left after the first chunk. */
  lemma RoundsOfLength(n: nat)
    ensures n > 0 ==> Rounds(n) >= 1
    ensures n > 0 ==> (Rounds(n) == 1 <==> n <= MAX_LEN_DATA_MOSI)
    ensures n > MAX_LEN_DATA_MOSI ==> Rounds(n) == Rounds(n - MAX_LEN_DATA_MOSI) + 1
  {
  }

  /** The first round of a non-empty image. */
  lemma FirstRound(cls: u8, ins: u8, img: seq<u8>)
    requires img != []
    ensures var ts := PutTransfers(cls, ins, img);
      && 2 <= |ts|
      && ts[0] == Header(cls, ins, if |img| > MAX_LEN_DATA_MOSI then APDU_SEG_FLAG else |img| + LEN_LRC)
      && 2 <= |ts[1]| <= MAX_LEN_PAYLOAD_MOSI
      && (|img| > MAX_LEN_DATA_MOSI ==> |ts[1]| == MAX_LEN_PAYLOAD_MOSI)
      && UwbHbci.Sum(ts[0] + ts[1]) % 256 == 0
  {
    var h, d := FirstTransfers(cls, ins, img);
    PayloadCloses(h, d);
  }

  /** The first two transfers of a non-empty image: the header of the first
      chunk, and that chunk closed by its checksum. */
  lemma FirstTransfers(cls: u8, ins: u8, img: seq<u8>) returns (h: seq<u8>, d: seq<u8>)
    requires img != []
    ensures h == Header(cls, ins, ChunkLen(img)) && |d| == ChunkData(img) > 0
    ensures var ts := PutTransfers(cls, ins, img);
      2 <= |ts| && ts[0] == h && ts[1] == d + [UwbHbci.Lrc(h + d)]
  {
    h := Header(cls, ins, ChunkLen(img));
    d := img[..ChunkData(img)];
    var rest := PutUnfold(cls, ins, img);
    assert PutTransfers(cls, ins, img) == [h, d + [UwbHbci.Lrc(h + d)]] + rest;
  }

  /** A header and data closed by their checksum sum to a multiple of 256. */
  lemma PayloadCloses(h: seq<u8>, d: seq<u8>)
    ensures UwbHbci.Sum(h + (d + [UwbHbci.Lrc(h + d)])) % 256 == 0
  {
    var p := d + [UwbHbci.Lrc(h + d)];
    assert p[..|d|] == d;
    ClosedSum(h, p, |d|);
    assert p[..|d| + 1] == p;
  }

  /** After the first round of an image longer than a chunk come the
      transfers of the rest of the image. */
  lemma LaterRounds(cls: u8, ins: u8, img: seq<u8>)
    requires |img| > MAX_LEN_DATA_MOSI
    ensures var ts := PutTransfers(cls, ins, img);
      |ts| >= 2 && ts[2..] == PutTransfers(cls, ins, img[MAX_LEN_DATA_MOSI..])
  {
    var rest := PutUnfold(cls, ins, img);
    assert |RoundTransfers(cls, ins, img)| == 2;
  }

  /** The transfers `made` so far and those still due for `rem` make up
      `plan`. */
  ghost predicate Remains(plan: seq<seq<u8>>, made: seq<seq<u8>>, cls: u8, ins: u8, rem: seq<u8>)
  {
    plan == made + PutTransfers(cls, ins, rem)
  }

  /** Every reply to transfers `from` up to `to` was an acknowledgement. */
  ghost predicate AckedRun(chip: nat -> Reply, from: nat, to: nat)
  {
    forall n :: from <= n < to ==> Acked(chip(n).miso)
  }

  /** Transfers from `base` on followed `plan`, each acknowledged but the
      last. */
  ghost predicate Followed(chip: nat -> Reply, base: nat, plan: seq<seq<u8>>, made: seq<seq<u8>>)
  {
    && 1 <= |made| <= |plan| && made == plan[..|made|]
    && AckedRun(chip, base, base + |made| - 1)
  }

  /** A run inside a later part of the plan extends the run before it. */
  lemma FollowedExtends(chip: nat -> Reply, base: nat, prev: seq<seq<u8>>, round: seq<seq<u8>>,
                        rest: seq<seq<u8>>, made: seq<seq<u8>>)
    requires Followed(chip, base + |prev|, round, made)
    requires AckedRun(chip, base, base + |prev|)
    ensures Followed(chip, base, prev + round + rest, prev + made)
  {
    assert (prev + round + rest)[..|prev + made|] == prev + made;
  }

  /** Two acknowledged runs of transfers, one after the other, make one. */
  lemma AckedThrough(chip: nat -> Reply, base: nat, prev: seq<seq<u8>>, made: seq<seq<u8>>)
    requires AckedRun(chip, base, base + |prev|)
    requires AckedRun(chip, base + |prev|, base + |prev| + |made|)
    ensures AckedRun(chip, base, base + |prev + made|)
  {
  }

  /** The two global APDUs, and the transfers made so far. `chip(n)` is
      the transport's reply to transfer number `n`. */
  class HbciMaster {
    var mosiCls: u8
    var mosiIns: u8
    var mosiLen: u16
    var mosiPayload: seq<u8>
    var miso: MisoApdu
    var sent: seq<seq<u8>>
    const chip: nat -> Reply

    ghost predicate Valid()
      reads this
    {
      && |mosiPayload| == MAX_LEN_PAYLOAD_MOSI
      && |miso.payload| == MAX_LEN_PAYLOAD_MISO
      && forall n :: |chip(n).miso.payload| == MAX_LEN_PAYLOAD_MISO
    }

    constructor (chip: nat -> Reply)
      requires forall n :: |chip(n).miso.payload| == MAX_LEN_PAYLOAD_MISO
      ensures Valid() && this.chip == chip && sent == []
    {
      this.chip := chip;
      mosiCls, mosiIns, mosiLen := 0, 0, 0;
      mosiPayload := Zeros(MAX_LEN_PAYLOAD_MOSI);
      miso := MisoApdu(0, 0, 0, Zeros(MAX_LEN_PAYLOAD_MISO));
      sent := [];
    }

    /** One transfer of `out`; the reply lands in the MISO APDU. */
    method Transceive(out: seq<u8>) returns (ok: bool)
      requires Valid()
      modifies this
      ensures Valid() && sent == old(sent) + [out]
      ensures miso == chip(|old(sent)|).miso && ok == chip(|old(sent)|).xferOk
      ensures mosiCls == old(mosiCls) && mosiIns == old(mosiIns) && mosiLen == old(mosiLen)
      ensures mosiPayload == old(mosiPayload)
    {
      ok := chip(|sent|).xferOk;
      miso := chip(|sent|).miso;
      sent := sent + [out];
    }

    /** `phHbci_GetStatus`: sends the header with an empty length and
      succeeds when the transfer goes through. */
    method GetStatus() returns (status: Status)
      requires Valid()
      modifies this
      ensures Valid() && mosiCls == old(mosiCls) && mosiIns == old(mosiIns) && mosiLen == 0
      ensures sent == old(sent) + [Header(mosiCls, mosiIns, 0)]
      ensures miso == chip(|old(sent)|).miso
      ensures status == Success <==> chip(|old(sent)|).xferOk
    {
      mosiLen := 0;
      var ok := Transceive(Header(mosiCls, mosiIns, mosiLen));
      status := if ok then Success else Failure;
    }

    /** `phHbci_QueryInfo`: sends the query in the MOSI APDU, acknowledges
      the answer (with an error code when it is not the one expected) and,
      on success, appends the answer's data to `info`. The MOSI APDU is
      left holding the acknowledgement. */
    method QueryInfo(info: seq<u8>, maxSz: u32, matchMaxSz: bool) returns (status: Status, info': seq<u8>)
      requires Valid()
      modifies this
      ensures Valid() && |old(sent)| <= |sent| && sent[..|old(sent)|] == old(sent)
      ensures var n := |old(sent)|;
        var expCls := AnswerClass(old(mosiCls));
        var got := QueryData(chip(n).miso, chip(n + 1).miso, expCls, old(mosiIns), maxSz, matchMaxSz);
        && (status == Success <==> got.Some?)
        && info' == (if got.Some? then info + got.value else info)
        && (maxSz > MAX_LEN_DATA_MISO ==> sent == old(sent))
        && (maxSz <= MAX_LEN_DATA_MISO ==> |sent| > n && sent[n] == Header(old(mosiCls), old(mosiIns), 0))
        && (maxSz <= MAX_LEN_DATA_MISO && AnnouncedData(chip(n).miso.len) != Some(0) ==>
              var ack := AckFor(chip(n).miso, expCls, old(mosiIns), maxSz, matchMaxSz);
              sent == old(sent) + [Header(old(mosiCls), old(mosiIns), 0), Header(CLASS_GENERAL + SUBCLASS_ACK, ack, 0)])
    {
      info' := info;
      if maxSz > MAX_LEN_DATA_MISO {
        return Failure, info';
      }
      var expCls := AnswerClass(mosiCls);
      var expIns := mosiIns;
      ghost var n := |sent|;
      mosiLen := 0;
      var _ := Transceive(Header(mosiCls, mosiIns, mosiLen));
      ghost var first := miso;
      var payloadSz := miso.len;
      var segment := payloadSz >= APDU_SEG_FLAG;
      var dataSz := 0;
      if !segment {
        var lrc := if payloadSz > 0 then LEN_LRC else 0;
        dataSz := payloadSz - lrc;
        if dataSz == 0 {
          return Failure, info';
        }
      }
      assert !segment ==> AnnouncedData(first.len) == Some(dataSz);
      status, info' := AcknowledgeInfo(info, expCls, expIns, maxSz, matchMaxSz, segment, dataSz);
    }

    /** The second half of `phHbci_QueryInfo`: acknowledges the answer in
      the MISO APDU (with the first fault found as the error code), then
      checks the checksum of the MISO APDU the acknowledgement leaves and
      appends its data. */
    method AcknowledgeInfo(info: seq<u8>, expCls: u8, expIns: u8, maxSz: nat, matchMaxSz: bool, segment: bool, dataSz: nat)
      returns (status: Status, info': seq<u8>)
      requires Valid() && maxSz <= MAX_LEN_DATA_MISO && mosiLen == 0
      requires segment <==> AnnouncedData(miso.len).None?
      requires !segment ==> AnnouncedData(miso.len) == Some(dataSz) && dataSz > 0
      requires segment ==> dataSz == 0
      modifies this
      ensures Valid()
      ensures var ack := AckFor(old(miso), expCls, expIns, maxSz, matchMaxSz);
        sent == old(sent) + [Header(CLASS_GENERAL + SUBCLASS_ACK, ack, 0)]
      ensures var got := QueryData(old(miso), chip(|old(sent)|).miso, expCls, expIns, maxSz, matchMaxSz);
        && (status == Success <==> got.Some?)
        && info' == (if got.Some? then info + got.value else info)
    {
      info' := info;
      ghost var first := miso;
      mosiCls := CLASS_GENERAL + SUBCLASS_ACK;
      mosiIns := VALID_APDU;
      if miso.cls != expCls {
        mosiIns := INVALID_CLASS;
      } else if miso.ins != expIns {
        mosiIns := INVALID_INSTRUCTION;
      } else if segment {
        mosiIns := INVALID_SEGMENT_LENGTH;
      } else if dataSz > maxSz {
        mosiIns := INVALID_SEGMENT_LENGTH;
      } else if matchMaxSz && dataSz != maxSz {
        mosiIns := INVALID_SEGMENT_LENGTH;
      }
      assert mosiIns == AckFor(first, expCls, expIns, maxSz, matchMaxSz);
      var _ := Transceive(Header(mosiCls, mosiIns, mosiLen));
      ghost var got := QueryData(first, miso, expCls, expIns, maxSz, matchMaxSz);
      if mosiIns >= 0x80 {
        assert got == None;
        return Failure, info';
      }
      var lrc := CalcLrc(Header(miso.cls, miso.ins, miso.len) + miso.payload[..dataSz]);
      if miso.payload[dataSz] != lrc {
        assert got == None;
        return Failure, info';
      }
      assert got == Some(miso.payload[..dataSz]);
      info' := info + miso.payload[..dataSz];
      status := Success;
    }

    /** `phHbci_GetGeneralInfo`: a general query for one of the five known
      items, asking for exactly the item's size. */
    method GetGeneralInfo(info: seq<u8>) returns (status: Status, info': seq<u8>)
      requires Valid()
      modifies this
      ensures Valid() && |old(sent)| <= |sent| && sent[..|old(sent)|] == old(sent)
      ensures old(mosiCls) != CLASS_GENERAL + SUBCLASS_QUERY || InfoSize(old(mosiIns)).None? ==>
        status == Failure && info' == info && sent == old(sent)
      ensures status == Success ==>
        && old(mosiCls) == CLASS_GENERAL + SUBCLASS_QUERY && InfoSize(old(mosiIns)).Some?
        && |info'| == |info| + InfoSize(old(mosiIns)).value && info'[..|info|] == info
        && var n := |old(sent)|;
           var got := QueryData(chip(n).miso, chip(n + 1).miso, AnswerClass(old(mosiCls)), old(mosiIns),
                                InfoSize(old(mosiIns)).value, true);
           got.Some? && info'[|info|..] == got.value
      ensures status == Failure ==> info' == info
    {
      if mosiCls != CLASS_GENERAL + SUBCLASS_QUERY {
        return Failure, info;
      }
      var size := InfoSize(mosiIns);
      if size.None? {
        return Failure, info;
      }
      status, info' := QueryInfo(info, size.value, true);
      assert info'[..|info|] == info;
    }

    /** The data half of a round: copies `d` into the MOSI payload, closes
      it with the checksum of the header and `d`, and sends both. */
    method SendPayload(d: seq<u8>) returns (ok: bool)
      requires Valid() && 0 < |d| <= MAX_LEN_DATA_MOSI
      modifies this
      ensures Valid() && mosiCls == old(mosiCls) && mosiIns == old(mosiIns) && mosiLen == old(mosiLen)
      ensures sent == old(sent) + [d + [UwbHbci.Lrc(Header(mosiCls, mosiIns, mosiLen) + d)]]
      ensures ok <==> Acked(chip(|old(sent)|).miso)
    {
      var n := |d|;
      mosiPayload := d + mosiPayload[n..];
      assert mosiPayload[..n] == d;
      var lrc := CalcLrc(Header(mosiCls, mosiIns, mosiLen) + mosiPayload[..n]);
      mosiPayload := mosiPayload[..n] + [lrc] + mosiPayload[n + 1..];
      assert mosiPayload[..n + 1] == d + [lrc];
      var _ := Transceive(mosiPayload[..n + 1]);
      ok := Acked(miso);
    }

    /** One round of `phHbci_PutCommand` on the image from `pos` on: the
      header, then, when there is data, the data closed by its checksum.
      `ok` says the last reply acknowledged the transfer; `made` is what
      went out. */
    method PutChunk(img: seq<u8>, pos: nat) returns (ok: bool, dataSz: nat, ghost made: seq<seq<u8>>)
      requires Valid() && pos <= |img|
      modifies this
      ensures Valid() && mosiCls == old(mosiCls) && mosiIns == old(mosiIns)
      ensures sent == old(sent) + made
      ensures Followed(chip, |old(sent)|, RoundTransfers(mosiCls, mosiIns, img[pos..]), made)
      ensures ok <==> Acked(chip(|sent| - 1).miso)
      ensures ok ==> made == RoundTransfers(mosiCls, mosiIns, img[pos..])
      ensures ok ==> AckedRun(chip, |old(sent)|, |sent|)
      ensures dataSz == ChunkData(img[pos..])
    {
      ghost var rem := img[pos..];
      if |img| - pos > MAX_LEN_DATA_MOSI {
        dataSz := MAX_LEN_DATA_MOSI;
        mosiLen := APDU_SEG_FLAG;
      } else {
        var lrc := if |img| - pos > 0 then LEN_LRC else 0;
        dataSz := |img| - pos;
        mosiLen := dataSz + lrc;
      }
      assert mosiLen == ChunkLen(rem);
      var h := Header(mosiCls, mosiIns, mosiLen);
      var _ := Transceive(h);
      made := [h];
      ok := Acked(miso);
      if !ok || dataSz == 0 {
        return;
      }
      assert img[pos..pos + dataSz] == rem[..ChunkData(rem)];
      ok := SendPayload(img[pos..pos + dataSz]);
      made := made + [sent[|sent| - 1]];
    }

    /** One pass of `phHbci_PutCommand`'s loop: a round from `pos` on,
      after the transfers `prev` of the rounds before it, all acknowledged.
      `made` is every transfer made so far. */
    method PutStep(img: seq<u8>, pos: nat, ghost cls: u8, ghost ins: u8, ghost plan: seq<seq<u8>>,
                   ghost start: seq<seq<u8>>, ghost prev: seq<seq<u8>>)
      returns (ok: bool, dataSz: nat, ghost made: seq<seq<u8>>)
      requires Valid() && mosiCls == cls && mosiIns == ins
      requires pos <= |img| && sent == start + prev
      requires AckedRun(chip, |start|, |start| + |prev|)
      requires Remains(plan, prev, cls, ins, img[pos..])
      modifies this
      ensures Valid() && mosiCls == cls && mosiIns == ins && sent == start + made
      ensures made != [] && |sent| == |start| + |made| && (ok <==> Acked(chip(|sent| - 1).miso))
      ensures !ok ==> Followed(chip, |start|, plan, made)
      ensures ok ==> && pos + dataSz <= |img| && (pos < |img| ==> dataSz > 0)
                     && AckedRun(chip, |start|, |sent|)
                     && (pos + dataSz < |img| ==> Remains(plan, made, cls, ins, img[pos + dataSz..]))
                     && (pos + dataSz == |img| ==> plan == made)
    {
      PutSplit(cls, ins, img, pos, prev);
      ghost var round := RoundTransfers(cls, ins, img[pos..]);
      ghost var next := pos + ChunkData(img[pos..]);
      ghost var rest := if next < |img| then PutTransfers(cls, ins, img[next..]) else [];
      ghost var step;
      ok, dataSz, step := PutChunk(img, pos);
      Regroup(start, prev, step);
      made := prev + step;
      if !ok {
        FollowedExtends(chip, |start|, prev, round, rest, step);
        return;
      }
      AckedThrough(chip, |start|, prev, step);
    }

    /** The loop of `phHbci_PutCommand`: rounds until the image is all out
      or a reply is not an acknowledgement; `plan` is what the image calls
      for. */
    method PutRounds(img: seq<u8>, ghost plan: seq<seq<u8>>) returns (ok: bool, ghost made: seq<seq<u8>>)
      requires Valid() && Remains(plan, [], mosiCls, mosiIns, img)
      modifies this
      ensures Valid() && mosiCls == old(mosiCls) && mosiIns == old(mosiIns)
      ensures sent == old(sent) + made && made != []
      ensures ok <==> Acked(chip(|sent| - 1).miso)
      ensures ok ==> plan == made && AckedRun(chip, |old(sent)|, |sent|)
      ensures !ok ==> Followed(chip, |old(sent)|, plan, made)
    {
      ghost var cls, ins, start := mosiCls, mosiIns, sent;
      made := [];
      var pos := 0;
      var more := true;
      assert img[pos..] == img;
      while more
        invariant Valid() && mosiCls == cls && mosiIns == ins
        invariant pos <= |img| && sent == start + made && |sent| == |start| + |made|
        invariant AckedRun(chip, |start|, |sent|)
        invariant more ==> Remains(plan, made, cls, ins, img[pos..])
        invariant !more ==> plan == made && made != []
        decreases |img| - pos, if more then 1 else 0
      {
        var dataSz;
        ok, dataSz, made := PutStep(img, pos, cls, ins, plan, start, made);
        if !ok {
          return;
        }
        pos := pos + dataSz;
        more := pos < |img|;
      }
      ok := true;
    }

    /** `phHbci_PutCommand`: sends the image in rounds and succeeds when
      every transfer was acknowledged. */
    method PutCommand(img: seq<u8>) returns (status: Status, ghost made: seq<seq<u8>>)
      requires Valid() && |img| < 0x1_0000_0000
      modifies this
      ensures Valid() && mosiCls == old(mosiCls) && mosiIns == old(mosiIns)
      ensures sent == old(sent) + made
      ensures Followed(chip, |old(sent)|, PutTransfers(mosiCls, mosiIns, img), made)
      ensures status == Success <==> Acked(chip(|sent| - 1).miso)
      ensures status == Success ==> made == PutTransfers(mosiCls, mosiIns, img)
    {
      var ok;
      ok, made := PutRounds(img, PutTransfers(mosiCls, mosiIns, img));
      if ok {
        assert made[..|made|] == made;
        status := Success;
      } else {
        status := Failure;
      }
    }
  }
}
