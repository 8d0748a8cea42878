// The plug-and-play demo's host interface: TLVs (one type byte, a 16-bit
// big-endian length, the value) arrive in pieces through a read callback,
// which reassembles them in a fixed receive buffer and wakes the handler
// task once a whole TLV is in.
module UwbHifHandler {
  import opened Bytes

  /** The size of the receive buffer. */
  const MAX_RSP_PACKET_SIZE: nat := 2176
  /** Type and length come first. */
  const HEADER_SIZE: nat := 3

  /** The receive buffer (a sequence, so that a copy past its declared size
      shows as growth), the bytes received and the size expected. */
  datatype HifState = HifState(buf: seq<u8>, rcvSize: nat, rcvSizeExp: nat)

  predicate Sized(s: HifState)
  {
    s.rcvSize <= |s.buf|
  }

  /** The state before any byte and after each whole TLV. */
  function Idle(buf: seq<u8>): HifState
  {
    HifState(buf, 0, 0)
  }

  /** The size a received header announces: the header and the big-endian
      length, before it is stored in 16 bits. */
  function Announced(buf: seq<u8>): nat
    requires |buf| >= HEADER_SIZE
  {
    HEADER_SIZE + BE16(buf[1], buf[2]) as nat
  }

  /** How much the callback copies next out of `remaining` bytes: one byte
      at a time until the header is in, then everything up to the expected
      size. The difference is computed in 32 bits: it is never negative in
      the source, which turns a negative one into a huge copy. */
  function CopySize(s: HifState, remaining: nat): int
  {
    if s.rcvSize < HEADER_SIZE then 1
    else if s.rcvSize + remaining <= s.rcvSizeExp then remaining
    else s.rcvSizeExp - s.rcvSize
  }

  /** One copy: the bytes land after those received, and when they complete
      the header, the expected size is taken from it (stored in 16 bits). */
  function Copy(s: HifState, chunk: seq<u8>): (r: HifState)
    requires Sized(s)
    ensures Sized(r) && r.rcvSize == s.rcvSize + |chunk|
  {
    var buf := Write(s.buf, s.rcvSize, chunk);
    var size := s.rcvSize + |chunk|;
    HifState(buf, size, if size == HEADER_SIZE then Announced(buf) % 0x1_0000 else s.rcvSizeExp)
  }

  /** A copy keeps the bytes received and puts `chunk` right after them. */
  lemma CopyContents(s: HifState, chunk: seq<u8>)
    requires Sized(s)
    ensures var r := Copy(s, chunk);
      r.buf[..s.rcvSize] == s.buf[..s.rcvSize] && r.buf[s.rcvSize..r.rcvSize] == chunk
  {
    WriteContents(s.buf, s.rcvSize, chunk);
  }

  /** How the copy loop of one callback ends: all bytes copied; stuck with
      bytes left and nothing to copy (the source spins there for ever); a
      copy size that wrapped around (the source copies far past both
      buffers); or, in the corrected callback, a TLV too large for the
      buffer thrown away. */
  datatype Outcome = Copied(s: HifState) | Stalled(s: HifState) | Overrun(s: HifState) | Dropped(s: HifState)

  /** The copy loop of `Uwb_Hif_ReadDataCb` over `data`. With `checked`, the
      loop stops once the TLV is whole, and a header announcing more than
      the buffer holds drops the TLV. */
  function Fill(s: HifState, data: seq<u8>, checked: bool): (r: Outcome)
    requires Sized(s)
    ensures Sized(r.s)
    decreases |data|
  {
    if data == [] then Copied(s)
    else
      var cp := CopySize(s, |data|);
      if cp == 0 then (if checked then Copied(s) else Stalled(s))
      else if cp < 0 then Overrun(s)
      else
        var next := Copy(s, data[..cp]);
        if checked && next.rcvSize == HEADER_SIZE && Announced(next.buf) > MAX_RSP_PACKET_SIZE
        then Dropped(Idle(next.buf))
        else Fill(next, data[cp..], checked)
  }

  /** One turn of the copy loop, as the callback takes it. */
  lemma FillStep(s: HifState, data: seq<u8>)
    requires Sized(s) && data != []
    ensures var cp := CopySize(s, |data|);
      && (cp == 0 ==> Fill(s, data, false) == Stalled(s))
      && (cp < 0 ==> Fill(s, data, false) == Overrun(s))
      && (cp > 0 ==> cp <= |data| && Fill(s, data, false) == Fill(Copy(s, data[..cp]), data[cp..], false))
  {
  }

  /** The loop of the callback, as written, moving on by `cp` bytes. */
  lemma FillAdvance(s: HifState, data: seq<u8>, pos: nat, cp: nat)
    requires Sized(s) && pos < |data| && 0 < cp == CopySize(s, |data| - pos)
    ensures pos + cp <= |data|
    ensures Fill(s, data[pos..], false) == Fill(Copy(s, data[pos..pos + cp]), data[pos + cp..], false)
  {
    FillStep(s, data[pos..]);
    SplitAt(data, pos, cp);
  }

  /** The unchecked copy loop, started from `s` over `rest`, ends in `outcome`. */
  ghost predicate Leads(s: HifState, rest: seq<u8>, outcome: Outcome)
  {
    Sized(s) && Fill(s, rest, false) == outcome
  }

  /** A turn of the loop that copies nothing ends the loop where it is. */
  lemma LeadsStop(s: HifState, rest: seq<u8>, outcome: Outcome)
    requires Leads(s, rest, outcome) && rest != [] && CopySize(s, |rest|) <= 0
    ensures CopySize(s, |rest|) == 0 ==> outcome == Stalled(s)
    ensures CopySize(s, |rest|) < 0 ==> outcome == Overrun(s)
  {
    FillStep(s, rest);
  }

  /** A turn of the loop that copies `cp` bytes leads on to the same end. */
  lemma LeadsOn(s: HifState, data: seq<u8>, pos: nat, cp: nat, outcome: Outcome)
    requires pos < |data| && Leads(s, data[pos..], outcome) && 0 < cp == CopySize(s, |data| - pos)
    ensures pos + cp <= |data| && Leads(Copy(s, data[pos..pos + cp]), data[pos + cp..], outcome)
  {
    FillAdvance(s, data, pos, cp);
  }

  /** A TLV is whole when the bytes received reach the size expected. */
  predicate Whole(s: HifState)
  {
    s.rcvSize == s.rcvSizeExp
  }

  /** The state a callback that returns leaves, and whether it wakes the
      handler task. */
  function AfterCall(r: Outcome): (HifState, bool)
    requires r.Copied? || r.Dropped?
  {
    if r.Copied? && Whole(r.s) then (Idle(r.s.buf), true) else (r.s, false)
  }

  /** The TLV the handler task reads out of the receive buffer: the type,
      the big-endian length and the value after them. */
  function TaskTlv(buf: seq<u8>): (t: (u8, u16, seq<u8>))
    requires |buf| >= HEADER_SIZE && Announced(buf) <= |buf|
    ensures t.2 == buf[HEADER_SIZE..Announced(buf)] && |t.2| == t.1 as nat
  {
    (buf[0], BE16(buf[1], buf[2]), buf[HEADER_SIZE..Announced(buf)])
  }

  // ---------------------------------------------------------------------
  // Reassembly

  /** A TLV frame the host may send: the header's length is what follows. */
  predicate IsFrame(frame: seq<u8>)
  {
    HEADER_SIZE <= |frame| < 0x1_0000 && Announced(frame) == |frame|
  }

  /** The callback has received the first `k` bytes of `frame`. */
  ghost predicate At(s: HifState, frame: seq<u8>, k: nat)
  {
    && IsFrame(frame) && k <= |frame|
    && s.rcvSize == k && Sized(s) && s.buf[..k] == frame[..k]
    && s.rcvSizeExp == (if k >= HEADER_SIZE then |frame| else 0)
  }

  /** Feeding the next bytes of a frame copies them all and moves on to the
      position after them, whatever the mode. */
  lemma {:induction false} FillFrame(s: HifState, frame: seq<u8>, k: nat, j: nat, checked: bool)
    requires At(s, frame, k) && k <= j <= |frame|
    requires checked ==> |frame| <= MAX_RSP_PACKET_SIZE
    ensures Fill(s, frame[k..j], checked).Copied?
    ensures At(Fill(s, frame[k..j], checked).s, frame, j)
    decreases j - k
  {
    if k < j {
      var cp := if k < HEADER_SIZE then 1 else j - k;
      var next := FrameStep(s, frame, k, j, checked, cp);
      FillFrame(next, frame, k + cp, j, checked);
    }
  }

  /** One turn of the loop over the bytes `k` to `j` of a frame. */
  lemma FrameStep(s: HifState, frame: seq<u8>, k: nat, j: nat, checked: bool, cp: nat) returns (next: HifState)
    requires At(s, frame, k) && k < j <= |frame|
    requires checked ==> |frame| <= MAX_RSP_PACKET_SIZE
    requires cp == if k < HEADER_SIZE then 1 else j - k
    ensures At(next, frame, k + cp)
    ensures Fill(s, frame[k..j], checked) == Fill(next, frame[k + cp..j], checked)
  {
    next := CopyFrame(s, frame, k, cp);
    var data := frame[k..j];
    assert data[..cp] == frame[k..k + cp] && data[cp..] == frame[k + cp..j];
    assert cp == CopySize(s, |data|);
    assert !(checked && next.rcvSize == HEADER_SIZE && Announced(next.buf) > MAX_RSP_PACKET_SIZE);
    FillUnfold(s, data, checked, cp);
  }

  /** One turn of the loop that copies `cp` bytes and goes on. */
  lemma FillUnfold(s: HifState, data: seq<u8>, checked: bool, cp: nat)
    requires Sized(s) && data != [] && 0 < cp == CopySize(s, |data|)
    requires var next := Copy(s, data[..cp]);
      !(checked && next.rcvSize == HEADER_SIZE && Announced(next.buf) > MAX_RSP_PACKET_SIZE)
    ensures Fill(s, data, checked) == Fill(Copy(s, data[..cp]), data[cp..], checked)
  {
  }

  /** Copying the next `cp` bytes of a frame, one at a time within the
      header, moves the callback on to the position after them. */
  lemma CopyFrame(s: HifState, frame: seq<u8>, k: nat, cp: nat) returns (next: HifState)
    requires At(s, frame, k) && 0 < cp && k + cp <= |frame| && (k < HEADER_SIZE ==> cp == 1)
    ensures next == Copy(s, frame[k..k + cp]) && At(next, frame, k + cp)
    ensures next.rcvSize == HEADER_SIZE ==> Announced(next.buf) == |frame|
  {
    next := Copy(s, frame[k..k + cp]);
    assert next.buf[..k + cp] == frame[..k + cp] by {
      assert next.buf[..k] == frame[..k];
      assert next.buf[k..k + cp] == frame[k..k + cp];
    }
    if k + cp == HEADER_SIZE {
      assert next.buf[1] == frame[1] && next.buf[2] == frame[2];
    }
  }

  /** A frame handed over in one call is taken whole: the callback returns,
      wakes the handler task once, and the HIF task reads the frame's type,
      length and value. */
  lemma FrameInOneCall(buf: seq<u8>, frame: seq<u8>, checked: bool)
    requires IsFrame(frame) && (checked ==> |frame| <= MAX_RSP_PACKET_SIZE)
    ensures Fill(Idle(buf), frame, checked).Copied?
    ensures var (after, woken) := AfterCall(Fill(Idle(buf), frame, checked));
      && woken && after.rcvSize == 0 && after.rcvSizeExp == 0
      && |after.buf| >= |frame| && after.buf[..|frame|] == frame
      && TaskTlv(after.buf) == (frame[0], BE16(frame[1], frame[2]), frame[HEADER_SIZE..])
  {
    FillFrame(Idle(buf), frame, 0, |frame|, checked);
    assert frame[0..|frame|] == frame;
    var after := Fill(Idle(buf), frame, checked).s;
    assert after.buf[..|frame|] == frame;
    assert after.buf[0] == frame[0] && after.buf[1] == frame[1] && after.buf[2] == frame[2];
    assert after.buf[HEADER_SIZE..|frame|] == frame[HEADER_SIZE..];
  }

  /** The calls of a host that sends one frame in pieces, one callback per
      piece: the state after them and how many times the HIF task was woken.
      A call that does not return ends the run. */
  function Feed(s: HifState, chunks: seq<seq<u8>>, checked: bool): (r: (HifState, nat))
    requires Sized(s)
    ensures Sized(r.0)
    decreases |chunks|
  {
    if chunks == [] then (s, 0)
    else
      var r := Fill(s, chunks[0], checked);
      if r.Stalled? || r.Overrun? then (r.s, 0)
      else
        var (after, woken) := AfterCall(r);
        var rest := Feed(after, chunks[1..], checked);
        (rest.0, rest.1 + (if woken then 1 else 0))
  }

  /** However a frame is cut into non-empty pieces, the HIF task is woken
      exactly once, after the last piece, and the buffer then holds the
      frame. */
  lemma {:induction false} ChunkedFrame(s: HifState, frame: seq<u8>, k: nat, chunks: seq<seq<u8>>, checked: bool)
    requires At(s, frame, k) && k < |frame| && Concat(chunks) == frame[k..]
    requires forall i :: 0 <= i < |chunks| ==> chunks[i] != []
    requires checked ==> |frame| <= MAX_RSP_PACKET_SIZE
    ensures Feed(s, chunks, checked).1 == 1
    ensures var after := Feed(s, chunks, checked).0;
      after.rcvSize == 0 && after.rcvSizeExp == 0 && |after.buf| >= |frame| && after.buf[..|frame|] == frame
    decreases |chunks|
  {
    var next, j := FirstChunk(s, frame, k, chunks, checked);
    FeedReturns(s, chunks, checked);
    if j == |frame| {
      EmptyConcat(chunks[1..]);
      assert next.buf[..|frame|] == frame;
    } else {
      ChunkedFrame(next, frame, j, chunks[1..], checked);
    }
  }

  /** The first piece of the rest of a frame is copied whole; the TLV is
      whole exactly when that piece ends the frame, and the other pieces
      carry what is left. */
  lemma FirstChunk(s: HifState, frame: seq<u8>, k: nat, chunks: seq<seq<u8>>, checked: bool)
    returns (next: HifState, j: nat)
    requires At(s, frame, k) && k < |frame| && Concat(chunks) == frame[k..]
    requires forall i :: 0 <= i < |chunks| ==> chunks[i] != []
    requires checked ==> |frame| <= MAX_RSP_PACKET_SIZE
    ensures chunks != [] && k < j <= |frame|
    ensures Fill(s, chunks[0], checked) == Copied(next) && At(next, frame, j)
    ensures Whole(next) <==> j == |frame|
    ensures Concat(chunks[1..]) == frame[j..]
    ensures forall i :: 0 <= i < |chunks[1..]| ==> chunks[1..][i] != []
  {
    NextChunk(k, frame, chunks);
    j := k + |chunks[0]|;
    assert chunks[0] == frame[k..j];
    FillFrame(s, frame, k, j, checked);
    next := Fill(s, frame[k..j], checked).s;
    TailNonEmpty(chunks);
  }

  /** The pieces after the first of non-empty pieces are non-empty. */
  lemma TailNonEmpty(chunks: seq<seq<u8>>)
    requires chunks != [] && forall i :: 0 <= i < |chunks| ==> chunks[i] != []
    ensures forall i :: 0 <= i < |chunks[1..]| ==> chunks[1..][i] != []
  {
    forall i | 0 <= i < |chunks[1..]|
      ensures chunks[1..][i] != []
    {
      assert chunks[1..][i] == chunks[i + 1];
    }
  }

  /** A call that returns leaves the state AfterCall describes, and the run
      goes on from there. */
  lemma FeedReturns(s: HifState, chunks: seq<seq<u8>>, checked: bool)
    requires Sized(s) && chunks != []
    requires Fill(s, chunks[0], checked).Copied?
    ensures var (after, woken) := AfterCall(Fill(s, chunks[0], checked));
      var rest := Feed(after, chunks[1..], checked);
      Feed(s, chunks, checked) == (rest.0, rest.1 + if woken then 1 else 0)
  {
  }

  /** The first callback on an idle receiver reassembles a frame cut into
      pieces. */
  lemma FrameInPieces(buf: seq<u8>, frame: seq<u8>, chunks: seq<seq<u8>>, checked: bool)
    requires IsFrame(frame) && Concat(chunks) == frame
    requires forall i :: 0 <= i < |chunks| ==> chunks[i] != []
    requires checked ==> |frame| <= MAX_RSP_PACKET_SIZE
    ensures Feed(Idle(buf), chunks, checked).1 == 1
    ensures var after := Feed(Idle(buf), chunks, checked).0;
      after == Idle(after.buf) && |after.buf| >= |frame| && after.buf[..|frame|] == frame
  {
    assert frame[0..] == frame;
    ChunkedFrame(Idle(buf), frame, 0, chunks, checked);
  }

  /** Once the header is in, the loop never fills the buffer beyond the
      expected size, unless the header's length wrapped the 16-bit expected
      size below the header's own. */
  lemma {:induction false} NeverBeyondExpected(s: HifState, data: seq<u8>)
    requires Sized(s) && (s.rcvSize >= HEADER_SIZE ==> s.rcvSize <= s.rcvSizeExp)
    ensures var r := Fill(s, data, false);
      (r.Copied? || r.Stalled?) && r.s.rcvSize >= HEADER_SIZE && r.s.rcvSize > r.s.rcvSizeExp ==>
        r.s.rcvSize == HEADER_SIZE && Announced(r.s.buf) >= 0x1_0000
    decreases |data|
  {
    if data != [] {
      var cp := CopySize(s, |data|);
      if cp > 0 {
        var next := Copy(s, data[..cp]);
        if next.rcvSize >= HEADER_SIZE && next.rcvSize > next.rcvSizeExp {
          assert next.rcvSize == HEADER_SIZE;
        } else {
          NeverBeyondExpected(next, data[cp..]);
        }
      }
    }
  }

  // ---------------------------------------------------------------------
  // Where the callback goes wrong

  /** A call that carries one byte past a TLV with an empty value never
      returns: the TLV is whole after the header and nothing more may be
      copied, yet a byte is left. */
  lemma ExtraByteStalls(buf: seq<u8>)
    ensures Fill(Idle(buf), [0x01, 0x00, 0x00, 0xAA], false).Stalled?
  {
    assert [0x01, 0x00, 0x00, 0xAA] == [0x01] + ([0x00] + ([0x00] + [0xAA]));
    var s1 := HeaderByte(Idle(buf), 0x01, [0x00] + ([0x00] + [0xAA]));
    var s2 := HeaderByte(s1, 0x00, [0x00] + [0xAA]);
    var s3 := HeaderByte(s2, 0x00, [0xAA]);
    assert s3.buf[1] == 0x00 by {
      assert s3.buf[..2] == s2.buf[..2];
    }
    assert Announced(s3.buf) == 3;
    WholeStalls(s3, [0xAA]);
  }

  /** A header byte is copied on its own, and the loop goes on with the
      bytes after it. */
  lemma HeaderByte(s: HifState, b: u8, rest: seq<u8>) returns (next: HifState)
    requires Sized(s) && s.rcvSize < HEADER_SIZE
    ensures next == Copy(s, [b]) && next.rcvSize == s.rcvSize + 1 && next.buf[s.rcvSize] == b
    ensures next.rcvSize < HEADER_SIZE ==> next.rcvSizeExp == s.rcvSizeExp
    ensures next.rcvSize == HEADER_SIZE && Announced(next.buf) < 0x1_0000 ==> next.rcvSizeExp == Announced(next.buf)
    ensures Fill(s, [b] + rest, false) == Fill(next, rest, false)
  {
    next := Copy(s, [b]);
    var data := [b] + rest;
    assert data[..1] == [b] && data[1..] == rest;
    FillStep(s, data);
    assert next.buf[s.rcvSize..s.rcvSize + 1] == [b];
  }

  /** Bytes handed over once the TLV is whole are never copied. */
  lemma WholeStalls(s: HifState, data: seq<u8>)
    requires Sized(s) && s.rcvSize >= HEADER_SIZE && Whole(s) && data != []
    ensures Fill(s, data, false) == Stalled(s)
  {
    FillStep(s, data);
  }

  /** A TLV whose length is more than the buffer holds after its header is
      copied past the end of the 2176-byte buffer. */
  lemma LongFrameOverflows(buf: seq<u8>, frame: seq<u8>)
    requires |buf| == MAX_RSP_PACKET_SIZE && IsFrame(frame) && |frame| > MAX_RSP_PACKET_SIZE
    ensures Fill(Idle(buf), frame, false).Copied?
    ensures |Fill(Idle(buf), frame, false).s.buf| == |frame| > MAX_RSP_PACKET_SIZE
  {
    FillFrame(Idle(buf), frame, 0, |frame|, false);
    assert frame[0..|frame|] == frame;
    FillLength(Idle(buf), frame, false);
  }

  /** The loop only ever writes just past the bytes received: the buffer
      grows to exactly what has been received when that is more than it
      held. */
  lemma {:induction false} FillLength(s: HifState, data: seq<u8>, checked: bool)
    requires Sized(s)
    ensures var r := Fill(s, data, checked);
      !r.Dropped? ==> r.s.rcvSize >= s.rcvSize && |r.s.buf| == if r.s.rcvSize <= |s.buf| then |s.buf| else r.s.rcvSize
    decreases |data|
  {
    if data != [] {
      var cp := CopySize(s, |data|);
      if cp > 0 {
        var next := Copy(s, data[..cp]);
        if !(checked && next.rcvSize == HEADER_SIZE && Announced(next.buf) > MAX_RSP_PACKET_SIZE) {
          FillLength(next, data[cp..], checked);
        }
      }
    }
  }

  /** The receive buffer has its 2176 bytes, and once the header is in the
      expected size lies between the bytes received and the end of it. */
  predicate Bounded(s: HifState)
  {
    && |s.buf| == MAX_RSP_PACKET_SIZE && s.rcvSize <= MAX_RSP_PACKET_SIZE
    && (s.rcvSize >= HEADER_SIZE ==> s.rcvSize <= s.rcvSizeExp <= MAX_RSP_PACKET_SIZE)
  }

  /** The corrected callback keeps to the buffer: it always returns, and
      the buffer keeps its 2176 bytes. */
  lemma {:induction false} CheckedFillStaysInBounds(s: HifState, data: seq<u8>)
    requires Bounded(s)
    ensures var r := Fill(s, data, true);
      (r.Copied? || r.Dropped?) && Bounded(r.s)
    decreases |data|
  {
    if data != [] {
      var cp, next, dropped := CheckedStep(s, data);
      if cp > 0 && !dropped {
        CheckedFillStaysInBounds(next, data[cp..]);
      }
    }
  }

  /** One turn of the corrected copy loop from a bounded state: nothing to
      copy ends the call, a header announcing too much drops the TLV, and
      otherwise the copy leaves a bounded state. */
  lemma CheckedStep(s: HifState, data: seq<u8>) returns (cp: nat, next: HifState, dropped: bool)
    requires Bounded(s) && data != []
    ensures cp == 0 ==> Fill(s, data, true) == Copied(s)
    ensures cp > 0 ==> cp <= |data| && |next.buf| == MAX_RSP_PACKET_SIZE
    ensures cp > 0 && dropped ==> Fill(s, data, true) == Dropped(Idle(next.buf))
    ensures cp > 0 && !dropped ==> Bounded(next) && Fill(s, data, true) == Fill(next, data[cp..], true)
  {
    next, dropped := s, false;
    var c := CopySize(s, |data|);
    assert c >= 0;
    cp := c;
    if cp > 0 {
      next := Copy(s, data[..cp]);
      assert |next.buf| == MAX_RSP_PACKET_SIZE;
      dropped := next.rcvSize == HEADER_SIZE && Announced(next.buf) > MAX_RSP_PACKET_SIZE;
      if !dropped {
        if next.rcvSize == HEADER_SIZE {
          assert next.rcvSizeExp == Announced(next.buf);
        }
        FillUnfold(s, data, true, cp);
      }
    }
  }

  // ---------------------------------------------------------------------
  // The receiver

  /** The callback's state: the static receive buffer, the counters and the
      error flag it clears when a TLV is whole. */
  class HifReceiver {
    var buf: seq<u8>
    var rcvSize: nat
    var rcvSizeExp: nat
    var mError: bool

    function State(): HifState
      reads this
    {
      HifState(buf, rcvSize, rcvSizeExp)
    }

    constructor ()
      ensures State() == Idle(Zeros(MAX_RSP_PACKET_SIZE)) && !mError
    {
      buf := Zeros(MAX_RSP_PACKET_SIZE);
      rcvSize := 0;
      rcvSizeExp := 0;
      mError := false;
    }

    /** One copy of the callback's loop: the bytes go in after those
        received, and the header's length, once in, sets the size expected. */
    method CopyIn(chunk: seq<u8>)
      requires Sized(State())
      modifies this
      ensures State() == Copy(old(State()), chunk) && mError == old(mError)
    {
      buf := Write(buf, rcvSize, chunk);
      rcvSize := rcvSize + |chunk|;
      if rcvSize == HEADER_SIZE {
        rcvSizeExp := (HEADER_SIZE + BE16(buf[1], buf[2]) as nat) % 0x1_0000;
      }
    }

    /** One pass of the callback's loop at `pos`: the size it copies, and
        the bytes copied in when that size is positive. */
    method CopyTurn(data: seq<u8>, pos: nat, ghost outcome: Outcome) returns (cpSize: int, next: nat)
      requires pos < |data| && Sized(State())
      requires Leads(State(), data[pos..], outcome)
      modifies this
      ensures mError == old(mError) && Sized(State())
      ensures cpSize == 0 ==> State() == old(State()) && outcome == Stalled(State())
      ensures cpSize < 0 ==> State() == old(State()) && outcome == Overrun(State())
      ensures cpSize > 0 ==> next == pos + cpSize <= |data| && Leads(State(), data[next..], outcome)
    {
      cpSize := NextCopySize(|data| - pos);
      next := pos;
      if cpSize <= 0 {
        LeadsStop(State(), data[pos..], outcome);
      } else {
        next := Advance(data, pos, cpSize, outcome);
      }
    }

    /** How much the loop copies next out of the `remaining` bytes. */
    method NextCopySize(remaining: nat) returns (cpSize: int)
      ensures cpSize == CopySize(State(), remaining)
    {
      if rcvSize < HEADER_SIZE {
        cpSize := 1;
      } else if rcvSize + remaining <= rcvSizeExp {
        cpSize := remaining;
      } else {
        cpSize := rcvSizeExp - rcvSize;
      }
    }

    /** Copies the next `cp` bytes in, which leads on to the same end. */
    method Advance(data: seq<u8>, pos: nat, cp: nat, ghost outcome: Outcome) returns (next: nat)
      requires pos < |data| && Leads(State(), data[pos..], outcome) && 0 < cp == CopySize(State(), |data| - pos)
      modifies this
      ensures mError == old(mError) && next == pos + cp <= |data| && Leads(State(), data[next..], outcome)
    {
      LeadsOn(State(), data, pos, cp, outcome);
      next := pos + cp;
      CopyIn(data[pos..next]);
    }

    /** The copy loop of `Uwb_Hif_ReadDataCb`, up to the wake-up. */
    method CopyAll(data: seq<u8>) returns (stalled: bool, overrun: bool)
      requires Sized(State())
      modifies this
      ensures mError == old(mError) && Sized(State())
      ensures var r := Fill(old(State()), data, false);
        && State() == r.s
        && (stalled ==> r.Stalled?) && (overrun ==> r.Overrun?)
        && (!stalled && !overrun ==> r.Copied?)
    {
      stalled, overrun := false, false;
      ghost var outcome := Fill(State(), data, false);
      var pos := 0;
      assert data[pos..] == data;
      while pos < |data|
        invariant pos <= |data| && Leads(State(), data[pos..], outcome)
        invariant mError == old(mError)
        decreases |data| - pos
      {
        var cpSize, next := CopyTurn(data, pos, outcome);
        if cpSize == 0 {
          stalled := true;
          return;
        }
        if cpSize < 0 {
          overrun := true;
          return;
        }
        pos := next;
      }
      assert data[pos..] == [];
    }

    /** `Uwb_Hif_ReadDataCb`: copies `data` in and wakes the HIF task when the
        TLV is whole. Where the source would spin for ever or copy a wrapped
        size, the model returns at that point and says so. */
    method ReadDataCb(data: seq<u8>) returns (woken: bool, stalled: bool, overrun: bool)
      requires Sized(State())
      modifies this
      ensures Sized(State())
      ensures var r := Fill(old(State()), data, false);
        && (stalled <==> r.Stalled?) && (overrun <==> r.Overrun?)
        && (r.Copied? ==> (State(), woken) == AfterCall(r) && mError == (old(mError) && !woken))
        && (!r.Copied? ==> State() == r.s && !woken && mError == old(mError))
    {
      stalled, overrun := CopyAll(data);
      woken := false;
      if !stalled && !overrun && rcvSize == rcvSizeExp {
        rcvSize, rcvSizeExp := 0, 0;
        mError := false;
        woken := true;
      }
    }
  }
}
