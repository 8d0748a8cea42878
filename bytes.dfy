// Byte-level vocabulary shared by every module of the model: fixed-width
// unsigned integers, Option, and little-/big-endian field codecs.
module Bytes {

  type u8 = x: int | 0 <= x < 0x100
  type u16 = x: int | 0 <= x < 0x1_0000
  type u32 = x: int | 0 <= x < 0x1_0000_0000
  type u64 = x: int | 0 <= x < 0x1_0000_0000_0000_0000

  datatype Option<+T> = None | Some(value: T)

  /** Bit `i` of a 16-bit word, as `(x & (1 << i)) != 0` tests it. */
  predicate Bit16(x: bv16, i: nat)
    requires i < 16
  {
    x & (1 << i) != 0
  }

  /** Little-endian 16-bit value of two bytes. */
  function LE16(lo: u8, hi: u8): u16
  {
    lo + 0x100 * hi
  }

  /** Big-endian 16-bit value of two bytes. */
  function BE16(hi: u8, lo: u8): u16
  {
    0x100 * hi + lo
  }

  /** Little-endian 32-bit value of four bytes. */
  function LE32(b0: u8, b1: u8, b2: u8, b3: u8): u32
  {
    b0 + 0x100 * b1 + 0x1_0000 * b2 + 0x100_0000 * b3
  }

  /** Big-endian 32-bit value of four bytes. */
  function BE32(b0: u8, b1: u8, b2: u8, b3: u8): u32
  {
    0x100_0000 * b0 + 0x1_0000 * b1 + 0x100 * b2 + b3
  }

  function ToLE16(v: u16): (r: seq<u8>)
    ensures |r| == 2 && LE16(r[0], r[1]) == v
  {
    [v % 0x100, v / 0x100]
  }

  function ToBE16(v: u16): (r: seq<u8>)
    ensures |r| == 2 && BE16(r[0], r[1]) == v
  {
    [v / 0x100, v % 0x100]
  }

  function ToLE32(v: u32): (r: seq<u8>)
    ensures |r| == 4 && LE32(r[0], r[1], r[2], r[3]) == v
  {
    var v1 := v / 0x100;
    var v2 := v1 / 0x100;
    Split32(v);
    [v % 0x100, v1 % 0x100, v2 % 0x100, v2 / 0x100]
  }

  function ToBE32(v: u32): (r: seq<u8>)
    ensures |r| == 4 && BE32(r[0], r[1], r[2], r[3]) == v
  {
    var v1 := v / 0x100;
    var v2 := v1 / 0x100;
    Split32(v);
    [v2 / 0x100, v2 % 0x100, v1 % 0x100, v % 0x100]
  }

  /** Little-endian bytes of a 64-bit value: the low word, then the high
      word. */
  function ToLE64(v: u64): (r: seq<u8>)
    ensures |r| == 8 && r[..4] == ToLE32(v % 0x1_0000_0000) && r[4..] == ToLE32(v / 0x1_0000_0000)
  {
    ToLE32(v % 0x1_0000_0000) + ToLE32(v / 0x1_0000_0000)
  }

  /** A 32-bit value is the sum of its four bytes, each scaled by its place. */
  lemma Split32(v: u32)
    ensures v / 0x100 / 0x100 / 0x100 < 0x100
    ensures v == v % 0x100 + 0x100 * ((v / 0x100) % 0x100)
               + 0x1_0000 * ((v / 0x100 / 0x100) % 0x100) + 0x100_0000 * (v / 0x100 / 0x100 / 0x100)
  {
    var v1 := v / 0x100;
    var v2 := v1 / 0x100;
    assert v == 0x100 * v1 + v % 0x100;
    assert v1 == 0x100 * v2 + v1 % 0x100;
    assert v2 == 0x100 * (v2 / 0x100) + v2 % 0x100;
  }

  /** Unsigned 16-bit increment with the C wrap-around. */
  function Inc16(x: u16): (r: u16)
    ensures x < 0xFFFF ==> r == x + 1
    ensures x == 0xFFFF ==> r == 0
  {
    (x + 1) % 0x1_0000
  }

  /** Two's-complement reading of a 16-bit pattern, as an `(int16_t)` cast does. */
  function SignExtend16(v: u16): (r: int)
    ensures -0x8000 <= r < 0x8000
    ensures (r + 0x1_0000) % 0x1_0000 == v
  {
    if v < 0x8000 then v else v - 0x1_0000
  }

  /** The little-endian 16-bit value stored at `p[i..i+2]`; writing it back
      gives the same two bytes. */
  function U16At(p: seq<u8>, i: nat): (v: u16)
    requires i + 2 <= |p|
    ensures ToLE16(v) == p[i..i + 2]
  {
    LE16Bytes(p[i], p[i + 1]);
    LE16(p[i], p[i + 1])
  }

  /** The two bytes of a little-endian half-word come back out of it. */
  lemma LE16Bytes(lo: u8, hi: u8)
    ensures ToLE16(LE16(lo, hi)) == [lo, hi]
  {
    var v := LE16(lo, hi);
    assert v == lo + 0x100 * hi;
    assert v % 0x100 == lo && v / 0x100 == hi;
  }

  /** The little-endian 32-bit value stored at `p[i..i+4]`; writing it back
      gives the same four bytes. */
  function U32At(p: seq<u8>, i: nat): (v: u32)
    requires i + 4 <= |p|
    ensures ToLE32(v) == p[i..i + 4]
  {
    var v := LE32(p[i], p[i + 1], p[i + 2], p[i + 3]);
    LE32Bytes(p[i], p[i + 1], p[i + 2], p[i + 3]);
    v
  }

  /** The little-endian 64-bit value stored at `p[i..i+8]`: its low word is
      the first four bytes and its high word the next four. */
  function U64At(p: seq<u8>, i: nat): (v: u64)
    requires i + 8 <= |p|
    ensures v % 0x1_0000_0000 == U32At(p, i) && v / 0x1_0000_0000 == U32At(p, i + 4)
  {
    var lo := U32At(p, i);
    var hi := U32At(p, i + 4);
    SplitWord(lo, hi);
    lo + 0x1_0000_0000 * hi
  }

  /** A 64-bit value made of two words splits back into them. */
  lemma SplitWord(lo: u32, hi: u32)
    ensures var v := lo as int + 0x1_0000_0000 * hi as int;
            v < 0x1_0000_0000_0000_0000 && v % 0x1_0000_0000 == lo as int && v / 0x1_0000_0000 == hi as int
  {
  }

  /** The four bytes of a little-endian word come back out of it. */
  lemma LE32Bytes(b0: u8, b1: u8, b2: u8, b3: u8)
    ensures ToLE32(LE32(b0, b1, b2, b3)) == [b0, b1, b2, b3]
  {
    var hi2 := b2 + 0x100 * b3;
    var hi := b1 + 0x100 * hi2;
    var v := b0 + 0x100 * hi;
    assert LE32(b0, b1, b2, b3) == v;
    ByteSplit(b0, hi);
    ByteSplit(b1, hi2);
    ByteSplit(b2, b3);
  }

  /** A low byte and the rest above it split back apart. */
  lemma ByteSplit(lo: u8, rest: nat)
    ensures (lo + 0x100 * rest) % 0x100 == lo && (lo + 0x100 * rest) / 0x100 == rest
  {
  }

  /** `1 << n`. */
  function Pow2(n: nat): (r: nat)
    ensures r >= 1
  {
    if n == 0 then 1 else 2 * Pow2(n - 1)
  }

  /** `n` zero bytes, as `memset` leaves them. */
  function Zeros(n: nat): (r: seq<u8>)
    ensures |r| == n && forall i :: 0 <= i < n ==> r[i] == 0
  {
    seq(n, i => 0)
  }

  /** A slice inside the first part of a concatenation. */
  lemma PrefixSlice(x: seq<u8>, y: seq<u8>, i: nat, j: nat)
    requires i <= j <= |x|
    ensures (x + y)[i..j] == x[i..j]
  {
  }

  /** A slice of the middle part of a three-part concatenation. */
  lemma MidSlice(x: seq<u8>, y: seq<u8>, z: seq<u8>, i: nat, j: nat)
    requires i <= j <= |y|
    ensures (x + y + z)[|x| + i..|x| + j] == y[i..j]
  {
    var s := x + y + z;
    assert forall k | |x| + i <= k < |x| + j :: s[k] == y[k - |x|];
  }

  /** Where each part of a seven-part concatenation lies. */
  lemma Layout7(a: seq<u8>, b: seq<u8>, c: seq<u8>, d: seq<u8>, e: seq<u8>, f: seq<u8>, g: seq<u8>)
    ensures var p := a + b + c + d + e + f + g;
            var o1 := |a|; var o2 := o1 + |b|; var o3 := o2 + |c|; var o4 := o3 + |d|;
            var o5 := o4 + |e|; var o6 := o5 + |f|;
            p[..o1] == a && p[o1..o2] == b && p[o2..o3] == c && p[o3..o4] == d &&
            p[o4..o5] == e && p[o5..o6] == f && p[o6..] == g
  {
    var s2 := a + b;
    var s3 := s2 + c;
    var s4 := s3 + d;
    var s5 := s4 + e;
    var s6 := s5 + f;
    var p := s6 + g;
    assert p[..|s6|] == s6;
    assert p[..|s5|] == s5;
    assert p[..|s4|] == s4;
    assert p[..|s3|] == s3;
    assert p[..|s2|] == s2;
    assert p[|s5|..|s6|] == s6[|s5|..] == f;
    assert p[|s4|..|s5|] == s5[|s4|..] == e;
    assert p[|s3|..|s4|] == s4[|s3|..] == d;
    assert p[|s2|..|s3|] == s3[|s2|..] == c;
    assert p[|a|..|s2|] == s2[|a|..] == b;
  }

  /** A slice of a slice: if `s[i..j]` is `p`, then the part of `s` at
      `i + a .. i + b` is the part of `p` at `a .. b`. */
  lemma SliceOfSlice(s: seq<u8>, i: nat, j: nat, p: seq<u8>, a: nat, b: nat)
    requires i <= j <= |s| && s[i..j] == p && a <= b <= |p|
    ensures s[i + a..i + b] == p[a..b]
  {
    assert forall k | a <= k < b :: s[i + k] == p[k];
  }

  /** The first `n` bytes from `pos` on, and the bytes after them. */
  lemma SplitAt(d: seq<u8>, pos: nat, n: nat)
    requires pos + n <= |d|
    ensures d[pos..][..n] == d[pos..pos + n] && d[pos..][n..] == d[pos + n..]
  {
  }

  /** A little-endian word sits in a slice where it sat in the whole. */
  lemma U32AtSlice(s: seq<u8>, i: nat, j: nat, p: seq<u8>, a: nat)
    requires i <= j <= |s| && s[i..j] == p && a + 4 <= |p|
    ensures U32At(s, i + a) == U32At(p, a)
  {
    SliceOfSlice(s, i, j, p, a, a + 4);
    LE32Injective(U32At(s, i + a), U32At(p, a));
  }

  /** A little-endian half-word sits in a slice where it sat in the whole. */
  lemma U16AtSlice(s: seq<u8>, i: nat, j: nat, p: seq<u8>, a: nat)
    requires i <= j <= |s| && s[i..j] == p && a + 2 <= |p|
    ensures U16At(s, i + a) == U16At(p, a)
  {
    SliceOfSlice(s, i, j, p, a, a + 2);
    LE16Injective(U16At(s, i + a), U16At(p, a));
  }

  /** Writing a half-word is injective. */
  lemma LE16Injective(x: u16, y: u16)
    requires ToLE16(x) == ToLE16(y)
    ensures x == y
  {
    assert LE16(ToLE16(x)[0], ToLE16(x)[1]) == x;
  }

  /** Writing a word is injective. */
  lemma LE32Injective(x: u32, y: u32)
    requires ToLE32(x) == ToLE32(y)
    ensures x == y
  {
    var b := ToLE32(x);
    assert LE32(b[0], b[1], b[2], b[3]) == x;
  }

  /** A word written into a stream is read back from where it was written. */
  lemma ReadBackLE32(pre: seq<u8>, v: u32, post: seq<u8>)
    ensures U32At(pre + ToLE32(v) + post, |pre|) == v
  {
    var s := pre + ToLE32(v) + post;
    MidSlice(pre, ToLE32(v), post, 0, 4);
    LE32Injective(U32At(s, |pre|), v);
  }

  /** A half-word written into a stream is read back from where it was
      written. */
  lemma ReadBackLE16(pre: seq<u8>, v: u16, post: seq<u8>)
    ensures U16At(pre + ToLE16(v) + post, |pre|) == v
  {
    var s := pre + ToLE16(v) + post;
    MidSlice(pre, ToLE16(v), post, 0, 2);
    LE16Injective(U16At(s, |pre|), v);
  }

  /** `memcpy` of `src` over the start of `dst`: the first `|src|` bytes
      become `src` and the bytes beyond keep their contents. A copy longer
      than the destination is kept whole. */
  function Overlay(dst: seq<u8>, src: seq<u8>): (r: seq<u8>)
    ensures |src| <= |r| && r[..|src|] == src
    ensures |r| == if |src| <= |dst| then |dst| else |src|
    ensures forall i :: |src| <= i < |dst| ==> r[i] == dst[i]
  {
    if |src| <= |dst| then src + dst[|src|..] else src
  }

  /** `memcpy(data + at, chunk, |chunk|)`. */
  function Write(data: seq<u8>, at: nat, chunk: seq<u8>): (r: seq<u8>)
    requires at <= |data|
    ensures |r| == if at + |chunk| <= |data| then |data| else at + |chunk|
  {
    data[..at] + Overlay(data[at..], chunk)
  }

  /** What `Write` leaves where: the bytes before `at` as they were, the
      chunk, and the bytes after it as they were. */
  lemma WriteContents(data: seq<u8>, at: nat, chunk: seq<u8>)
    requires at <= |data|
    ensures var r := Write(data, at, chunk);
            r[..at] == data[..at] && r[at..at + |chunk|] == chunk
            && forall i :: at + |chunk| <= i < |data| ==> r[i] == data[i]
  {
    var tail := Overlay(data[at..], chunk);
    assert (data[..at] + tail)[at..at + |chunk|] == tail[..|chunk|];
  }

  /** Chunks received one after the other, joined. */
  function Concat(chunks: seq<seq<u8>>): seq<u8>
  {
    if chunks == [] then [] else chunks[0] + Concat(chunks[1..])
  }

  /** Non-empty chunks that concatenate to nothing are no chunks. */
  lemma EmptyConcat(chunks: seq<seq<u8>>)
    requires forall i :: 0 <= i < |chunks| ==> 0 < |chunks[i]|
    requires Concat(chunks) == []
    ensures chunks == []
  {
  }

  /** The next chunk of a frame is the frame's next bytes. */
  lemma NextChunk(n: nat, frame: seq<u8>, chunks: seq<seq<u8>>)
    requires n < |frame| && Concat(chunks) == frame[n..]
    ensures chunks != []
    ensures n + |chunks[0]| <= |frame| && frame[n..n + |chunks[0]|] == chunks[0]
    ensures frame[n + |chunks[0]|..] == Concat(chunks[1..])
  {
    assert frame[n..] == chunks[0] + Concat(chunks[1..]);
  }
}
