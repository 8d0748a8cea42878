// The log line formatters of the HAL: a string copied into the shared log
// buffer and padded to a column width, a byte array as grouped upper-case
// hex, and the console spinner. The buffer is `cLogBuffer`; a formatter is
// given a position in it and the number of bytes left (`buffersize`).
module UwbLogging {
  import opened Bytes

  const CLOG_BUFFER_SIZE: nat := 800

  /** `size_t` on the 32-bit targets: a subtraction below zero wraps. */
  const SIZE_T_MOD: nat := 0x1_0000_0000

  /** `x - y` on `size_t`. */
  function SizeSub(x: u32, y: nat): (r: u32)
    requires y <= SIZE_T_MOD
    ensures y <= x ==> r == x - y
  {
    if y <= x then x - y else SIZE_T_MOD + x - y
  }

  function Spaces(n: nat): (r: seq<char>)
    ensures |r| == n && forall k :: 0 <= k < n ==> r[k] == ' '
  {
    seq(n, _ => ' ')
  }

  function Min(a: nat, b: nat): nat
  {
    if a < b then a else b
  }

  /** The spaces `phUwb_LogPrint_FormatBuffer_String` wants after the
      message to fill `totalSize` columns. */
  function Alignment(message: seq<char>, totalSize: nat): nat
  {
    if |message| < totalSize then totalSize - |message| else 0
  }

  /** What `phUwb_LogPrint_FormatBuffer_String` writes: as much of the
      message as fits with one byte to spare while `buffersize` is at most
      the buffer size, then as many padding spaces as fit the same way while
      what is left is below the buffer size. Nothing is terminated. */
  function StringOut(message: seq<char>, buffersize: nat, totalSize: nat): seq<char>
  {
    var copied := if 1 < buffersize <= CLOG_BUFFER_SIZE then Min(|message|, buffersize - 1) else 0;
    var left := buffersize - copied;
    var padded := if 1 < left < CLOG_BUFFER_SIZE then Min(Alignment(message, totalSize), left - 1) else 0;
    message[..copied] + Spaces(padded)
  }

  /** What the string formatter writes is what its copy loop copies and
      its padding loop pads. */
  lemma StringOutParts(message: seq<char>, buffersize: nat, totalSize: nat, copied: nat, padded: nat)
    requires copied == if 1 < buffersize <= CLOG_BUFFER_SIZE then Min(|message|, buffersize - 1) else 0
    requires padded == if 1 < buffersize - copied < CLOG_BUFFER_SIZE then Min(Alignment(message, totalSize), buffersize - copied - 1) else 0
    ensures StringOut(message, buffersize, totalSize) == message[..copied] + Spaces(padded)
  {
  }

  /** The string formatter always leaves a byte for a terminator, and what it
      writes is the start of the message padded to its column. */
  lemma StringLeavesRoom(message: seq<char>, buffersize: nat, totalSize: nat)
    ensures var r := StringOut(message, buffersize, totalSize);
            (buffersize <= 1 || buffersize > CLOG_BUFFER_SIZE ==> r == []) &&
            (buffersize > 1 ==> |r| < buffersize) &&
            r <= message + Spaces(Alignment(message, totalSize))
  {
    var r := StringOut(message, buffersize, totalSize);
    var full := message + Spaces(Alignment(message, totalSize));
    var copied := if 1 < buffersize <= CLOG_BUFFER_SIZE then Min(|message|, buffersize - 1) else 0;
    if copied < |message| {
      assert r == message[..copied];
    }
    assert forall k :: 0 <= k < |r| ==> r[k] == full[k];
  }

  /** With room for the whole column, the message comes out left-aligned in a
      field as wide as `totalSize`, or as the message when it is longer. */
  lemma StringAligned(message: seq<char>, buffersize: nat, totalSize: nat)
    requires buffersize < CLOG_BUFFER_SIZE
    requires |message| + Alignment(message, totalSize) < buffersize
    ensures var r := StringOut(message, buffersize, totalSize);
            r == message + Spaces(Alignment(message, totalSize)) &&
            |r| == (if |message| < totalSize then totalSize else |message|)
  {
    assert message[..|message|] == message;
  }

  /** The formatter's digit table. */
  const HEX: seq<char> := "0123456789ABCDEF"

  /** Upper-case hex digit `n`, as the table holds it. */
  function Digit(n: nat): (c: char)
    requires n < 16
  {
    if n < 10 then ('0' as int + n) as char else ('A' as int + n - 10) as char
  }

  /** The digit is the table's entry. */
  lemma DigitIsTable(n: nat)
    requires n < 16
    ensures Digit(n) == HEX[n]
  {
  }

  /** The two hex characters of a byte: `hex[b >> 4]` and `hex[b & 0xF]`. */
  function Pair(b: u8): (r: seq<char>)
    ensures |r| == 2
  {
    [Digit(b / 16), Digit(b % 16)]
  }

  /** Whether byte `i` closes a group of four. */
  function GroupLen(i: nat): (r: nat)
    ensures r <= 1
  {
    if (i + 1) % 4 == 0 then 1 else 0
  }

  /** The space written after every fourth byte. */
  function GroupEnd(i: nat): (r: seq<char>)
    ensures |r| == GroupLen(i)
  {
    if (i + 1) % 4 == 0 then [' '] else []
  }

  /** What the hex loop writes for byte `i`. */
  function Chunk(b: u8, i: nat): (r: seq<char>)
    ensures |r| == 2 + GroupLen(i)
  {
    Pair(b) + GroupEnd(i)
  }

  /** The hex text of the first `i` bytes, grouped in fours. */
  function HexText(a: seq<u8>, i: nat): (r: seq<char>)
    requires i <= |a|
  {
    if i == 0 then [] else HexText(a, i - 1) + Chunk(a[i - 1], i - 1)
  }

  /** The loop test of `phUwb_LogPrint_FormatBuffer_Hex`: as written it asks
      only for two bytes; the corrected test asks for room for the pair, the
      group space if one follows, and the terminator. */
  predicate HexRoom(i: nat, buffersize: nat, checked: bool)
  {
    buffersize < CLOG_BUFFER_SIZE &&
    if checked then 3 + GroupLen(i) <= buffersize else buffersize > 1
  }

  /** What `buffersize` has become after `i` turns of the hex loop: two
      per byte and one more after a fourth byte, taken off even when the
      space is not there, wrapping below zero. */
  function SizeAt(buffersize: u32, i: nat): u32
  {
    if i == 0 then buffersize else SizeSub(SizeAt(buffersize, i - 1), 2 + GroupLen(i - 1))
  }

  /** Whether turn `i` of the hex loop runs: a byte is left and the loop
      test passes. */
  predicate Go(a: seq<u8>, buffersize: u32, checked: bool, i: nat)
  {
    i < |a| && HexRoom(i, SizeAt(buffersize, i), checked)
  }

  /** Whether the hex loop gets through its first `i` turns. */
  predicate Reached(a: seq<u8>, buffersize: u32, checked: bool, i: nat)
  {
    i == 0 || (Reached(a, buffersize, checked, i - 1) && Go(a, buffersize, checked, i - 1))
  }

  /** The number of turns the hex loop makes, counted on from turn `i`:
      it stops at the first turn whose test fails. */
  function Turns(a: seq<u8>, buffersize: u32, checked: bool, i: nat): (n: nat)
    requires i <= |a| && Reached(a, buffersize, checked, i)
    ensures i <= n <= |a| && Reached(a, buffersize, checked, n) && !Go(a, buffersize, checked, n)
    decreases |a| - i
  {
    if Go(a, buffersize, checked, i) then Turns(a, buffersize, checked, i + 1) else i
  }

  /** Everything `phUwb_LogPrint_FormatBuffer_Hex` writes, terminator
      included; its returned count is the length of this. */
  function HexOut(a: seq<u8>, buffersize: u32, checked: bool): seq<char>
  {
    HexText(a, Turns(a, buffersize, checked, 0)) + ['\0']
  }

  /** Every turn before the last runs. */
  lemma {:induction false} ReachedGoes(a: seq<u8>, buffersize: u32, checked: bool, k: nat, j: nat)
    requires j < k && Reached(a, buffersize, checked, k)
    ensures Go(a, buffersize, checked, j)
  {
    if j < k - 1 {
      ReachedGoes(a, buffersize, checked, k - 1, j);
    }
  }

  /** The loop stops at the first turn whose test fails, and nowhere
      earlier. */
  lemma StopsAtTurns(a: seq<u8>, buffersize: u32, checked: bool, i: nat)
    requires i <= Turns(a, buffersize, checked, 0) && !Go(a, buffersize, checked, i)
    ensures i == Turns(a, buffersize, checked, 0)
  {
    var n := Turns(a, buffersize, checked, 0);
    if i < n {
      ReachedGoes(a, buffersize, checked, n, i);
    }
  }

  /** The text of fewer bytes is never longer. */
  lemma {:induction false} HexTextGrows(a: seq<u8>, i: nat, n: nat)
    requires i <= n <= |a|
    ensures |HexText(a, i)| <= |HexText(a, n)|
    decreases n
  {
    if i < n {
      HexTextGrows(a, i, n - 1);
    }
  }

  /** With room for three characters per byte still to come and the
      terminator, every remaining turn runs. */
  lemma {:induction false} AllTurns(a: seq<u8>, buffersize: u32, checked: bool, i: nat)
    requires i <= |a| && Reached(a, buffersize, checked, i)
    requires 3 * (|a| - i) + 1 <= SizeAt(buffersize, i) < CLOG_BUFFER_SIZE
    ensures Turns(a, buffersize, checked, i) == |a|
    decreases |a| - i
  {
    if i < |a| {
      assert Go(a, buffersize, checked, i);
      AllTurns(a, buffersize, checked, i + 1);
    }
  }

  /** With room for three characters per byte and the terminator, the
      formatter writes the whole text, checked or not. */
  lemma HexWhole(a: seq<u8>, buffersize: u32, checked: bool)
    requires 3 * |a| + 1 <= buffersize < CLOG_BUFFER_SIZE
    ensures HexOut(a, buffersize, checked) == HexText(a, |a|) + ['\0']
  {
    AllTurns(a, buffersize, checked, 0);
  }

  function HexValue(c: char): int
  {
    if '0' <= c <= '9' then c as int - '0' as int else c as int - 'A' as int + 10
  }

  lemma HexDigits(n: nat)
    requires n < 16
    ensures HexValue(Digit(n)) == n
  {
  }

  /** Reads grouped hex text back: two digits per byte, skipping the space
      after every fourth. */
  function Unhex(s: seq<char>, i: nat): seq<int>
    decreases |s|
  {
    if |s| < 2 then []
    else
      var skip := if (i + 1) % 4 == 0 && |s| > 2 then 3 else 2;
      [HexValue(s[0]) * 16 + HexValue(s[1])] + Unhex(s[skip..], i + 1)
  }

  /** Reading a byte's chunk gives the byte back and moves on. */
  lemma UnhexChunk(b: u8, i: nat, rest: seq<char>)
    ensures Unhex(Chunk(b, i) + rest, i) == [b as int] + Unhex(rest, i + 1)
  {
    var s := Chunk(b, i) + rest;
    HexDigits(b / 16);
    HexDigits(b % 16);
    assert s[2 + GroupLen(i)..] == rest;
  }

  /** The hex text of bytes `i` on, grouped in fours. */
  function HexTextFrom(a: seq<u8>, i: nat): (r: seq<char>)
    decreases |a| - i
  {
    if i >= |a| then [] else Chunk(a[i], i) + HexTextFrom(a, i + 1)
  }

  /** The text of the first `i` bytes followed by the text of the rest is
      the text of them all. */
  lemma {:induction false} HexTextSplit(a: seq<u8>, i: nat)
    requires i <= |a|
    ensures HexText(a, i) + HexTextFrom(a, i) == HexTextFrom(a, 0)
  {
    if i > 0 {
      HexTextSplit(a, i - 1);
      var c := Chunk(a[i - 1], i - 1);
      assert HexTextFrom(a, i - 1) == c + HexTextFrom(a, i);
      assert HexText(a, i - 1) + (c + HexTextFrom(a, i)) == (HexText(a, i - 1) + c) + HexTextFrom(a, i);
    }
  }

  lemma {:induction false} UnhexFrom(a: seq<u8>, i: nat)
    requires i <= |a|
    ensures Unhex(HexTextFrom(a, i), i) == a[i..]
    decreases |a| - i
  {
    if i < |a| {
      UnhexFrom(a, i + 1);
      UnhexChunk(a[i], i, HexTextFrom(a, i + 1));
      assert a[i..] == [a[i]] + a[i + 1..];
    }
  }

  /** The hex text carries the bytes: reading it back gives them again. */
  lemma HexTextRoundTrip(a: seq<u8>)
    ensures Unhex(HexText(a, |a|), 0) == a
  {
    var text := HexText(a, |a|);
    HexTextSplit(a, |a|);
    assert text + [] == text;
    UnhexFrom(a, 0);
    assert a[0..] == a;
  }

  /** The hex text is two characters per byte and a space per group of
      four. */
  lemma {:induction false} HexTextLength(a: seq<u8>, i: nat)
    requires i <= |a|
    ensures |HexText(a, i)| == 2 * i + i / 4
  {
    if i > 0 {
      HexTextLength(a, i - 1);
      assert (i - 1) / 4 + GroupLen(i - 1) == i / 4;
    }
  }

  /** As written: with two bytes left the formatter still writes a pair, and
      the terminator lands one byte past the room it was given. */
  lemma HexOverruns()
    ensures HexOut([0xAB], 2, false) == ['A', 'B', '\0']
    ensures |HexOut([0xAB], 2, false)| > 2
  {
    assert Go([0xAB], 2, false, 0);
    assert Turns([0xAB], 2, false, 0) == 1;
  }

  /** With the corrected test, what the loop has written and what is left
      of `buffersize` add up to what it was given, and at least one byte
      is left. */
  lemma {:induction false} CheckedRoom(a: seq<u8>, buffersize: u32, i: nat)
    requires buffersize >= 1 && i <= |a| && Reached(a, buffersize, true, i)
    ensures |HexText(a, i)| + SizeAt(buffersize, i) == buffersize && SizeAt(buffersize, i) >= 1
  {
    if i > 0 {
      CheckedRoom(a, buffersize, i - 1);
    }
  }

  /** Corrected: the formatter never writes more than the bytes it was
      given, terminator included. */
  lemma CheckedHexFits(a: seq<u8>, buffersize: u32)
    requires buffersize >= 1
    ensures |HexOut(a, buffersize, true)| <= buffersize
  {
    CheckedRoom(a, buffersize, Turns(a, buffersize, true, 0));
  }

  /** `cLogBuffer`, written by the formatters. */
  class LogBuffer {
    const buf: array<char>

    constructor()
      ensures buf.Length == CLOG_BUFFER_SIZE && fresh(buf)
    {
      buf := new char[CLOG_BUFFER_SIZE](_ => '\0');
    }

    /** The copy loop of `phUwb_LogPrint_FormatBuffer_String`. */
    method CopyChars(at: nat, buffersize: nat, message: seq<char>) returns (n: nat)
      requires at + buffersize <= buf.Length
      modifies buf
      ensures n == if 1 < buffersize <= CLOG_BUFFER_SIZE then Min(|message|, buffersize - 1) else 0
      ensures buf[at..at + n] == message[..n]
      ensures buf[..at] == old(buf[..at]) && buf[at + n..] == old(buf[at + n..])
    {
      var size: nat := buffersize;
      n := 0;
      while n < |message| && size > 1 && size <= CLOG_BUFFER_SIZE
        invariant n <= |message| && size + n == buffersize
        invariant n > 0 ==> 1 < buffersize <= CLOG_BUFFER_SIZE && size >= 1
        invariant buf[at..at + n] == message[..n]
        invariant buf[..at] == old(buf[..at]) && buf[at + n..] == old(buf[at + n..])
      {
        buf[at + n] := message[n];
        size := size - 1;
        n := n + 1;
      }
    }

    /** The padding loop of `phUwb_LogPrint_FormatBuffer_String`. */
    method PadChars(at: nat, buffersize: nat, alignmentSize: nat) returns (n: nat)
      requires at + buffersize <= buf.Length
      modifies buf
      ensures n == if 1 < buffersize < CLOG_BUFFER_SIZE then Min(alignmentSize, buffersize - 1) else 0
      ensures buf[at..at + n] == Spaces(n)
      ensures buf[..at] == old(buf[..at]) && buf[at + n..] == old(buf[at + n..])
    {
      var size: nat := buffersize;
      n := 0;
      while n < alignmentSize && size > 1 && size < CLOG_BUFFER_SIZE
        invariant n <= alignmentSize && size + n == buffersize
        invariant n > 0 ==> 1 < buffersize < CLOG_BUFFER_SIZE && size >= 1
        invariant buf[at..at + n] == Spaces(n)
        invariant buf[..at] == old(buf[..at]) && buf[at + n..] == old(buf[at + n..])
      {
        buf[at + n] := ' ';
        size := size - 1;
        n := n + 1;
      }
    }

    /** `phUwb_LogPrint_FormatBuffer_String` at `at` with `buffersize` bytes
        left there: the count is the number of characters written. */
    method FormatString(at: nat, buffersize: nat, message: seq<char>, totalSize: nat) returns (totalCount: nat)
      requires at + buffersize <= buf.Length
      modifies buf
      ensures totalCount == |StringOut(message, buffersize, totalSize)|
      ensures buf[at..at + totalCount] == StringOut(message, buffersize, totalSize)
      ensures buf[..at] == old(buf[..at]) && buf[at + totalCount..] == old(buf[at + totalCount..])
    {
      var copied := CopyChars(at, buffersize, message);
      ghost var mid := buf[..];
      var padded := PadChars(at + copied, buffersize - copied, Alignment(message, totalSize));
      totalCount := copied + padded;
      StringOutParts(message, buffersize, totalSize, copied, padded);
      assert buf[at..at + copied] == mid[at..at + copied] == message[..copied];
      assert buf[at..at + totalCount] == buf[at..at + copied] + buf[at + copied..at + totalCount];
      assert buf[at + totalCount..] == mid[at + totalCount..] == old(buf[at + totalCount..]);
    }

    /** The loop of `phUwb_LogPrint_FormatBuffer_Hex`: the characters it
        writes before the terminator, turn by turn, with the count and the
        room left as the source keeps them. */
    static method HexLoop(buffersize: u32, a: seq<u8>, checked: bool) returns (text: seq<char>, totalCount: nat)
      ensures text == HexText(a, Turns(a, buffersize, checked, 0)) && totalCount == |text|
    {
      ghost var n := Turns(a, buffersize, checked, 0);
      var size: u32 := buffersize;
      text, totalCount := [], 0;
      var i := 0;
      while i < |a| && HexRoom(i, size, checked)
        invariant i <= n && size == SizeAt(buffersize, i)
        invariant text == HexText(a, i) && totalCount == |text|
        decreases |a| - i
      {
        text := text + Chunk(a[i], i);
        size := SizeSub(size, 2 + GroupLen(i));
        totalCount := totalCount + 2 + GroupLen(i);
        i := i + 1;
      }
      StopsAtTurns(a, buffersize, checked, i);
    }

    /** `phUwb_LogPrint_FormatBuffer_Hex` at `at` with `buffersize` bytes
        left there; `checked` selects the corrected loop test. What it
        writes is the text and a terminator, and the count includes the
        terminator. */
    method FormatHex(at: nat, buffersize: u32, a: seq<u8>, checked: bool) returns (totalCount: nat)
      requires at + |HexOut(a, buffersize, checked)| <= buf.Length
      modifies buf
      ensures totalCount == |HexOut(a, buffersize, checked)|
      ensures buf[at..at + totalCount] == HexOut(a, buffersize, checked)
      ensures buf[..at] == old(buf[..at]) && buf[at + totalCount..] == old(buf[at + totalCount..])
    {
      var text;
      text, totalCount := HexLoop(buffersize, a, checked);
      Store(at, text + ['\0']);
      totalCount := totalCount + 1;
    }

    /** The characters `w` written through the pointer from `at` on. */
    method Store(at: nat, w: seq<char>)
      requires at + |w| <= buf.Length
      modifies buf
      ensures buf[at..at + |w|] == w
      ensures buf[..at] == old(buf[..at]) && buf[at + |w|..] == old(buf[at + |w|..])
    {
      forall k | 0 <= k < |w| {
        buf[at + k] := w[k];
      }
    }
  }

  const SPIN_PATTERN: seq<char> := ['[', '|', ']', '#', '[', '|', ']', '(', '+', ')']

  /** `spin_index` after a spin: one on, back to 0 past the pattern. */
  function SpinNext(i: nat): (r: nat)
  {
    if i + 1 >= |SPIN_PATTERN| then 0 else i + 1
  }

  /** What `n` spins from index `i` print. */
  function Spins(i: nat, n: nat): (r: seq<char>)
    requires i < |SPIN_PATTERN|
    ensures |r| == 2 * n
    decreases n
  {
    if n == 0 then [] else [SPIN_PATTERN[i], '\r'] + Spins(SpinNext(i), n - 1)
  }

  /** The index after `n` spins from `i`. */
  function SpinAfter(i: nat, n: nat): (r: nat)
    requires i < |SPIN_PATTERN|
    ensures r < |SPIN_PATTERN|
    decreases n
  {
    if n == 0 then i else SpinAfter(SpinNext(i), n - 1)
  }

  /** The index moves round the pattern. */
  lemma SpinNextWraps(i: nat)
    requires i < |SPIN_PATTERN|
    ensures SpinNext(i) == (i + 1) % |SPIN_PATTERN|
  {
  }

  /** After `n` spins the index has gone `n` places round the pattern. */
  lemma {:induction false} SpinAfterWraps(i: nat, n: nat)
    requires i < |SPIN_PATTERN|
    ensures SpinAfter(i, n) == (i + n) % |SPIN_PATTERN|
    decreases n
  {
    if n > 0 {
      SpinNextWraps(i);
      SpinAfterWraps(SpinNext(i), n - 1);
      assert ((i + 1) % 10 + (n - 1)) % 10 == (i + n) % 10;
    }
  }

  /** `k + m` spins print what the first `k` print and then what `m`
      more print from where those left the index; so `n` calls of the
      spinner print `Spins(0, n)`. */
  lemma {:induction false} SpinsSplit(i: nat, k: nat, m: nat)
    requires i < |SPIN_PATTERN|
    ensures Spins(i, k + m) == Spins(i, k) + Spins(SpinAfter(i, k), m)
    decreases k
  {
    if k > 0 {
      SpinsSplit(SpinNext(i), k - 1, m);
      var head: seq<char> := [SPIN_PATTERN[i], '\r'];
      assert head + (Spins(SpinNext(i), k - 1) + Spins(SpinAfter(i, k), m)) ==
             (head + Spins(SpinNext(i), k - 1)) + Spins(SpinAfter(i, k), m);
    }
  }

  /** Spin `k` of `n` shows the pattern character at the index `k` spins
      on, followed by a carriage return. */
  lemma SpinsShow(i: nat, n: nat, k: nat)
    requires i < |SPIN_PATTERN| && k < n
    ensures Spins(i, n)[2 * k] == SPIN_PATTERN[SpinAfter(i, k)]
    ensures Spins(i, n)[2 * k + 1] == '\r'
  {
    SpinsSplit(i, k, n - k);
    var rest := Spins(SpinAfter(i, k), n - k);
    assert rest[..2] == [SPIN_PATTERN[SpinAfter(i, k)], '\r'];
  }

  /** After a full turn of ten spins the index is back where it started. */
  lemma FullTurn(i: nat)
    requires i < |SPIN_PATTERN|
    ensures SpinAfter(i, |SPIN_PATTERN|) == i
  {
    SpinAfterWraps(i, |SPIN_PATTERN|);
  }

  /** `phUwb_LogPrint_Spinner`'s static index and what it has printed. */
  class Spinner {
    var spinIndex: nat
    var printed: seq<char>

    constructor()
      ensures spinIndex == 0 && printed == []
    {
      spinIndex, printed := 0, [];
    }

    /** `phUwb_LogPrint_Spinner`: prints the pattern character at the index
        and a carriage return, and moves the index on. */
    method Spin()
      requires spinIndex < |SPIN_PATTERN|
      modifies this
      ensures spinIndex == SpinNext(old(spinIndex)) < |SPIN_PATTERN|
      ensures printed == old(printed) + Spins(old(spinIndex), 1)
    {
      printed := printed + [SPIN_PATTERN[spinIndex], '\r'];
      spinIndex := spinIndex + 1;
      if spinIndex >= |SPIN_PATTERN| {
        spinIndex := 0;
      }
    }
  }
}
