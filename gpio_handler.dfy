// The tracker's UI commands: set, read and flash the board's GPIO pins
// selected by a 32-bit mask, answering in the response being built.
module GpioHandler {
  import opened Bytes
  import opened TlvBuilder

  /** The pins the handler reaches: bits 0 to 21 of a mask. */
  const PIN_COUNT: nat := 22

  const SET_GPIO_STATE: u8 := 0x01
  const GET_GPIO_STATE: u8 := 0x04
  const SET_GPIO_PERIOD: u8 := 0x07

  /** The handler's pins fit in the low 22 bits. */
  lemma {:induction false} Pow2Bound(n: nat)
    requires n <= PIN_COUNT
    ensures Pow2(n) <= Pow2(PIN_COUNT) == 0x40_0000
    decreases PIN_COUNT - n
  {
    if n < PIN_COUNT {
      Pow2Bound(n + 1);
    } else {
      assert Pow2(1) == 2;
      assert Pow2(2) == 4;
      assert Pow2(3) == 8;
      assert Pow2(4) == 16;
      assert Pow2(5) == 32;
      assert Pow2(6) == 64;
      assert Pow2(7) == 128;
      assert Pow2(8) == 256;
      assert Pow2(9) == 512;
      assert Pow2(10) == 1024;
      assert Pow2(11) == 2048;
      assert Pow2(12) == 4096;
      assert Pow2(13) == 8192;
      assert Pow2(14) == 16384;
      assert Pow2(15) == 32768;
      assert Pow2(16) == 65536;
      assert Pow2(17) == 131072;
      assert Pow2(18) == 262144;
      assert Pow2(19) == 524288;
      assert Pow2(20) == 1048576;
      assert Pow2(21) == 2097152;
      assert Pow2(22) == 4194304;
    }
  }

  /** Whether bit `pin` of a mask is set, as `(1 << pin) & mask` tests it. */
  predicate Bit(mask: u32, pin: nat)
  {
    (mask / Pow2(pin)) % 2 == 1
  }

  /** The pin levels after `setGPIOState` has gone over the first `n` pins:
      a selected pin takes its bit of the values, the others keep theirs. */
  function SetPins(level: seq<bool>, mask: u32, values: u32, n: nat): (r: seq<bool>)
    requires |level| == PIN_COUNT && n <= PIN_COUNT
    ensures |r| == PIN_COUNT
  {
    seq(PIN_COUNT, i requires 0 <= i < PIN_COUNT => if i < n && Bit(mask, i) then Bit(values, i) else level[i])
  }

  /** The flashing periods after `setGPIOPeriod` has gone over the first `n`
      pins. */
  function FlashPins(flash: seq<Option<u32>>, mask: u32, period: u32, n: nat): (r: seq<Option<u32>>)
    requires |flash| == PIN_COUNT && n <= PIN_COUNT
    ensures |r| == PIN_COUNT
  {
    seq(PIN_COUNT, i requires 0 <= i < PIN_COUNT => if i < n && Bit(mask, i) then Some(period) else flash[i])
  }

  /** The mask `getGPIOState` has built after the first `n` pins: each
      selected high pin sets its own bit, `1 << pin`. The bits are distinct,
      so the OR that collects them is their sum. */
  function ReadPins(level: seq<bool>, mask: u32, n: nat): (r: u32)
    requires |level| == PIN_COUNT && n <= PIN_COUNT
    ensures r < Pow2(n) && r < 0x40_0000
  {
    Pow2Bound(n);
    if n == 0 then 0
    else ReadPins(level, mask, n - 1) + (if Bit(mask, n - 1) && level[n - 1] then Pow2(n - 1) else 0)
  }

  /** The pins selected by both of two masks, collected the same way: the
      first `n` bits of `mask & values`. */
  function CommonBits(mask: u32, values: u32, n: nat): (r: u32)
    requires n <= PIN_COUNT
    ensures r < Pow2(n) && r < 0x40_0000
  {
    Pow2Bound(n);
    if n == 0 then 0
    else CommonBits(mask, values, n - 1) + (if Bit(mask, n - 1) && Bit(values, n - 1) then Pow2(n - 1) else 0)
  }

  /** Reading back the pins just set gives, for the pins of the mask, the
      bits written, and nothing for the others. */
  lemma {:induction false} SetThenRead(level: seq<bool>, mask: u32, values: u32, n: nat)
    requires |level| == PIN_COUNT && n <= PIN_COUNT
    ensures ReadPins(SetPins(level, mask, values, PIN_COUNT), mask, n) == CommonBits(mask, values, n)
  {
    if n > 0 {
      SetThenRead(level, mask, values, n - 1);
    }
  }

  /** Pins the mask leaves out do not show in what is read back. */
  lemma {:induction false} ReadPinsOfEmptyMask(level: seq<bool>, n: nat)
    requires |level| == PIN_COUNT && n <= PIN_COUNT
    ensures ReadPins(level, 0, n) == 0
  {
    if n > 0 {
      ReadPinsOfEmptyMask(level, n - 1);
      assert 0 / Pow2(n - 1) == 0;
    }
  }

  /** The 32-bit big-endian word at `v[i..i+4]`, as the handlers assemble it. */
  function WordAt(v: seq<u8>, i: nat): u32
    requires i + 4 <= |v|
  {
    BE32(v[i], v[i + 1], v[i + 2], v[i + 3])
  }

  /** The requests `handleUiCmd` accepts: a known subtype with the value
      length it demands. */
  predicate UiRequestOk(subtype: u8, size: nat)
  {
    (subtype == SET_GPIO_STATE && size == 9)
    || (subtype == GET_GPIO_STATE && size == 5)
    || (subtype == SET_GPIO_PERIOD && size == 9)
  }

  /** The board's pins as the GPIO driver holds them: each pin's level and
      the period it flashes with, if any. */
  class GpioBank {
    var level: seq<bool>
    var flash: seq<Option<u32>>

    ghost predicate Valid()
      reads this
    {
      |level| == PIN_COUNT && |flash| == PIN_COUNT
    }

    constructor (level0: seq<bool>)
      requires |level0| == PIN_COUNT
      ensures Valid() && level == level0 && flash == seq(PIN_COUNT, _ => None)
    {
      level := level0;
      flash := seq(PIN_COUNT, _ => None);
    }

    /** `setGPIOState`. */
    method SetGpioState(mask: u32, values: u32) returns (ok: bool)
      requires Valid()
      modifies this
      ensures Valid() && ok && flash == old(flash)
      ensures level == SetPins(old(level), mask, values, PIN_COUNT)
    {
      for maskIndex := 0 to PIN_COUNT
        invariant Valid() && flash == old(flash)
        invariant level == SetPins(old(level), mask, values, maskIndex)
      {
        if Bit(mask, maskIndex) {
          level := level[maskIndex := Bit(values, maskIndex)];
        }
      }
      ok := true;
    }

    /** `getGPIOState`. */
    method GetGpioState(mask: u32) returns (ok: bool, responseMask: u32)
      requires Valid()
      ensures ok && responseMask == ReadPins(level, mask, PIN_COUNT) < 0x40_0000
    {
      responseMask := 0;
      for maskIndex := 0 to PIN_COUNT
        invariant responseMask == ReadPins(level, mask, maskIndex)
      {
        Pow2Bound(maskIndex + 1);
        if Bit(mask, maskIndex) {
          var readMask := if level[maskIndex] then Pow2(maskIndex) else 0;
          responseMask := responseMask + readMask;
        }
      }
      ok := true;
    }

    /** `setGPIOPeriod`. */
    method SetGpioPeriod(mask: u32, period: u32) returns (ok: bool)
      requires Valid()
      modifies this
      ensures Valid() && ok && level == old(level)
      ensures flash == FlashPins(old(flash), mask, period, PIN_COUNT)
    {
      for maskIndex := 0 to PIN_COUNT
        invariant Valid() && level == old(level)
        invariant flash == FlashPins(old(flash), mask, period, maskIndex)
      {
        if Bit(mask, maskIndex) {
          flash := flash[maskIndex := Some(period)];
        }
      }
      ok := true;
    }

    /** `handleUiCmd`: the request's value is the subtype and its
        arguments; `stale` is the byte read as the subtype of an empty
        value. A state read answers with a status byte and the read mask;
        any other request with its status byte alone (1 for success). */
    method HandleUiCmd(b: Builder, value: seq<u8>, stale: u8) returns (error: bool)
      requires Valid() && b.Valid()
      modifies this, b, b.mTlv
      ensures Valid() && b.Valid() && b.mTlv[0] == old(b.mTlv[0])
      ensures var subtype := if |value| > 0 then value[0] else stale;
        && (error <==> !UiRequestOk(subtype, |value|))
        && level == (if subtype == SET_GPIO_STATE && |value| == 9 then SetPins(old(level), WordAt(value, 1), WordAt(value, 5), PIN_COUNT) else old(level))
        && flash == (if subtype == SET_GPIO_PERIOD && |value| == 9 then FlashPins(old(flash), WordAt(value, 1), WordAt(value, 5), PIN_COUNT) else old(flash))
        && b.Value() == (if subtype == GET_GPIO_STATE && |value| == 5
                         then AddAll(old(b.Value()), [[1], ToBE32(ReadPins(level, WordAt(value, 1), PIN_COUNT))])
                         else AddAll(old(b.Value()), [[if error then 0 else 1]]))
    {
      var subtype := if |value| > 0 then value[0] else stale;
      var justRspStatus := true;
      var respStatus := true;
      if subtype == SET_GPIO_STATE {
        if |value| == 9 {
          respStatus := SetGpioState(WordAt(value, 1), WordAt(value, 5));
        } else {
          respStatus := false;
        }
      } else if subtype == GET_GPIO_STATE {
        if |value| == 5 {
          var rspMask;
          respStatus, rspMask := GetGpioState(WordAt(value, 1));
          var _ := b.TlvAddU8(1);
          var _ := b.TlvAddU32(rspMask);
          AddTwo(old(b.Value()), [1], ToBE32(rspMask));
          justRspStatus := false;
        } else {
          respStatus := false;
        }
      } else if subtype == SET_GPIO_PERIOD {
        if |value| == 9 {
          respStatus := SetGpioPeriod(WordAt(value, 1), WordAt(value, 5));
        } else {
          respStatus := false;
        }
      } else {
        respStatus := false;
      }
      if justRspStatus {
        var _ := b.TlvAddU8(if respStatus then 1 else 0);
        AddOne(old(b.Value()), [if respStatus then 1 else 0]);
      }
      error := !respStatus;
    }
  }

  /** A state read answered in a fresh response carries status 1 and, big
      endian, each selected pin's level at its bit; every other answer is
      the one status byte, 0 exactly for a rejected request. */
  lemma UiResponseLayout(level: seq<bool>, value: seq<u8>, subtype: u8, error: bool)
    requires |level| == PIN_COUNT
    ensures subtype == GET_GPIO_STATE && |value| == 5 ==>
      var rsp := AddAll([], [[1], ToBE32(ReadPins(level, WordAt(value, 1), PIN_COUNT))]);
      |rsp| == 5 && rsp[0] == 1 && BE32(rsp[1], rsp[2], rsp[3], rsp[4]) == ReadPins(level, WordAt(value, 1), PIN_COUNT)
    ensures AddAll([], [[if error then 0 else 1]]) == [if error then 0 else 1]
  {
    if subtype == GET_GPIO_STATE && |value| == 5 {
      var w := ToBE32(ReadPins(level, WordAt(value, 1), PIN_COUNT));
      AddTwo([], [1], w);
    }
    AddOne([], [if error then 0 else 1]);
  }
}
