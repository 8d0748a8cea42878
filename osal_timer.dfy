// The OSAL timer slot table of the FreeRTOS HAL: three slots, each naming
// one RTOS software timer by a timer id of slot index + 101. The RTOS calls
// (create, change period, start, stop, delete) are abstracted: each
// operation is told whether its RTOS call succeeded.
module OsalTimer {
  import opened Bytes
  import opened UwbStatus

  const PH_UWB_MAX_TIMER: nat := 3
  const PH_UWB_TIMER_BASE_ADDRESS: nat := 100
  const PH_OSALUWB_TIMER_ID_INVALID: u32 := 0xFFFF
  const CID_UWB_OSAL: u16 := 0x00
  const UWBSTATUS_INVALID_PARAMETER: u16 := 0x0001
  const PH_OSALUWB_TIMER_START_ERROR: u16 := 0x00E1
  const PH_OSALUWB_TIMER_STOP_ERROR: u16 := 0x00E2
  const PH_OSALUWB_TIMER_DELETE_ERROR: u16 := 0x00E3

  /** `phOsalUwb_TimerStates_t`. */
  datatype TimerState = Idle | Running | Stopped

  function StateCode(st: TimerState): (r: u8)
    ensures r < 3
  {
    match st
    case Idle => 0
    case Running => 1
    case Stopped => 2
  }

  /** `phOsalUwb_TimerHandle_t`: a zero timer id marks a free slot. The
      callback and context are opaque tokens, 0 standing for NULL. */
  datatype Slot = Slot(timerId: u32, hasHandle: bool, callback: nat, context: nat, state: TimerState)
  {
    predicate Used() { timerId != 0 }
  }

  /** A slot cleared with `phOsalUwb_SetMemory(.., 0, ..)`. */
  const Cleared := Slot(0, false, 0, 0, Idle)

  /** The id handed out for slot `k`. */
  function IdOf(k: nat): nat
  {
    k + PH_UWB_TIMER_BASE_ADDRESS + 1
  }

  /** `dwTimerId - PH_UWB_TIMER_BASE_ADDRESS - 0x01` on 32-bit unsigned
      integers: ids below 101 wrap around to huge indices. */
  function IndexOf(id: u32): (r: u32)
  {
    (id - PH_UWB_TIMER_BASE_ADDRESS - 1) % 0x1_0000_0000
  }

  /** Exactly the ids 101..103 name a slot, and they name slots 0..2. */
  lemma IdIndexRoundTrip(id: u32, k: nat)
    ensures IndexOf(id) < PH_UWB_MAX_TIMER <==> IdOf(0) <= id <= IdOf(PH_UWB_MAX_TIMER - 1)
    ensures k < PH_UWB_MAX_TIMER ==> IndexOf(IdOf(k) as u32) as nat == k
    ensures IndexOf(id) < PH_UWB_MAX_TIMER ==> IdOf(IndexOf(id) as nat) == id
  {
  }

  /** The table invariant: three slots, and a used slot holds the id of its
      own index and an RTOS handle. */
  predicate Table(t: seq<Slot>)
  {
    |t| == PH_UWB_MAX_TIMER &&
    forall k :: 0 <= k < |t| && t[k].Used() ==> t[k].timerId == IdOf(k) && t[k].hasHandle
  }

  /** The slot `id` names when it names a used one. */
  predicate Names(t: seq<Slot>, id: u32)
    requires |t| == PH_UWB_MAX_TIMER
  {
    IndexOf(id) < PH_UWB_MAX_TIMER && t[IndexOf(id)].Used()
  }

  /** `phUtilUwb_CheckForAvailableTimer` from slot `i` on: 1 + the index of
      the first free slot, or 0 when every slot is used. */
  function FirstFree(t: seq<Slot>, i: nat): (r: nat)
    requires i <= |t|
    ensures r == 0 <==> forall k :: i <= k < |t| ==> t[k].Used()
    ensures r != 0 ==> i < r <= |t| && !t[r - 1].Used() && forall k :: i <= k < r - 1 ==> t[k].Used()
    decreases |t| - i
  {
    if i == |t| then 0
    else if !t[i].Used() then i + 1
    else FirstFree(t, i + 1)
  }

  /** What an operation answered and the table after it. */
  datatype Answer = Answer(t: seq<Slot>, r: u32)

  /** `phOsalUwb_Timer_Create`: the first free slot receives the RTOS handle;
      when the RTOS created the timer the slot becomes Idle with its id,
      otherwise the slot keeps no handle and stays free. */
  function CreateStep(t: seq<Slot>, created: bool): Answer
    requires |t| == PH_UWB_MAX_TIMER
  {
    var free := FirstFree(t, 0);
    if free == 0 then Answer(t, PH_OSALUWB_TIMER_ID_INVALID)
    else if created then
      Answer(t[free - 1 := t[free - 1].(hasHandle := true, state := Idle, timerId := IdOf(free - 1))], IdOf(free - 1))
    else Answer(t[free - 1 := t[free - 1].(hasHandle := false)], PH_OSALUWB_TIMER_ID_INVALID)
  }

  /** What the status of an operation and the table after it. */
  datatype Outcome = Outcome(t: seq<Slot>, status: u16)

  /** `phOsalUwb_Timer_Start`: an id naming no used slot or a NULL callback
      is an invalid parameter; a refused period change is a start error and
      changes nothing; otherwise the slot is Running with the callback and
      context, and a refused RTOS start is reported but leaves it so. */
  function StartStep(t: seq<Slot>, id: u32, callback: nat, context: nat, periodOk: bool, startOk: bool): Outcome
    requires |t| == PH_UWB_MAX_TIMER
  {
    var i := IndexOf(id);
    if !(i < PH_UWB_MAX_TIMER && t[i].Used() && callback != 0 && t[i].hasHandle) then
      Outcome(t, StVal(CID_UWB_OSAL, UWBSTATUS_INVALID_PARAMETER))
    else if !periodOk then Outcome(t, StVal(CID_UWB_OSAL, PH_OSALUWB_TIMER_START_ERROR))
    else
      var t' := t[i := t[i].(callback := callback, context := context, state := Running)];
      Outcome(t', if startOk then UWBSTATUS_SUCCESS else StVal(CID_UWB_OSAL, PH_OSALUWB_TIMER_START_ERROR))
  }

  /** `phOsalUwb_Timer_Stop`: an id naming no used slot, or an Idle slot, is
      an invalid parameter; a Running slot becomes Stopped when the RTOS
      stops it; a Stopped slot is left as it is. */
  function StopStep(t: seq<Slot>, id: u32, stopOk: bool): Outcome
    requires |t| == PH_UWB_MAX_TIMER
  {
    var i := IndexOf(id);
    if !(i < PH_UWB_MAX_TIMER && t[i].Used() && t[i].state != Idle) then
      Outcome(t, StVal(CID_UWB_OSAL, UWBSTATUS_INVALID_PARAMETER))
    else if t[i].state == Running then
      if stopOk then Outcome(t[i := t[i].(state := Stopped)], UWBSTATUS_SUCCESS)
      else Outcome(t, StVal(CID_UWB_OSAL, PH_OSALUWB_TIMER_STOP_ERROR))
    else Outcome(t, UWBSTATUS_SUCCESS)
  }

  /** `phOsalUwb_Timer_Delete`: an id naming no used slot is an invalid
      parameter; otherwise the slot is cleared, and a refused RTOS delete is
      reported all the same. */
  function DeleteStep(t: seq<Slot>, id: u32, deleteOk: bool): Outcome
    requires |t| == PH_UWB_MAX_TIMER
  {
    var i := IndexOf(id);
    if !(i < PH_UWB_MAX_TIMER && t[i].Used()) then
      Outcome(t, StVal(CID_UWB_OSAL, UWBSTATUS_INVALID_PARAMETER))
    else Outcome(t[i := Cleared], if deleteOk then UWBSTATUS_SUCCESS else StVal(CID_UWB_OSAL, PH_OSALUWB_TIMER_DELETE_ERROR))
  }

  /** `phOsalUwb_Timer_Cleanup` over slots `i..`: every used slot is
      cleared, free slots are left as they are. */
  function CleanupFrom(t: seq<Slot>, i: nat): (r: seq<Slot>)
    requires i <= |t|
    ensures |r| == |t|
    decreases |t| - i
  {
    if i == |t| then t
    else CleanupFrom(if t[i].Used() then t[i := Cleared] else t, i + 1)
  }

  /** `phOsalUwb_IsTimersRunning`. */
  predicate AnyRunning(t: seq<Slot>)
  {
    exists k :: 0 <= k < |t| && t[k].Used() && t[k].state == Running
  }

  /** Every operation keeps the table invariant. */
  lemma StepsKeepTable(t: seq<Slot>, id: u32, callback: nat, context: nat, ok1: bool, ok2: bool)
    requires Table(t)
    ensures Table(CreateStep(t, ok1).t)
    ensures Table(StartStep(t, id, callback, context, ok1, ok2).t)
    ensures Table(StopStep(t, id, ok1).t)
    ensures Table(DeleteStep(t, id, ok1).t)
  {
  }

  /** Create hands out the id of the first free slot, and the slot then
      counts as used under that id; with every slot used it hands out
      INVALID and changes nothing. */
  lemma CreateHandsOutFirstFree(t: seq<Slot>)
    requires Table(t)
    ensures var a := CreateStep(t, true);
            (a.r == PH_OSALUWB_TIMER_ID_INVALID <==> forall k :: 0 <= k < |t| ==> t[k].Used()) &&
            (a.r == PH_OSALUWB_TIMER_ID_INVALID ==> a.t == t) &&
            (a.r != PH_OSALUWB_TIMER_ID_INVALID ==>
               !Names(t, a.r) && Names(a.t, a.r) && a.t[IndexOf(a.r)].state == Idle &&
               forall k :: 0 <= k < IndexOf(a.r) ==> t[k].Used())
  {
    var free := FirstFree(t, 0);
    if free != 0 {
      IdIndexRoundTrip(IdOf(free - 1) as u32, free - 1);
    }
  }

  /** A deleted slot is the one the next create hands out when it is the
      first free one: deleting from a full table and creating again gives
      the same id back. */
  lemma DeleteThenCreateReuses(t: seq<Slot>, id: u32, deleteOk: bool)
    requires Table(t) && forall k :: 0 <= k < |t| ==> t[k].Used()
    requires Names(t, id)
    ensures var d := DeleteStep(t, id, deleteOk);
            !Names(d.t, id) && CreateStep(d.t, true).r == id
  {
    var i := IndexOf(id) as nat;
    var d := DeleteStep(t, id, deleteOk);
    IdIndexRoundTrip(id, i);
    assert FirstFree(d.t, i + 1) == 0;
    FreeAfterUsed(d.t, 0, i);
  }

  /** The search from `i` reaches a free slot `j` past used ones. */
  lemma {:induction false} FreeAfterUsed(t: seq<Slot>, i: nat, j: nat)
    requires i <= j < |t| && !t[j].Used() && forall k :: i <= k < j ==> t[k].Used()
    ensures FirstFree(t, i) == j + 1
    decreases j - i
  {
    if i < j {
      FreeAfterUsed(t, i + 1, j);
    }
  }

  /** Start on a created timer with a callback runs it; started or not by
      the RTOS, the slot is then Running. */
  lemma StartRuns(t: seq<Slot>, id: u32, callback: nat, context: nat, startOk: bool)
    requires Table(t) && Names(t, id) && callback != 0
    ensures var o := StartStep(t, id, callback, context, true, startOk);
            o.t[IndexOf(id)].state == Running && o.t[IndexOf(id)].callback == callback &&
            (o.status == UWBSTATUS_SUCCESS <==> startOk) && AnyRunning(o.t)
  {
    var o := StartStep(t, id, callback, context, true, startOk);
    assert o.t[IndexOf(id)].Used();
    if !startOk {
      StValRoundTrip(CID_UWB_OSAL, PH_OSALUWB_TIMER_START_ERROR);
    }
  }

  /** Start refuses exactly the ids naming no used slot and the NULL
      callback, and then changes nothing. */
  lemma StartRejects(t: seq<Slot>, id: u32, callback: nat, context: nat, periodOk: bool, startOk: bool)
    requires Table(t)
    ensures var o := StartStep(t, id, callback, context, periodOk, startOk);
            (o.status == UWBSTATUS_INVALID_PARAMETER <==> !Names(t, id) || callback == 0) &&
            (o.status == UWBSTATUS_INVALID_PARAMETER ==> o.t == t)
  {
    StValRoundTrip(CID_UWB_OSAL, UWBSTATUS_INVALID_PARAMETER);
    StValInjective(CID_UWB_OSAL, UWBSTATUS_INVALID_PARAMETER, PH_OSALUWB_TIMER_START_ERROR);
  }

  /** Stop on a Running slot stops it when the RTOS does; an Idle slot is an
      invalid parameter; stopping twice is harmless. */
  lemma StopStops(t: seq<Slot>, id: u32, stopOk: bool)
    requires Table(t) && Names(t, id)
    ensures var i := IndexOf(id);
            var o := StopStep(t, id, stopOk);
            (t[i].state == Idle ==> o == Outcome(t, UWBSTATUS_INVALID_PARAMETER)) &&
            (t[i].state == Running && stopOk ==> o.status == UWBSTATUS_SUCCESS && o.t[i].state == Stopped) &&
            (t[i].state == Running && !stopOk ==> o == Outcome(t, PH_OSALUWB_TIMER_STOP_ERROR)) &&
            (t[i].state == Stopped ==> o == Outcome(t, UWBSTATUS_SUCCESS)) &&
            StopStep(o.t, id, stopOk).t == o.t
  {
  }

  /** Delete frees the slot whatever the RTOS answers, and a second delete
      of the same id is an invalid parameter. */
  lemma DeleteFrees(t: seq<Slot>, id: u32, deleteOk: bool)
    requires Table(t) && Names(t, id)
    ensures var o := DeleteStep(t, id, deleteOk);
            !Names(o.t, id) && (o.status == UWBSTATUS_SUCCESS <==> deleteOk) &&
            DeleteStep(o.t, id, deleteOk) == Outcome(o.t, UWBSTATUS_INVALID_PARAMETER) &&
            forall k :: 0 <= k < |t| && k != IndexOf(id) ==> o.t[k] == t[k]
  {
    if !deleteOk {
      StValRoundTrip(CID_UWB_OSAL, PH_OSALUWB_TIMER_DELETE_ERROR);
    }
  }

  /** Cleanup leaves every slot free, clears the used ones and keeps the
      others. */
  lemma {:induction false} CleanupFrees(t: seq<Slot>, i: nat)
    requires i <= |t|
    ensures var r := CleanupFrom(t, i);
            (forall k :: i <= k < |t| ==> !r[k].Used()) &&
            (forall k :: 0 <= k < |t| ==> r[k] == if i <= k && t[k].Used() then Cleared else t[k])
    decreases |t| - i
  {
    if i < |t| {
      CleanupFrees(if t[i].Used() then t[i := Cleared] else t, i + 1);
    }
  }

  /** A fired callback: which callback was called with which id and context. */
  datatype Fired = Fired(callback: nat, id: u32, context: nat)

  /** The slot table `apTimerInfo`. */
  class OsalTimers {
    const slots: array<Slot>
    /** The application callbacks called by expired timers, in order. */
    var fired: seq<Fired>

    function Slots(): seq<Slot>
      reads slots
    {
      slots[..]
    }

    /** The zero-initialised static table. */
    constructor()
      ensures Slots() == seq(PH_UWB_MAX_TIMER, _ => Cleared) && Table(Slots())
      ensures fired == []
    {
      slots := new Slot[PH_UWB_MAX_TIMER](_ => Cleared);
      fired := [];
    }

    /** `phUtilUwb_CheckForAvailableTimer`. */
    method CheckForAvailableTimer() returns (r: nat)
      requires slots.Length == PH_UWB_MAX_TIMER
      ensures r == FirstFree(Slots(), 0)
    {
      var index := 0;
      r := 0;
      while index < PH_UWB_MAX_TIMER && r == 0
        invariant index <= PH_UWB_MAX_TIMER
        invariant r == 0 ==> FirstFree(Slots(), index) == FirstFree(Slots(), 0)
        invariant r != 0 ==> r == FirstFree(Slots(), 0)
      {
        if !slots[index].Used() {
          r := index + 1;
        }
        index := index + 1;
      }
    }

    /** `phOsalUwb_Timer_Create`; `created` is whether `xTimerCreate` gave a
        handle. */
    method Create(created: bool) returns (id: u32)
      requires slots.Length == PH_UWB_MAX_TIMER
      modifies slots
      ensures Answer(Slots(), id) == CreateStep(old(Slots()), created)
    {
      var free := CheckForAvailableTimer();
      if free != 0 && free <= PH_UWB_MAX_TIMER {
        id := IdOf(free - 1);
        if created {
          slots[free - 1] := slots[free - 1].(hasHandle := true, state := Idle, timerId := id);
        } else {
          slots[free - 1] := slots[free - 1].(hasHandle := false);
          id := PH_OSALUWB_TIMER_ID_INVALID;
        }
      } else {
        id := PH_OSALUWB_TIMER_ID_INVALID;
      }
    }

    /** `phOsalUwb_Timer_Start`; `periodOk` and `startOk` are the answers
        of `xTimerChangePeriod` and `xTimerStart`. */
    method Start(id: u32, callback: nat, context: nat, periodOk: bool, startOk: bool) returns (status: u16)
      requires slots.Length == PH_UWB_MAX_TIMER
      modifies slots
      ensures Outcome(Slots(), status) == StartStep(old(Slots()), id, callback, context, periodOk, startOk)
    {
      var i := IndexOf(id);
      status := UWBSTATUS_SUCCESS;
      if i < PH_UWB_MAX_TIMER && slots[i].Used() && callback != 0 && slots[i].hasHandle {
        if periodOk {
          slots[i] := slots[i].(callback := callback, context := context, state := Running);
          if !startOk {
            status := StVal(CID_UWB_OSAL, PH_OSALUWB_TIMER_START_ERROR);
          }
        } else {
          status := StVal(CID_UWB_OSAL, PH_OSALUWB_TIMER_START_ERROR);
        }
      } else {
        status := StVal(CID_UWB_OSAL, UWBSTATUS_INVALID_PARAMETER);
      }
    }

    /** `phOsalUwb_Timer_Stop`; `stopOk` is the answer of `xTimerStop`. */
    method Stop(id: u32, stopOk: bool) returns (status: u16)
      requires slots.Length == PH_UWB_MAX_TIMER
      modifies slots
      ensures Outcome(Slots(), status) == StopStep(old(Slots()), id, stopOk)
    {
      var i := IndexOf(id);
      status := UWBSTATUS_SUCCESS;
      if i < PH_UWB_MAX_TIMER && slots[i].Used() && slots[i].state != Idle {
        if slots[i].state == Running {
          if !stopOk {
            status := StVal(CID_UWB_OSAL, PH_OSALUWB_TIMER_STOP_ERROR);
          } else {
            slots[i] := slots[i].(state := Stopped);
          }
        }
      } else {
        status := StVal(CID_UWB_OSAL, UWBSTATUS_INVALID_PARAMETER);
      }
    }

    /** `phOsalUwb_CheckTimerPresence` for the handle of slot `i`: some
        slot is that one and is used. */
    method CheckTimerPresence(i: nat) returns (status: u16)
      requires slots.Length == PH_UWB_MAX_TIMER
      ensures status == UWBSTATUS_SUCCESS <==> i < PH_UWB_MAX_TIMER && slots[i].Used()
      ensures status != UWBSTATUS_SUCCESS ==> status == UWBSTATUS_INVALID_PARAMETER
    {
      var index := 0;
      status := UWBSTATUS_INVALID_PARAMETER;
      while index < PH_UWB_MAX_TIMER && status != UWBSTATUS_SUCCESS
        invariant index <= PH_UWB_MAX_TIMER
        invariant status == UWBSTATUS_SUCCESS || status == UWBSTATUS_INVALID_PARAMETER
        invariant status == UWBSTATUS_SUCCESS <==> i < index && slots[i].Used()
      {
        if index == i && slots[index].Used() {
          status := UWBSTATUS_SUCCESS;
        }
        index := index + 1;
      }
    }

    /** `phOsalUwb_Timer_Delete`; `deleteOk` is the answer of
        `xTimerDelete`. */
    method Delete(id: u32, deleteOk: bool) returns (status: u16)
      requires slots.Length == PH_UWB_MAX_TIMER
      modifies slots
      ensures Outcome(Slots(), status) == DeleteStep(old(Slots()), id, deleteOk)
    {
      var i := IndexOf(id);
      status := UWBSTATUS_SUCCESS;
      var present := UWBSTATUS_INVALID_PARAMETER;
      if i < PH_UWB_MAX_TIMER && slots[i].Used() {
        present := CheckTimerPresence(i);
      }
      if i < PH_UWB_MAX_TIMER && slots[i].Used() && present == UWBSTATUS_SUCCESS {
        if !deleteOk {
          status := StVal(CID_UWB_OSAL, PH_OSALUWB_TIMER_DELETE_ERROR);
        }
        slots[i] := Cleared;
      } else {
        status := StVal(CID_UWB_OSAL, UWBSTATUS_INVALID_PARAMETER);
      }
    }

    /** `phOsalUwb_Timer_Cleanup`: every used slot is deleted and cleared. */
    method Cleanup()
      requires slots.Length == PH_UWB_MAX_TIMER
      modifies slots
      ensures Slots() == CleanupFrom(old(Slots()), 0)
    {
      var index := 0;
      while index < PH_UWB_MAX_TIMER
        invariant index <= PH_UWB_MAX_TIMER
        invariant CleanupFrom(Slots(), index) == CleanupFrom(old(Slots()), 0)
      {
        var present := UWBSTATUS_INVALID_PARAMETER;
        if slots[index].Used() {
          present := CheckTimerPresence(index);
        }
        if slots[index].Used() && present == UWBSTATUS_SUCCESS {
          slots[index] := Cleared;
        }
        index := index + 1;
      }
    }

    /** `phOsalUwb_Timer_Expired`: the RTOS fires only a timer that Start
        armed, so the id names a used slot with a callback; the slot becomes
        Stopped and its callback is called with the id and its context. */
    method Expired(id: u32)
      requires Table(Slots()) && Names(Slots(), id) && slots[IndexOf(id)].callback != 0
      modifies this, slots
      ensures Slots() == old(Slots())[IndexOf(id) := old(Slots())[IndexOf(id)].(state := Stopped)]
      ensures fired == old(fired) + [Fired(old(slots[IndexOf(id)].callback), id, old(slots[IndexOf(id)].context))]
    {
      var i := IndexOf(id);
      slots[i] := slots[i].(state := Stopped);
      fired := fired + [Fired(slots[i].callback, id, slots[i].context)];
    }

    /** `phOsalUwb_IsTimersRunning`. */
    method IsTimersRunning() returns (r: bool)
      requires slots.Length == PH_UWB_MAX_TIMER
      ensures r <==> AnyRunning(Slots())
    {
      var index := 0;
      while index < PH_UWB_MAX_TIMER
        invariant index <= PH_UWB_MAX_TIMER
        invariant forall k :: 0 <= k < index ==> !(slots[k].Used() && slots[k].state == Running)
      {
        if slots[index].Used() && slots[index].state == Running {
          assert Slots()[index] == slots[index];
          return true;
        }
        index := index + 1;
      }
      return false;
    }
  }
}
