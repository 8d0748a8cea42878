// The demo applications' table of sessions: one slot per session with its
// id, its state and its kind, searched and updated slot by slot.
module AppStateManagement {
  import opened Bytes

  /** The table's size, `MAX_SESSIONS` in
      demos/SR040/demo_tracker_ble/handlers/src/uwb_misc_handler.c:26; it
      matches the limit of five sessions documented at
      libs/uwb-iot/uwb_api/Api/UwbApi.h:100. */
  const MAX_SESSIONS: nat := 5
  const UWBAPI_SESSION_INIT_SUCCESS: u8 := 0x00
  const UWBAPI_SESSION_ACTIVATED: u8 := 0x02
  const UWBAPI_SESSION_IDLE: u8 := 0x03
  const UWBAPI_SESSION_ERROR: u8 := 0xFF
  /** `UWBD_RANGING_SESSION`, the first `session_type`. */
  const UWBD_RANGING_SESSION: u8 := 0
  const NO_OP_TYPE: u8 := 0xFF

  /** `AppStateInfo_t`. */
  datatype AppStateInfo = AppStateInfo(sessionId: u32, currentState: u8, opType: u8)

  /** What `initAppStateInfo` and `removeStateInfo` leave in a slot. */
  const EmptySlot := AppStateInfo(0, UWBAPI_SESSION_ERROR, NO_OP_TYPE)

  // ---------------------------------------------------------------------
  // The table as a sequence of slots

  /** The first slot from `k` on in the ERROR state: a free slot. */
  function FirstFreeFrom(s: seq<AppStateInfo>, k: nat): (r: Option<nat>)
    ensures r.Some? ==> k <= r.value < |s| && s[r.value].currentState == UWBAPI_SESSION_ERROR
    ensures r.Some? ==> forall j :: k <= j < r.value ==> s[j].currentState != UWBAPI_SESSION_ERROR
    ensures r.None? ==> forall j :: k <= j < |s| ==> s[j].currentState != UWBAPI_SESSION_ERROR
    decreases |s| - k
  {
    if |s| <= k then None
    else if s[k].currentState == UWBAPI_SESSION_ERROR then Some(k)
    else FirstFreeFrom(s, k + 1)
  }

  /** The first slot from `k` on holding the session id. */
  function FindFrom(s: seq<AppStateInfo>, id: u32, k: nat): (r: Option<nat>)
    ensures r.Some? ==> k <= r.value < |s| && s[r.value].sessionId == id
    ensures r.Some? ==> forall j :: k <= j < r.value ==> s[j].sessionId != id
    ensures r.None? ==> forall j :: k <= j < |s| ==> s[j].sessionId != id
    decreases |s| - k
  {
    if |s| <= k then None
    else if s[k].sessionId == id then Some(k)
    else FindFrom(s, id, k + 1)
  }

  /** `addStateInfo` on the table: the first free slot takes the entry; a
      zero session id or a full table changes nothing. */
  function Add(s: seq<AppStateInfo>, info: AppStateInfo): seq<AppStateInfo>
  {
    if info.sessionId == 0 then s
    else match FirstFreeFrom(s, 0)
      case None => s
      case Some(i) => s[i := info]
  }

  /** `removeStateInfo` on the table: the first slot with the id is
      emptied. */
  function Remove(s: seq<AppStateInfo>, id: u32): seq<AppStateInfo>
  {
    match FindFrom(s, id, 0)
    case None => s
    case Some(i) => s[i := EmptySlot]
  }

  /** `updateState` on the table: the first slot with the (nonzero) id
      takes the state. */
  function Update(s: seq<AppStateInfo>, id: u32, state: u8): seq<AppStateInfo>
  {
    if id == 0 then s
    else match FindFrom(s, id, 0)
      case None => s
      case Some(i) => s[i := s[i].(currentState := state)]
  }

  /** `getCurrentState` on the table: the state of the first slot with
      the id, and ERROR for id 0 or an id not in the table. */
  function StateOf(s: seq<AppStateInfo>, id: u32): u8
  {
    if id == 0 then UWBAPI_SESSION_ERROR
    else match FindFrom(s, id, 0)
      case None => UWBAPI_SESSION_ERROR
      case Some(i) => s[i].currentState
  }

  predicate IsActiveRanging(e: AppStateInfo)
  {
    e.opType == UWBD_RANGING_SESSION && e.currentState == UWBAPI_SESSION_ACTIVATED
  }

  predicate IsLive(e: AppStateInfo)
  {
    e.currentState == UWBAPI_SESSION_ACTIVATED || e.currentState == UWBAPI_SESSION_INIT_SUCCESS
    || e.currentState == UWBAPI_SESSION_IDLE
  }

  /** The ids of the slots from the first `n` that hold an activated
      ranging session, in slot order. */
  function RangingIds(s: seq<AppStateInfo>, n: nat): seq<u32>
    requires n <= |s|
  {
    if n == 0 then []
    else RangingIds(s, n - 1) + (if IsActiveRanging(s[n - 1]) then [s[n - 1].sessionId] else [])
  }

  /** The ids of the slots from the first `n` that hold an activated,
      initialised or idle session, in slot order. */
  function LiveIds(s: seq<AppStateInfo>, n: nat): seq<u32>
    requires n <= |s|
  {
    if n == 0 then []
    else LiveIds(s, n - 1) + (if IsLive(s[n - 1]) then [s[n - 1].sessionId] else [])
  }

  /** The number of slots from the first `n` that hold an activated
      ranging session. */
  function CountRanging(s: seq<AppStateInfo>, n: nat): nat
    requires n <= |s|
  {
    if n == 0 then 0 else CountRanging(s, n - 1) + (if IsActiveRanging(s[n - 1]) then 1 else 0)
  }

  // ---------------------------------------------------------------------
  // Properties of the table

  /** A session added with an id the table does not hold reads back with
      the state it was added with. */
  lemma AddThenState(s: seq<AppStateInfo>, info: AppStateInfo)
    requires info.sessionId != 0 && FindFrom(s, info.sessionId, 0).None? && FirstFreeFrom(s, 0).Some?
    ensures StateOf(Add(s, info), info.sessionId) == info.currentState
  {
    var i := FirstFreeFrom(s, 0).value;
    var t := s[i := info];
    NotFoundBefore(s, t, info.sessionId, i);
  }

  /** Slots before `i` are unchanged, and none of them holds the id. */
  lemma {:induction false} NotFoundBefore(s: seq<AppStateInfo>, t: seq<AppStateInfo>, id: u32, i: nat)
    requires |s| == |t| && i < |t| && t[i].sessionId == id
    requires forall j :: 0 <= j < i ==> t[j] == s[j]
    requires FindFrom(s, id, 0).None?
    ensures FindFrom(t, id, 0) == Some(i)
  {
    FindSkips(t, id, 0, i);
  }

  /** The search runs past slots without the id. */
  lemma {:induction false} FindSkips(t: seq<AppStateInfo>, id: u32, k: nat, i: nat)
    requires k <= i < |t| && t[i].sessionId == id
    requires forall j :: k <= j < i ==> t[j].sessionId != id
    ensures FindFrom(t, id, k) == Some(i)
    decreases i - k
  {
    if k < i {
      FindSkips(t, id, k + 1, i);
    }
  }

  /** Removing a session that the table holds once leaves no slot with its
      id, so its state reads as ERROR; the other sessions keep theirs. */
  lemma RemoveThenState(s: seq<AppStateInfo>, id: u32, other: u32)
    requires id != 0 && FindFrom(s, id, 0).Some?
    requires forall j, k :: 0 <= j < k < |s| && s[j].sessionId == id ==> s[k].sessionId != id
    requires other != id
    ensures StateOf(Remove(s, id), id) == UWBAPI_SESSION_ERROR
    ensures StateOf(Remove(s, id), other) == StateOf(s, other)
  {
    var i := FindFrom(s, id, 0).value;
    var t := s[i := EmptySlot];
    if other != 0 {
      FindOtherUnchanged(s, t, other, i, 0);
    }
  }

  /** Emptying a slot that does not hold a nonzero `other` leaves the
      search for `other` as it was. */
  lemma {:induction false} FindOtherUnchanged(s: seq<AppStateInfo>, t: seq<AppStateInfo>, other: u32, i: nat, k: nat)
    requires other != 0 && i < |s| && t == s[i := EmptySlot] && s[i].sessionId != other
    ensures FindFrom(t, other, k) == FindFrom(s, other, k)
    decreases |s| - k
  {
    if k < |s| {
      FindOtherUnchanged(s, t, other, i, k + 1);
    }
  }

  /** Updating a session's state is what reading it back gives. */
  lemma UpdateThenState(s: seq<AppStateInfo>, id: u32, state: u8)
    requires id != 0 && FindFrom(s, id, 0).Some?
    ensures StateOf(Update(s, id, state), id) == state
  {
    var i := FindFrom(s, id, 0).value;
    var t := s[i := s[i].(currentState := state)];
    FindSkips(t, id, 0, i);
  }

  /** The ranging ids are as many as the slots with an activated ranging
      session, and each is such a slot's id. */
  lemma {:induction false} RangingIdsCount(s: seq<AppStateInfo>, n: nat)
    requires n <= |s|
    ensures |RangingIds(s, n)| == CountRanging(s, n) <= n
    ensures forall x :: x in RangingIds(s, n) ==> exists j :: 0 <= j < n && IsActiveRanging(s[j]) && s[j].sessionId == x
  {
    if n > 0 {
      RangingIdsCount(s, n - 1);
    }
  }

  // ---------------------------------------------------------------------
  // The table in place

  /** `AppContext_t`: the slots of the sessions an application runs. */
  class AppContext {
    var appStates: array<AppStateInfo>

    predicate Valid()
      reads this
    {
      appStates.Length == MAX_SESSIONS
    }

    /** `initAppStateInfo` on a fresh context: every slot empty. */
    constructor ()
      ensures Valid() && fresh(appStates)
      ensures forall i :: 0 <= i < appStates.Length ==> appStates[i] == EmptySlot
    {
      appStates := new AppStateInfo[MAX_SESSIONS](_ => EmptySlot);
    }

    /** `initAppStateInfo`: every slot gets id 0, state ERROR and no kind. */
    method InitAppStateInfo()
      requires Valid()
      modifies appStates
      ensures Valid()
      ensures forall i :: 0 <= i < appStates.Length ==> appStates[i] == EmptySlot
    {
      for count := 0 to MAX_SESSIONS
        invariant forall i :: 0 <= i < count ==> appStates[i] == EmptySlot
      {
        appStates[count] := EmptySlot;
      }
    }

    /** `addStateInfo`. */
    method AddStateInfo(info: AppStateInfo) returns (status: bool)
      requires Valid()
      modifies appStates
      ensures Valid()
      ensures status <==> info.sessionId != 0 && FirstFreeFrom(old(appStates[..]), 0).Some?
      ensures appStates[..] == Add(old(appStates[..]), info)
    {
      status := false;
      if info.sessionId == 0 {
        return;
      }
      for count := 0 to MAX_SESSIONS
        invariant appStates[..] == old(appStates[..])
        invariant FirstFreeFrom(appStates[..], 0) == FirstFreeFrom(appStates[..], count)
      {
        if appStates[count].currentState == UWBAPI_SESSION_ERROR {
          appStates[count] := info;
          return true;
        }
      }
    }

    /** `removeStateInfo`. */
    method RemoveStateInfo(sessionId: u32) returns (status: bool)
      requires Valid()
      modifies appStates
      ensures Valid()
      ensures status <==> FindFrom(old(appStates[..]), sessionId, 0).Some?
      ensures appStates[..] == Remove(old(appStates[..]), sessionId)
    {
      status := false;
      for count := 0 to MAX_SESSIONS
        invariant appStates[..] == old(appStates[..])
        invariant FindFrom(appStates[..], sessionId, 0) == FindFrom(appStates[..], sessionId, count)
      {
        if appStates[count].sessionId == sessionId {
          appStates[count] := EmptySlot;
          return true;
        }
      }
    }

    /** `updateState`. */
    method UpdateState(sessionId: u32, state: u8) returns (status: bool)
      requires Valid()
      modifies appStates
      ensures Valid()
      ensures status <==> sessionId != 0 && FindFrom(old(appStates[..]), sessionId, 0).Some?
      ensures appStates[..] == Update(old(appStates[..]), sessionId, state)
    {
      status := false;
      if sessionId == 0 {
        return;
      }
      for count := 0 to MAX_SESSIONS
        invariant appStates[..] == old(appStates[..])
        invariant FindFrom(appStates[..], sessionId, 0) == FindFrom(appStates[..], sessionId, count)
      {
        if appStates[count].sessionId == sessionId {
          appStates[count] := appStates[count].(currentState := state);
          return true;
        }
      }
    }

    /** `getCurrentState`. */
    method GetCurrentState(sessionId: u32) returns (state: u8)
      requires Valid()
      ensures state == StateOf(appStates[..], sessionId)
    {
      state := UWBAPI_SESSION_ERROR;
      if sessionId == 0 {
        return;
      }
      for count := 0 to MAX_SESSIONS
        invariant FindFrom(appStates[..], sessionId, 0) == FindFrom(appStates[..], sessionId, count)
      {
        if appStates[count].sessionId == sessionId {
          return appStates[count].currentState;
        }
      }
    }

    /** `getActiveRangingSessionCount`: the ids of the activated ranging
        sessions and their number. */
    method GetActiveRangingSessionCount() returns (sessionIds: seq<u32>, noOfActiveSessions: nat)
      requires Valid()
      ensures sessionIds == RangingIds(appStates[..], MAX_SESSIONS)
      ensures noOfActiveSessions == CountRanging(appStates[..], MAX_SESSIONS)
    {
      sessionIds := [];
      for count := 0 to MAX_SESSIONS
        invariant sessionIds == RangingIds(appStates[..], count)
      {
        if appStates[count].opType == UWBD_RANGING_SESSION && appStates[count].currentState == UWBAPI_SESSION_ACTIVATED {
          sessionIds := sessionIds + [appStates[count].sessionId];
        }
      }
      noOfActiveSessions := |sessionIds|;
      RangingIdsCount(appStates[..], MAX_SESSIONS);
    }

    /** `getActiveSessionIds`: the ids of the activated, initialised and
        idle sessions. */
    method GetActiveSessionIds() returns (sessionIds: seq<u32>)
      requires Valid()
      ensures sessionIds == LiveIds(appStates[..], MAX_SESSIONS)
    {
      sessionIds := [];
      for count := 0 to MAX_SESSIONS
        invariant sessionIds == LiveIds(appStates[..], count)
      {
        if appStates[count].currentState == UWBAPI_SESSION_ACTIVATED
          || appStates[count].currentState == UWBAPI_SESSION_INIT_SUCCESS
          || appStates[count].currentState == UWBAPI_SESSION_IDLE {
          sessionIds := sessionIds + [appStates[count].sessionId];
        }
      }
    }

    /** `cleanUpAppContext`: the live sessions are deinitialised (the device
        call is left out) and the table is emptied whatever they answered.
        Returns the sessions it asked to deinitialise. */
    method CleanUpAppContext() returns (deinitialised: seq<u32>)
      requires Valid()
      modifies appStates
      ensures Valid()
      ensures deinitialised == LiveIds(old(appStates[..]), MAX_SESSIONS)
      ensures forall i :: 0 <= i < appStates.Length ==> appStates[i] == EmptySlot
    {
      deinitialised := GetActiveSessionIds();
      InitAppStateInfo();
    }
  }
}
