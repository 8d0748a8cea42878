// The GKI timer pools: each pool is an array of (OSAL timer id, event)
// entries of which the first `activeCnt` are live. Starting a timer appends
// an entry, a timer's expiry or a stop looks it up and removes it by
// shifting the later entries down, and a timer list queue starts empty.
// The OSAL timer calls themselves are recorded as the ids handed to them.
module UwbGkiTime {
  import opened Bytes

  const MAX_UCI_POOL_SIZE: nat := 3
  const MAX_QUICK_POOL_SIZE: nat := 2
  const MAX_UFA_POOL_SIZE: nat := 0

  const TIMER_0: u8 := 0
  const TIMER_1: u8 := 1
  const TIMER_2: u8 := 2

  /** What `phOsalUwb_Timer_Create` answers when no timer could be made. */
  const PH_OSALUWB_TIMER_ID_INVALID: u32 := 0xFFFF

  /** `tGKI_TIMER_INFO`: an OSAL timer id and the event it posts. */
  datatype TimerInfo = TimerInfo(timerId: u32, msgType: u16)

  /** A pool's entries and its active count. */
  datatype PoolState = PoolState(info: seq<TimerInfo>, cnt: nat)
  {
    predicate Valid()
    {
      cnt <= |info|
    }

    /** The live entries. */
    function Live(): seq<TimerInfo>
      requires Valid()
    {
      info[..cnt]
    }
  }

  /** The ids of a run of entries, in order. */
  function Ids(l: seq<TimerInfo>): (r: seq<u32>)
    ensures |r| == |l| && forall k :: 0 <= k < |l| ==> r[k] == l[k].timerId
  {
    if l == [] then [] else [l[0].timerId] + Ids(l[1..])
  }

  /** The first of the first `size` entries from `i` on that holds `id`, or
      `size` when none does. */
  function FindTimer(pool: seq<TimerInfo>, id: u32, size: nat, i: nat): (r: nat)
    requires size <= |pool| && i <= size
    ensures i <= r <= size && (r < size ==> pool[r].timerId == id)
    ensures forall k :: i <= k < r ==> pool[k].timerId != id
    decreases size - i
  {
    if i == size then size
    else if pool[i].timerId == id then i
    else FindTimer(pool, id, size, i + 1)
  }

  /** Where `id` first stands among the live entries, or the count. */
  function Position(s: PoolState, id: u32): nat
    requires s.Valid()
  {
    FindTimer(s.info, id, s.cnt, 0)
  }

  /** Some live entry holds `id`. */
  predicate Holds(s: PoolState, id: u32)
    requires s.Valid()
  {
    id in Ids(s.Live())
  }

  /** `phUwb_gki_get_msg_from_pool`: the event of the first live entry with
      the id, if any. */
  function MsgFromPool(s: PoolState, id: u32): Option<u16>
    requires s.Valid()
  {
    var k := Position(s, id);
    if k == s.cnt then None else Some(s.info[k].msgType)
  }

  /** An id is found exactly when a live entry holds it, and then the event
      is that of the first such entry. */
  lemma MsgFromPoolFinds(s: PoolState, id: u32)
    requires s.Valid()
    ensures MsgFromPool(s, id).Some? <==> Holds(s, id)
    ensures Holds(s, id) ==>
              (Position(s, id) < s.cnt && s.info[Position(s, id)].timerId == id &&
               MsgFromPool(s, id) == Some(s.info[Position(s, id)].msgType) &&
               forall k :: 0 <= k < Position(s, id) ==> s.info[k].timerId != id)
  {
    var ids := Ids(s.Live());
    if Holds(s, id) {
      var k :| 0 <= k < |ids| && ids[k] == id;
      assert Position(s, id) <= k;
    }
  }

  /** `phUwb_gki_dele_timer_from_pool`: a found entry is removed by moving
      every later live entry down one place (the old last entry stays behind
      in the array), or, when it is the last live entry, by clearing its
      id; either way the count drops by one. An absent id changes nothing. */
  function DeleTimerStep(s: PoolState, id: u32): (r: PoolState)
    requires s.Valid()
    ensures r.Valid() && |r.info| == |s.info|
  {
    var pos := Position(s, id);
    if pos == s.cnt then s
    else if pos + 1 < s.cnt then PoolState(s.info[..pos] + s.info[pos + 1..s.cnt] + s.info[s.cnt - 1..], s.cnt - 1)
    else PoolState(s.info[pos := s.info[pos].(timerId := 0)], s.cnt - 1)
  }

  /** Deleting a present id takes its first entry out of the live entries,
      keeping the order of the others; an absent id leaves pool and count
      alone. */
  lemma DeleTimerRemovesFirst(s: PoolState, id: u32)
    requires s.Valid()
    ensures var r := DeleTimerStep(s, id); var pos := Position(s, id);
            (!Holds(s, id) ==> r == s) &&
            (Holds(s, id) ==> pos < s.cnt && r.cnt == s.cnt - 1 && r.Live() == s.Live()[..pos] + s.Live()[pos + 1..])
  {
    var r := DeleTimerStep(s, id);
    var pos := Position(s, id);
    MsgFromPoolFinds(s, id);
    if Holds(s, id) {
      var l := s.Live();
      if pos + 1 < s.cnt {
        assert r.Live() == l[..pos] + l[pos + 1..];
      } else {
        assert r.Live() == l[..pos];
      }
    }
  }

  /** The entries' ids are all different. */
  predicate DistinctIds(l: seq<TimerInfo>)
  {
    forall a, b :: 0 <= a < b < |l| ==> l[a].timerId != l[b].timerId
  }

  /** The live entries' ids are all different. */
  predicate Distinct(s: PoolState)
    requires s.Valid()
  {
    DistinctIds(s.Live())
  }

  /** Taking one entry out keeps the ids different. */
  lemma RemoveKeepsDistinct(l: seq<TimerInfo>, pos: nat)
    requires pos < |l| && DistinctIds(l)
    ensures DistinctIds(l[..pos] + l[pos + 1..])
  {
    var rl := l[..pos] + l[pos + 1..];
    assert forall k :: 0 <= k < |rl| ==> rl[k] == l[if k < pos then k else k + 1];
  }

  /** Deleting keeps the live ids distinct. */
  lemma DeleKeepsDistinct(s: PoolState, id: u32)
    requires s.Valid() && Distinct(s)
    ensures Distinct(DeleTimerStep(s, id))
  {
    DeleTimerRemovesFirst(s, id);
    if Holds(s, id) {
      RemoveKeepsDistinct(s.Live(), Position(s, id));
    }
  }

  /** Taking entry `pos` out of entries with distinct ids drops its id
      and no other. */
  lemma RemoveDropsId(l: seq<TimerInfo>, pos: nat)
    requires pos < |l| && DistinctIds(l)
    ensures var rest := l[..pos] + l[pos + 1..];
            l[pos].timerId !in Ids(rest) &&
            forall x :: x != l[pos].timerId ==> (x in Ids(rest) <==> x in Ids(l))
  {
    var rest := l[..pos] + l[pos + 1..];
    var ir, il := Ids(rest), Ids(l);
    assert forall k :: 0 <= k < |rest| ==> rest[k] == l[if k < pos then k else k + 1];
    forall x | x in ir
      ensures x != l[pos].timerId && x in il
    {
      var k :| 0 <= k < |ir| && ir[k] == x;
      var k' := if k < pos then k else k + 1;
      assert il[k'] == x;
    }
    forall x | x in il && x != l[pos].timerId
      ensures x in ir
    {
      var k :| 0 <= k < |il| && il[k] == x;
      var k' := if k < pos then k else k - 1;
      assert ir[k'] == x;
    }
  }

  /** With distinct ids, deleting one leaves every other live id and only
      those, and the ids stay distinct. */
  lemma DeleTimerDropsId(s: PoolState, id: u32)
    requires s.Valid() && Distinct(s)
    ensures var r := DeleTimerStep(s, id);
            Distinct(r) && !Holds(r, id) &&
            forall x :: x != id ==> (Holds(r, x) <==> Holds(s, x))
  {
    DeleKeepsDistinct(s, id);
    DeleTimerRemovesFirst(s, id);
    MsgFromPoolFinds(s, id);
    if Holds(s, id) {
      RemoveDropsId(s.Live(), Position(s, id));
    }
  }

  /** The bookkeeping half of `phUwb_GKI_start_timer`: when the OSAL gave a
      timer, its id and the event go into the next entry and the count
      grows. */
  function StartTimerStep(s: PoolState, handle: u32, event: u16): (r: PoolState)
    requires s.Valid() && s.cnt < |s.info|
    ensures r.Valid() && |r.info| == |s.info|
  {
    if handle == PH_OSALUWB_TIMER_ID_INVALID then s
    else PoolState(s.info[s.cnt := TimerInfo(handle, event)], s.cnt + 1)
  }

  /** A started timer is appended behind the live entries; a failed
      creation records nothing. */
  lemma StartTimerAppends(s: PoolState, handle: u32, event: u16)
    requires s.Valid() && s.cnt < |s.info|
    ensures var r := StartTimerStep(s, handle, event);
            (handle == PH_OSALUWB_TIMER_ID_INVALID ==> r == s) &&
            (handle != PH_OSALUWB_TIMER_ID_INVALID ==> r.cnt == s.cnt + 1 && r.Live() == s.Live() + [TimerInfo(handle, event)])
  {
    var r := StartTimerStep(s, handle, event);
    if handle != PH_OSALUWB_TIMER_ID_INVALID {
      assert r.Live() == s.Live() + [TimerInfo(handle, event)];
    }
  }

  /** A timer started under a fresh id is found with its event, and
      deleting it again gives back the live entries from before. */
  lemma StartThenExpire(s: PoolState, handle: u32, event: u16)
    requires s.Valid() && s.cnt < |s.info| && handle != PH_OSALUWB_TIMER_ID_INVALID && !Holds(s, handle)
    ensures MsgFromPool(StartTimerStep(s, handle, event), handle) == Some(event)
    ensures var r := DeleTimerStep(StartTimerStep(s, handle, event), handle);
            r.cnt == s.cnt && r.Live() == s.Live()
  {
    var t := StartTimerStep(s, handle, event);
    StartTimerAppends(s, handle, event);
    MsgFromPoolFinds(t, handle);
    assert Ids(t.Live())[s.cnt] == handle;
    var pos := Position(t, handle);
    assert pos == s.cnt;
    DeleTimerRemovesFirst(t, handle);
    assert t.Live()[..pos] == s.Live();
  }

  /** What stopping a whole pool did: the pool after, and the ids handed to
      `phOsalUwb_Timer_Stop` and `phOsalUwb_Timer_Delete`, in order. */
  datatype Stopped = Stopped(s: PoolState, calls: seq<u32>)

  /** `phUwb_GKI_stop_timer(tnum, 0)` as written: for each index below the
      count taken at the start, the id then stored at that index is stopped
      and deleted from the pool, although each deletion has moved the later
      entries down one place. */
  function StopAllFrom(s: PoolState, index: nat, tempCnt: nat, calls: seq<u32>): (r: Stopped)
    requires s.Valid() && tempCnt <= |s.info|
    ensures r.s.Valid() && |r.s.info| == |s.info|
    decreases tempCnt - index
  {
    if index >= tempCnt then Stopped(s, calls)
    else
      var id := s.info[index].timerId;
      StopAllFrom(DeleTimerStep(s, id), index + 1, tempCnt, calls + [id])
  }

  /** One turn of the as-written stop-all loop. */
  lemma StopAllUnfold(s: PoolState, index: nat, tempCnt: nat, calls: seq<u32>)
    requires s.Valid() && index < tempCnt <= |s.info|
    ensures var id := s.info[index].timerId;
            StopAllFrom(s, index, tempCnt, calls) ==
            StopAllFrom(DeleTimerStep(s, id), index + 1, tempCnt, calls + [id])
  {
  }

  /** Stopping every timer of a pool of three distinct timers a, b, c as
      written stops a and c (c twice) and leaves b live and its OSAL timer
      running. */
  lemma StopAllSkipsEveryOther(a: u32, b: u32, c: u32, ea: u16, eb: u16, ec: u16)
    requires a != b && b != c && a != c && a != 0 && c != 0
    ensures var s := PoolState([TimerInfo(a, ea), TimerInfo(b, eb), TimerInfo(c, ec)], 3);
            var r := StopAllFrom(s, 0, 3, []);
            r.calls == [a, c, c] && r.s.Live() == [TimerInfo(b, eb)]
  {
    var s := PoolState([TimerInfo(a, ea), TimerInfo(b, eb), TimerInfo(c, ec)], 3);
    assert Position(s, a) == 0;
    var s1 := DeleTimerStep(s, a);
    assert s1 == PoolState([TimerInfo(b, eb), TimerInfo(c, ec), TimerInfo(c, ec)], 2);
    assert Position(s1, c) == 1;
    var s2 := DeleTimerStep(s1, c);
    assert s2 == PoolState([TimerInfo(b, eb), TimerInfo(0, ec), TimerInfo(c, ec)], 1);
    assert Position(s2, c) == 1;
    assert DeleTimerStep(s2, c) == s2;
    assert StopAllFrom(s2, 2, 3, [a, c]) == StopAllFrom(s2, 3, 3, [a, c, c]);
    assert s2.Live() == [TimerInfo(b, eb)];
  }

  /** Stopping a whole pool as intended: the head entry is stopped and
      deleted until none is live. */
  function StopAllIntended(s: PoolState, calls: seq<u32>): (r: Stopped)
    requires s.Valid()
    ensures r.s.Valid() && |r.s.info| == |s.info|
    decreases s.cnt
  {
    if s.cnt == 0 then Stopped(s, calls)
    else
      var id := s.info[0].timerId;
      StopAllIntended(DeleTimerStep(s, id), calls + [id])
  }

  /** Deleting the id of the head entry removes the head. */
  lemma DeleHead(s: PoolState)
    requires s.Valid() && s.cnt > 0
    ensures var r := DeleTimerStep(s, s.info[0].timerId);
            r.cnt == s.cnt - 1 && r.Live() == s.Live()[1..]
  {
    assert Position(s, s.info[0].timerId) == 0;
    assert Ids(s.Live())[0] == s.info[0].timerId;
    DeleTimerRemovesFirst(s, s.info[0].timerId);
  }

  /** Stopping as intended empties the pool and stops every live timer
      once, in pool order. */
  lemma {:induction false} StopAllIntendedClears(s: PoolState, calls: seq<u32>)
    requires s.Valid()
    ensures StopAllIntended(s, calls).s.cnt == 0
    ensures StopAllIntended(s, calls).calls == calls + Ids(s.Live())
    decreases s.cnt
  {
    if s.cnt > 0 {
      var id := s.info[0].timerId;
      var t := DeleTimerStep(s, id);
      DeleHead(s);
      StopAllIntendedClears(t, calls + [id]);
      assert Ids(s.Live()) == [id] + Ids(t.Live());
    }
  }

  /** Helper: entries moved down by one from `pos` on, as `ShiftDown` leaves
      them, form the pool `DeleTimerStep` describes. */
  lemma ShiftedLayout(a: seq<TimerInfo>, b: seq<TimerInfo>, pos: nat, cnt: nat)
    requires |a| == |b| && pos + 1 < cnt <= |b|
    requires forall k :: 0 <= k < pos ==> a[k] == b[k]
    requires forall k :: pos <= k < cnt - 1 ==> a[k] == b[k + 1]
    requires forall k :: cnt - 1 <= k < |a| ==> a[k] == b[k]
    ensures a == b[..pos] + b[pos + 1..cnt] + b[cnt - 1..]
  {
    var c := b[..pos] + b[pos + 1..cnt] + b[cnt - 1..];
    assert |c| == |a|;
    forall k | 0 <= k < |a|
      ensures a[k] == c[k]
    {
      if k < pos {
      } else if k < cnt - 1 {
        assert c[k] == b[pos + 1..cnt][k - pos];
      } else {
        assert c[k] == b[cnt - 1..][k - (cnt - 1)];
      }
    }
  }

  /** One pool of `tGKI_TIMER_INFO` entries with its active count. */
  class TimerPool {
    const info: array<TimerInfo>
    var activeCnt: nat
    /** Ids handed to `phOsalUwb_Timer_Stop` and `phOsalUwb_Timer_Delete`. */
    var osCalls: seq<u32>
    /** Events posted to the UWB task by expired timers. */
    var sent: seq<u16>

    function State(): PoolState
      reads this, info
    {
      PoolState(info[..], activeCnt)
    }

    /** A zeroed static pool of `size` entries. */
    constructor(size: nat)
      ensures State() == PoolState(seq(size, _ => TimerInfo(0, 0)), 0) && fresh(info) && info.Length == size
      ensures osCalls == [] && sent == []
    {
      info := new TimerInfo[size](_ => TimerInfo(0, 0));
      activeCnt := 0;
      osCalls, sent := [], [];
    }

    /** `phUwb_gki_get_msg_from_pool`. */
    method GetMsgFromPool(id: u32) returns (r: Option<u16>)
      requires State().Valid()
      ensures r == MsgFromPool(State(), id)
    {
      var index := 0;
      while index < activeCnt
        invariant index <= activeCnt
        invariant FindTimer(info[..], id, activeCnt, index) == Position(State(), id)
      {
        if info[index].timerId == id {
          return Some(info[index].msgType);
        }
        index := index + 1;
      }
      return None;
    }

    /** `phUwb_gki_dele_timer_from_pool`. */
    method DeleTimer(id: u32)
      requires State().Valid()
      modifies this, info
      ensures State() == DeleTimerStep(old(State()), id)
      ensures osCalls == old(osCalls) && sent == old(sent)
    {
      ghost var s := State();
      var pos := FindPosition(id);
      if pos < activeCnt {
        if pos + 1 < activeCnt {
          ShiftDown(pos);
          ShiftedLayout(info[..], s.info, pos, s.cnt);
        } else {
          info[pos] := info[pos].(timerId := 0);
        }
        activeCnt := activeCnt - 1;
      }
    }

    /** The search loop of `dele_timer_from_pool`. */
    method FindPosition(id: u32) returns (pos: nat)
      requires State().Valid()
      ensures pos == Position(State(), id)
    {
      pos := 0;
      while pos < activeCnt && info[pos].timerId != id
        invariant pos <= activeCnt
        invariant FindTimer(info[..], id, activeCnt, pos) == Position(State(), id)
        decreases activeCnt - pos
      {
        pos := pos + 1;
      }
    }

    /** The move loop of `dele_timer_from_pool`: entries `pos+1..cnt-1` go
        down one place. */
    method ShiftDown(pos: nat)
      requires pos + 1 < activeCnt <= info.Length
      modifies info
      ensures forall k :: 0 <= k < pos ==> info[k] == old(info[k])
      ensures forall k :: pos <= k < activeCnt - 1 ==> info[k] == old(info[k + 1])
      ensures forall k :: activeCnt - 1 <= k < info.Length ==> info[k] == old(info[k])
    {
      var index := pos;
      while index + 1 < activeCnt
        invariant pos <= index < activeCnt
        invariant forall k :: 0 <= k < pos ==> info[k] == old(info[k])
        invariant forall k :: pos <= k < index ==> info[k] == old(info[k + 1])
        invariant forall k :: index <= k < info.Length ==> info[k] == old(info[k])
      {
        info[index] := info[index + 1];
        index := index + 1;
      }
    }

    /** The switch arm of `phUwb_GKI_start_timer` that records a created
        timer. */
    method Record(handle: u32, event: u16)
      requires State().Valid() && activeCnt < info.Length
      modifies this, info
      ensures State() == StartTimerStep(old(State()), handle, event)
      ensures osCalls == old(osCalls) && sent == old(sent)
    {
      if handle != PH_OSALUWB_TIMER_ID_INVALID {
        info[activeCnt] := TimerInfo(handle, event);
        activeCnt := activeCnt + 1;
      }
    }

    /** `uci_timer_callback` / `quick_timer_callback`: an expired timer
        found in the pool is stopped, its event posted, and it is deleted;
        an unknown id is ignored. */
    method Expire(id: u32)
      requires State().Valid()
      modifies this, info
      ensures MsgFromPool(old(State()), id).None? ==> State() == old(State()) && osCalls == old(osCalls) && sent == old(sent)
      ensures MsgFromPool(old(State()), id).Some? ==>
                State() == DeleTimerStep(old(State()), id) && osCalls == old(osCalls) + [id] &&
                sent == old(sent) + [MsgFromPool(old(State()), id).value]
    {
      var event := GetMsgFromPool(id);
      if event.Some? {
        osCalls := osCalls + [id];
        sent := sent + [event.value];
        DeleTimer(id);
      }
    }

    /** `phUwb_GKI_stop_timer` on this pool with a nonzero id: only while
        some timer is active. */
    method StopOne(id: u32)
      requires State().Valid()
      modifies this, info
      ensures old(activeCnt) == 0 ==> State() == old(State()) && osCalls == old(osCalls)
      ensures old(activeCnt) > 0 ==> State() == DeleTimerStep(old(State()), id) && osCalls == old(osCalls) + [id]
      ensures sent == old(sent)
    {
      if activeCnt > 0 && activeCnt <= info.Length {
        osCalls := osCalls + [id];
        DeleTimer(id);
      }
    }

    /** One turn of the stop-all loop: the id at `index` is stopped and
        deleted from the pool. */
    method StopEntry(index: nat) returns (id: u32)
      requires State().Valid() && index < info.Length
      modifies this, info
      ensures id == old(info[index].timerId)
      ensures State() == DeleTimerStep(old(State()), id)
      ensures osCalls == old(osCalls) + [id] && sent == old(sent)
    {
      id := info[index].timerId;
      osCalls := osCalls + [id];
      DeleTimer(id);
    }

    /** `phUwb_GKI_stop_timer` on this pool with id 0, as written. */
    method StopAll()
      requires State().Valid()
      modifies this, info
      ensures State() == StopAllFrom(old(State()), 0, old(activeCnt), []).s
      ensures osCalls == old(osCalls) + StopAllFrom(old(State()), 0, old(activeCnt), []).calls
      ensures sent == old(sent)
    {
      var tempCnt := activeCnt;
      var index := 0;
      ghost var calls: seq<u32> := [];
      ghost var target := StopAllFrom(State(), 0, tempCnt, []);
      while index < tempCnt
        invariant index <= tempCnt <= info.Length && State().Valid()
        invariant sent == old(sent) && osCalls == old(osCalls) + calls
        invariant StopAllFrom(State(), index, tempCnt, calls) == target
      {
        ghost var st := State();
        StopAllUnfold(st, index, tempCnt, calls);
        var id := StopEntry(index);
        assert State() == DeleTimerStep(st, id);
        calls := calls + [id];
        index := index + 1;
      }
      assert StopAllFrom(State(), index, tempCnt, calls) == Stopped(State(), calls);
    }
  }

  /** The GKI timer pools: TIMER_0 uses the UCI pool, TIMER_1 the quick
      pool; the UFA pool (TIMER_2) has size 0 and is compiled out. */
  class GkiTimers {
    const uci: TimerPool
    const quick: TimerPool

    ghost predicate Valid()
      reads this, uci, quick, uci.info, quick.info
    {
      uci != quick && uci.info != quick.info &&
      uci.info.Length == MAX_UCI_POOL_SIZE && quick.info.Length == MAX_QUICK_POOL_SIZE &&
      uci.State().Valid() && quick.State().Valid()
    }

    constructor()
      ensures Valid() && fresh(uci) && fresh(quick) && fresh(uci.info) && fresh(quick.info)
      ensures uci.activeCnt == 0 && quick.activeCnt == 0
    {
      uci := new TimerPool(MAX_UCI_POOL_SIZE);
      quick := new TimerPool(MAX_QUICK_POOL_SIZE);
    }

    /** `phUwb_GKI_start_timer` given the id `phOsalUwb_Timer_Create`
        answered: TIMER_0 and TIMER_1 record it in their pool; any other
        timer number has no callback and no pool, so nothing is recorded.
        The id is answered in every case. */
    method StartTimer(tnum: u8, handle: u32, event: u16) returns (r: u32)
      requires Valid()
      requires tnum == TIMER_0 ==> uci.activeCnt < MAX_UCI_POOL_SIZE
      requires tnum == TIMER_1 ==> quick.activeCnt < MAX_QUICK_POOL_SIZE
      modifies uci, uci.info, quick, quick.info
      ensures Valid() && r == handle
      ensures tnum == TIMER_0 ==> uci.State() == StartTimerStep(old(uci.State()), handle, event)
      ensures tnum == TIMER_1 ==> quick.State() == StartTimerStep(old(quick.State()), handle, event)
      ensures tnum != TIMER_0 ==> uci.State() == old(uci.State())
      ensures tnum != TIMER_1 ==> quick.State() == old(quick.State())
      ensures uci.osCalls == old(uci.osCalls) && quick.osCalls == old(quick.osCalls)
    {
      if tnum == TIMER_0 {
        uci.Record(handle, event);
      } else if tnum == TIMER_1 {
        quick.Record(handle, event);
      }
      r := handle;
    }

    /** `phUwb_GKI_stop_timer`: an unknown timer number does nothing; id 0
        stops the whole pool, any other id that one timer, and only while
        the pool has an active timer. */
    method StopTimer(tnum: u8, timerId: u32)
      requires Valid()
      modifies uci, uci.info, quick, quick.info
      ensures Valid()
      ensures tnum == TIMER_0 && timerId == 0 ==>
                uci.State() == StopAllFrom(old(uci.State()), 0, old(uci.activeCnt), []).s &&
                uci.osCalls == old(uci.osCalls) + StopAllFrom(old(uci.State()), 0, old(uci.activeCnt), []).calls
      ensures tnum == TIMER_0 && timerId != 0 && old(uci.activeCnt) > 0 ==>
                uci.State() == DeleTimerStep(old(uci.State()), timerId) && uci.osCalls == old(uci.osCalls) + [timerId]
      ensures tnum == TIMER_0 && timerId != 0 && old(uci.activeCnt) == 0 ==> uci.State() == old(uci.State()) && uci.osCalls == old(uci.osCalls)
      ensures tnum == TIMER_1 && timerId == 0 ==>
                quick.State() == StopAllFrom(old(quick.State()), 0, old(quick.activeCnt), []).s &&
                quick.osCalls == old(quick.osCalls) + StopAllFrom(old(quick.State()), 0, old(quick.activeCnt), []).calls
      ensures tnum == TIMER_1 && timerId != 0 && old(quick.activeCnt) > 0 ==>
                quick.State() == DeleTimerStep(old(quick.State()), timerId) && quick.osCalls == old(quick.osCalls) + [timerId]
      ensures tnum == TIMER_1 && timerId != 0 && old(quick.activeCnt) == 0 ==> quick.State() == old(quick.State()) && quick.osCalls == old(quick.osCalls)
      ensures tnum != TIMER_0 ==> uci.State() == old(uci.State()) && uci.osCalls == old(uci.osCalls)
      ensures tnum != TIMER_1 ==> quick.State() == old(quick.State()) && quick.osCalls == old(quick.osCalls)
    {
      var pool: TimerPool;
      if tnum == TIMER_0 {
        pool := uci;
      } else if tnum == TIMER_1 {
        pool := quick;
      } else {
        return;
      }
      if timerId != 0 {
        pool.StopOne(timerId);
      } else {
        pool.StopAll();
      }
    }
  }

  /** `TIMER_LIST_Q`: the chain of timer list entries from `p_first` to
      `p_last`, and the ticks of the last one. */
  class TimerListQ {
    var entries: seq<nat>
    var lastTicks: int

    constructor(entries: seq<nat>, lastTicks: int)
      ensures this.entries == entries && this.lastTicks == lastTicks
    {
      this.entries, this.lastTicks := entries, lastTicks;
    }

    /** `phUwb_GKI_init_timer_list`: no first and no last entry, and no
        ticks. */
    method Init()
      modifies this
      ensures entries == [] && lastTicks == 0
    {
      entries := [];
      lastTicks := 0;
    }
  }
}
