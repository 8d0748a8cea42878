// The tracker's TLV manager: it dispatches each received TLV to its handler
// and sends the response, and it shuts the UWB middleware down step by step
// from whatever state the handlers left it in.
module TlvMng {
  import opened Bytes
  import opened TlvBuilder
  import opened GpioHandler
  import opened UwbConfigHandler

  // The TLV types of requests and responses.
  const SESSION_MANAGEMENT: u8 := 0x01
  const CONFIG_MANAGEMENT: u8 := 0x02
  const RANGE_MANAGEMENT: u8 := 0x03
  const UWB_MISC: u8 := 0x06
  const UWB_NTF_MANAGEMENT: u8 := 0x08
  const UWB_SETUP_MANAGEMENT: u8 := 0x09
  const UI_CMD: u8 := 0x40
  const UI_RSP: u8 := 0x41
  const CONFIG_DEVICE_CMD: u8 := 0x50
  const TLV_TYPE_END: u8 := 0x52

  const UWBAPI_STATUS_OK: u8 := 0x00
  /** The status a shutdown may report although the middleware is down. */
  const SHUTDOWN_STATUS_ACCEPTED: u8 := 0xE0

  // ---------------------------------------------------------------------
  // Shutting down

  /** `UwbHandlerState`. */
  datatype HandlerState = Uninit | Init | SessionCreated | Ranging

  /** The middleware calls a shutdown makes. */
  datatype ApiCall = ShutDown | SessionDeinit(sessionId: u32) | StopRangingSession(sessionId: u32)

  /** How many steps a state is from `Uninit`. */
  function Rank(s: HandlerState): nat
  {
    match s
    case Uninit => 0
    case Init => 1
    case SessionCreated => 2
    case Ranging => 3
  }

  /** Whether a call's status lets the shutdown go on: success, and for the
      shutdown itself also 0xE0. */
  predicate Accepted(call: ApiCall, status: u8)
  {
    status == UWBAPI_STATUS_OK || (call.ShutDown? && status == SHUTDOWN_STATUS_ACCEPTED)
  }

  /** The calls that take a state down to `Uninit`, in order. */
  function PathCalls(s: HandlerState, sessionId: u32): (calls: seq<ApiCall>)
    ensures |calls| == Rank(s)
  {
    match s
    case Uninit => []
    case Init => [ShutDown]
    case SessionCreated => [SessionDeinit(sessionId), ShutDown]
    case Ranging => [StopRangingSession(sessionId), SessionDeinit(sessionId), ShutDown]
  }

  /** The state below a state that is not `Uninit`. */
  function Below(s: HandlerState): (r: HandlerState)
    requires s != Uninit
    ensures Rank(r) + 1 == Rank(s)
  {
    match s
    case Init => Uninit
    case SessionCreated => Init
    case Ranging => SessionCreated
  }

  /** The call a state that is not `Uninit` steps down with. */
  function StepCall(s: HandlerState, sessionId: u32): (c: ApiCall)
    requires s != Uninit
    ensures PathCalls(s, sessionId) == [c] + PathCalls(Below(s), sessionId)
  {
    match s
    case Init => ShutDown
    case SessionCreated => SessionDeinit(sessionId)
    case Ranging => StopRangingSession(sessionId)
  }

  /** The state a shutdown from `s` ends in and the calls it makes, when
      the middleware answers call `c` with `api(c)`: each accepted call takes
      one step down, and the first call turned down ends the shutdown where
      it is. */
  function ShutDownRun(s: HandlerState, sessionId: u32, api: ApiCall -> u8): (HandlerState, seq<ApiCall>)
    decreases Rank(s)
  {
    if s == Uninit then (Uninit, [])
    else
      var c := StepCall(s, sessionId);
      if Accepted(c, api(c)) then
        var rest := ShutDownRun(Below(s), sessionId, api);
        (rest.0, [c] + rest.1)
      else (s, [c])
  }

  /** A shutdown makes the calls of its path in order, every one but the
      last of them accepted, and makes them all when it reaches `Uninit`. */
  lemma {:induction false} ShutDownCalls(s: HandlerState, sessionId: u32, api: ApiCall -> u8)
    ensures var (final, calls) := ShutDownRun(s, sessionId, api);
      && calls <= PathCalls(s, sessionId)
      && (final == Uninit ==> calls == PathCalls(s, sessionId))
      && (forall i :: 0 <= i < |calls| - 1 ==> Accepted(calls[i], api(calls[i])))
    decreases Rank(s)
  {
    if s != Uninit {
      var c := StepCall(s, sessionId);
      if Accepted(c, api(c)) {
        ShutDownCalls(Below(s), sessionId, api);
        var rest := ShutDownRun(Below(s), sessionId, api);
        assert ShutDownRun(s, sessionId, api).1 == [c] + rest.1;
      }
    }
  }

  /** A shutdown reaches `Uninit` exactly when the middleware accepts every
      call of the path. */
  lemma {:induction false} ShutDownReachesUninit(s: HandlerState, sessionId: u32, api: ApiCall -> u8)
    ensures ShutDownRun(s, sessionId, api).0 == Uninit
            <==> forall c :: c in PathCalls(s, sessionId) ==> Accepted(c, api(c))
    decreases Rank(s)
  {
    if s != Uninit {
      var c := StepCall(s, sessionId);
      assert c in PathCalls(s, sessionId);
      if Accepted(c, api(c)) {
        ShutDownReachesUninit(Below(s), sessionId, api);
      }
    }
  }

  /** A shutdown that does not reach `Uninit` stops at a refused call, in the
      state that call was made from, with what is left of the path still to
      do from there. */
  lemma {:induction false} ShutDownStops(s: HandlerState, sessionId: u32, api: ApiCall -> u8)
    ensures var (final, calls) := ShutDownRun(s, sessionId, api);
      final != Uninit ==>
        && calls != [] && !Accepted(calls[|calls| - 1], api(calls[|calls| - 1]))
        && Rank(final) + |calls| == Rank(s) + 1
        && calls[..|calls| - 1] + PathCalls(final, sessionId) == PathCalls(s, sessionId)
    decreases Rank(s)
  {
    if s != Uninit {
      var c := StepCall(s, sessionId);
      if Accepted(c, api(c)) {
        ShutDownStops(Below(s), sessionId, api);
        var rest := ShutDownRun(Below(s), sessionId, api);
        if rest.0 != Uninit {
          assert ([c] + rest.1)[..|rest.1|] == [c] + rest.1[..|rest.1| - 1];
        }
      }
    }
  }

  /** A shutdown retried after a refusal picks up where the first one
      stopped: when the middleware accepts what is left, the calls of the two
      runs, less the refused one, are the path's calls exactly once each. */
  lemma RetryResumes(s: HandlerState, sessionId: u32, api1: ApiCall -> u8, api2: ApiCall -> u8)
    requires ShutDownRun(s, sessionId, api1).0 != Uninit
    requires forall c :: c in PathCalls(ShutDownRun(s, sessionId, api1).0, sessionId) ==> Accepted(c, api2(c))
    ensures var (stopped, calls1) := ShutDownRun(s, sessionId, api1);
      var (final, calls2) := ShutDownRun(stopped, sessionId, api2);
      final == Uninit && calls1[..|calls1| - 1] + calls2 == PathCalls(s, sessionId)
  {
    ShutDownStops(s, sessionId, api1);
    ShutDownReachesUninit(ShutDownRun(s, sessionId, api1).0, sessionId, api2);
    ShutDownCalls(ShutDownRun(s, sessionId, api1).0, sessionId, api2);
  }

  /** One turn of the shutdown loop: the run from `s0` that has made
      `callsBefore` and reached `before` goes on with the step call, then
      either from the state below or not at all. */
  lemma ShutDownStep(s0: HandlerState, before: HandlerState, sessionId: u32, api: ApiCall -> u8, callsBefore: seq<ApiCall>)
    requires before != Uninit
    requires ShutDownRun(s0, sessionId, api)
             == (ShutDownRun(before, sessionId, api).0, callsBefore + ShutDownRun(before, sessionId, api).1)
    ensures var c := StepCall(before, sessionId);
      var rest := ShutDownRun(Below(before), sessionId, api);
      && (Accepted(c, api(c)) ==> ShutDownRun(s0, sessionId, api) == (rest.0, callsBefore + [c] + rest.1))
      && (!Accepted(c, api(c)) ==> ShutDownRun(s0, sessionId, api) == (before, callsBefore + [c]))
  {
    var c := StepCall(before, sessionId);
    var rest := ShutDownRun(Below(before), sessionId, api);
    ShutDownUnfold(before, sessionId, api);
    if Accepted(c, api(c)) {
      assert callsBefore + ([c] + rest.1) == callsBefore + [c] + rest.1;
    }
  }

  /** Helper: one step of the shutdown run. */
  lemma ShutDownUnfold(s: HandlerState, sessionId: u32, api: ApiCall -> u8)
    requires s != Uninit
    ensures var c := StepCall(s, sessionId);
      var rest := ShutDownRun(Below(s), sessionId, api);
      ShutDownRun(s, sessionId, api) == if Accepted(c, api(c)) then (rest.0, [c] + rest.1) else (s, [c])
  {
  }

  /** The handlers' shared state: where the middleware is and the session
      they work on. */
  class TlvManager {
    var mState: HandlerState
    var mSessionId: u32

    constructor ()
      ensures mState == Uninit
    {
      mState := Uninit;
      mSessionId := 0;
    }

    /** `handleShutDown`: `api(c)` is the middleware's status for call `c`
        (each call is made at most once). Returns the calls made. */
    method HandleShutDown(api: ApiCall -> u8) returns (calls: seq<ApiCall>)
      modifies this
      ensures mSessionId == old(mSessionId)
      ensures (mState, calls) == ShutDownRun(old(mState), mSessionId, api)
    {
      var status := true;
      calls := [];
      assert calls + ShutDownRun(mState, mSessionId, api).1 == ShutDownRun(mState, mSessionId, api).1;
      while mState != Uninit && status
        invariant mSessionId == old(mSessionId)
        invariant status ==> ShutDownRun(old(mState), mSessionId, api)
                             == (ShutDownRun(mState, mSessionId, api).0, calls + ShutDownRun(mState, mSessionId, api).1)
        invariant !status ==> (mState, calls) == ShutDownRun(old(mState), mSessionId, api)
        decreases Rank(mState) + (if status then 1 else 0)
      {
        ghost var before := mState;
        ghost var callsBefore := calls;
        match mState {
          case Init =>
            var operation := api(ShutDown);
            calls := calls + [ShutDown];
            if operation == UWBAPI_STATUS_OK || operation == SHUTDOWN_STATUS_ACCEPTED {
              mState := Uninit;
            } else {
              status := false;
            }
          case SessionCreated =>
            var operation := api(SessionDeinit(mSessionId));
            calls := calls + [SessionDeinit(mSessionId)];
            if operation == UWBAPI_STATUS_OK {
              mState := Init;
            } else {
              status := false;
            }
          case Ranging =>
            var operation := api(StopRangingSession(mSessionId));
            calls := calls + [StopRangingSession(mSessionId)];
            if operation == UWBAPI_STATUS_OK {
              mState := SessionCreated;
            } else {
              status := false;
            }
        }
        ShutDownStep(old(mState), before, mSessionId, api, callsBefore);
      }
      if status {
        assert calls + ShutDownRun(mState, mSessionId, api).1 == calls;
      }
    }
  }

  // ---------------------------------------------------------------------
  // Handling a TLV

  /** What a middleware handler (session, configuration, ranging, misc,
      notification or setup) leaves for the response: its type and its
      payload. */
  datatype SubResponse = SubResponse(respTagType: u8, payload: seq<u8>)

  /** The request types whose middleware handler is built in. */
  predicate HasSubHandler(tlvType: u8)
  {
    tlvType in {SESSION_MANAGEMENT, CONFIG_MANAGEMENT, RANGE_MANAGEMENT, UWB_MISC,
                UWB_NTF_MANAGEMENT, UWB_SETUP_MANAGEMENT}
  }

  /** The response to a request of a middleware type (up to
      `UWB_SETUP_MANAGEMENT`): the handler's type, or `TLV_TYPE_END` when
      none handles it, then the request's subtype and the handler's payload.
      A response over 64 bytes is dropped down to an empty value. */
  function MiddlewareResponse(tlvType: u8, subtype: u8, sub: SubResponse): (t: Tlv)
  {
    if HasSubHandler(tlvType) then Tlv(sub.respTagType, AddAll([], [[subtype], sub.payload]))
    else Tlv(TLV_TYPE_END, AddAll([], [[subtype], []]))
  }

  /** A middleware response carries the request's subtype first, then the
      payload, as long as the two fit; a request no handler takes is
      answered by `TLV_TYPE_END` and its subtype alone. */
  lemma MiddlewareResponseLayout(tlvType: u8, subtype: u8, sub: SubResponse)
    ensures HasSubHandler(tlvType) && 1 + |sub.payload| <= MAX_RSP_LEN ==>
      MiddlewareResponse(tlvType, subtype, sub) == Tlv(sub.respTagType, [subtype] + sub.payload)
    ensures HasSubHandler(tlvType) && 1 + |sub.payload| > MAX_RSP_LEN ==>
      MiddlewareResponse(tlvType, subtype, sub) == Tlv(sub.respTagType, [])
    ensures !HasSubHandler(tlvType) ==> MiddlewareResponse(tlvType, subtype, sub) == Tlv(TLV_TYPE_END, [subtype])
  {
    AddTwo([], [subtype], sub.payload);
    AddTwo([], [subtype], []);
  }

  /** `handleTLV`: the request `t` comes from the BLE link; `stale` is the
      byte read as the subtype of an empty value; `sub` is what the
      middleware handler of its type answers; `writeOk`, `storedName` and
      `storedInterval` are the configuration store's; `sendOk` is whether
      the link takes the response. Returns the frame sent. */
  method HandleTlv(b: Builder, gpio: GpioBank, t: Tlv, stale: u8, sub: SubResponse,
                   writeOk: bool, storedName: seq<u8>, storedInterval: u32, sendOk: bool)
    returns (ok: bool, sent: Option<seq<u8>>)
    requires b.Valid() && gpio.Valid() && |sub.payload| < 0x1_0000 && |storedName| < 0x1_0000
    modifies b, b.mTlv, gpio
    ensures b.Valid() && gpio.Valid() && ok == sendOk
    ensures sent == Some(Frame(Tlv(b.mTlv[0], b.Value())))
    ensures var subtype := if |t.value| > 0 then t.value[0] else stale;
      && (t.tlvType <= UWB_SETUP_MANAGEMENT ==>
            Tlv(b.mTlv[0], b.Value()) == MiddlewareResponse(t.tlvType, subtype, sub))
      && (t.tlvType == UI_CMD ==>
            && b.mTlv[0] == UI_RSP
            && b.Value() == (if subtype == GET_GPIO_STATE && |t.value| == 5
                             then AddAll([], [[1], ToBE32(ReadPins(gpio.level, WordAt(t.value, 1), PIN_COUNT))])
                             else AddAll([], [[if UiRequestOk(subtype, |t.value|) then 1 else 0]])))
      && (t.tlvType == CONFIG_DEVICE_CMD ==>
            Tlv(b.mTlv[0], b.Value()) == Tlv(CONFIG_DEVICE_CMD, AddAll([], ConfigFields(subtype, t.value, writeOk, storedName, storedInterval))))
      && (t.tlvType > UWB_SETUP_MANAGEMENT && t.tlvType != UI_CMD && t.tlvType != CONFIG_DEVICE_CMD ==>
            b.mTlv[0] == old(b.mTlv[0]) && b.Value() == old(b.Value()))
    ensures t.tlvType != UI_CMD ==> gpio.level == old(gpio.level) && gpio.flash == old(gpio.flash)
  {
    var subtype := if |t.value| > 0 then t.value[0] else stale;
    var respTagType := TLV_TYPE_END;
    var respPayload: seq<u8> := [];
    if HasSubHandler(t.tlvType) {
      respTagType := sub.respTagType;
      respPayload := sub.payload;
    } else if t.tlvType == UI_CMD {
      var _ := b.TlvStart(UI_RSP);
      var _ := gpio.HandleUiCmd(b, t.value, stale);
    } else if t.tlvType == CONFIG_DEVICE_CMD {
      var _ := b.TlvStart(CONFIG_DEVICE_CMD);
      var _, _ := HandleConfigCmd(b, t.value, stale, writeOk, storedName, storedInterval);
    }
    if t.tlvType <= UWB_SETUP_MANAGEMENT {
      var _ := b.TlvStart(respTagType);
      var _ := b.TlvAddU8(subtype);
      var _ := b.TlvAddPtr(respPayload);
      AddTwo([], [subtype], respPayload);
    }
    ok, sent := b.TlvSend(Ble, sendOk);
  }
}
