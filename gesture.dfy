/**
 * The gesture semantics of koboInput.py's `_readPacket` and `_getSwipeDirection`, as pure
 * functions over values. `TouchInput.KoboInput.ReadPacket` is the imperative counterpart
 * and is proved to compute `ReadPacketSpec`; the lemmas here state what that means.
 *
 * Listener invocation is recorded rather than performed: a packet yields the sequence of
 * calls `func(args)` in the order the source makes them.
 */
module Gesture {
  import opened Wrappers
  import opened Events

  datatype Direction = Left | Right | Up | Down

  /** An opaque listener function, compared by identity as Python's `!=` compares functions. */
  datatype Callback = Callback(id: nat)

  /** The six listener lists of `KoboInput`. */
  datatype Kind = TouchStart | TouchEnd | Tap | HoldEnd | TouchMove | Swipe

  datatype Args =
    | At(x: int, y: int)
    | Held(x: int, y: int, heldMs: int)
    | Swiped(direction: Direction, startX: int, startY: int, x: int, y: int)

  /** One listener invocation, made from the list of `kind`. */
  datatype Call = Call(kind: Kind, func: Callback, args: Args)

  /** The persistent touch fields of `KoboInput` that `_readPacket` reads and writes. */
  datatype TouchState = TouchState(
    isTouching: bool, touchStartTime: int,
    currentX: int, currentY: int, touchStartX: int, touchStartY: int)

  /** The configuration fields of `KoboInput` that `_readPacket` reads. */
  datatype Settings = Settings(holdDelayMs: int, swipeDeadZone: int, viewWidth: int)

  /** The six listener lists, in registration order. */
  datatype Listeners = Listeners(
    onTouchStart: seq<Callback>, onTouchEnd: seq<Callback>, onTap: seq<Callback>,
    onHoldEnd: seq<Callback>, onTouchMove: seq<Callback>, onSwipe: seq<Callback>)

  function Abs(n: int): nat { if n < 0 then -n else n }

  function Max(a: int, b: int): int { if a < b then b else a }

  /**
   * `_getSwipeDirection`: no direction while the dominant-axis delta is below the dead zone
   * (a delta equal to it is a swipe); horizontal only when |dx| > |dy| strictly, so ties
   * go vertical; Right/Down when the coordinate grew, Left/Up otherwise.
   */
  function SwipeDirection(touchStartX: int, touchStartY: int, currentX: int, currentY: int, swipeDeadZone: int)
    : (r: Option<Direction>)
    ensures var dx, dy := touchStartX - currentX, touchStartY - currentY;
      && (r.None? <==> Max(Abs(dx), Abs(dy)) < swipeDeadZone)
      && (r.Some? ==> ((r.value == Left || r.value == Right) <==> Abs(dx) > Abs(dy)))
      && (r == Some(Right) || r == Some(Left) ==> (r == Some(Right) <==> touchStartX < currentX))
      && (r == Some(Down) || r == Some(Up) ==> (r == Some(Down) <==> touchStartY < currentY))
  {
    var xDiff := touchStartX - currentX;
    var yDiff := touchStartY - currentY;
    if Abs(xDiff) > Abs(yDiff) then
      if Abs(xDiff) < swipeDeadZone then None
      else if xDiff < 0 then Some(Right)
      else Some(Left)
    else
      if Abs(yDiff) < swipeDeadZone then None
      else if yDiff < 0 then Some(Down)
      else Some(Up)
  }

  /** A dominant-axis delta one below the dead zone is no swipe; exactly the dead zone is one. */
  lemma SwipeBoundary(startX: int, startY: int, deadZone: int)
    ensures SwipeDirection(startX, startY, startX + deadZone - 1, startY, deadZone).None?
      || deadZone - 1 < 0
    ensures deadZone > 0 ==> SwipeDirection(startX, startY, startX + deadZone, startY, deadZone) == Some(Right)
    ensures deadZone > 0 ==> SwipeDirection(startX, startY, startX, startY - deadZone, deadZone) == Some(Up)
  {
  }

  /** `for func in funcs: func(*args)` for the list of `kind`. */
  function Invoke(kind: Kind, funcs: seq<Callback>, args: Args): seq<Call>
  {
    seq(|funcs|, i requires 0 <= i < |funcs| => Call(kind, funcs[i], args))
  }

  /** The locals of `_readPacket`'s event loop together with the two fields it writes. */
  datatype Scan = Scan(
    x: Option<int>, y: Option<int>, touchStart: bool, touchEnd: bool, moveUpdated: bool,
    isTouching: bool, touchStartTime: int)

  /** One iteration of `_readPacket`'s event loop. */
  function ScanEvent(s: Scan, e: Event, nowMs: int): Scan
  {
    var s1 :=
      if e.eventType == EV_KEY && e.code == BTN_TOUCH then
        if e.value == 1 && !s.isTouching then s.(touchStart := true, isTouching := true, touchStartTime := nowMs)
        else if e.value == 0 && s.isTouching then s.(touchEnd := true, isTouching := false)
        else s
      else s;
    if e.eventType == EV_ABS then
      var s2 := if e.code == ABS_MT_POSITION_X then s1.(moveUpdated := true, x := Some(e.value)) else s1;
      if e.code == ABS_MT_POSITION_Y then s2.(moveUpdated := true, y := Some(e.value)) else s2
    else s1
  }

  /** The event loop over the whole packet, from `start`. */
  function ScanPacket(packet: seq<Event>, start: Scan, nowMs: int): Scan
    decreases |packet|
  {
    if packet == [] then start
    else ScanEvent(ScanPacket(packet[..|packet| - 1], start, nowMs), packet[|packet| - 1], nowMs)
  }

  /** The loop's starting point: no coordinates, no flags, the object's touch fields. */
  function ScanStart(st: TouchState): Scan
  {
    Scan(None, None, false, false, false, st.isTouching, st.touchStartTime)
  }

  /** Python truthiness of an `Optional[int]`: neither `None` nor `0`. */
  predicate Truthy(o: Option<int>) { o.Some? && o.value != 0 }

  /**
   * The rotation block: the raw X becomes screen Y, `viewWidth - rawY + 1` becomes screen X,
   * and each is written only when it is truthy.
   */
  function Rotate(st: TouchState, viewWidth: int, x: Option<int>, y: Option<int>): TouchState
  {
    var translatedY := if Truthy(x) then x else None;
    var translatedX := if Truthy(y) then Some(viewWidth - y.value + 1) else None;
    st.(currentY := if Truthy(translatedY) then translatedY.value else st.currentY,
        currentX := if Truthy(translatedX) then translatedX.value else st.currentX)
  }

  /** The calls made on a touch-end: TouchEnd, then Tap or HoldEnd, then Swipe if any. */
  function EndCalls(st: TouchState, settings: Settings, ls: Listeners, nowMs: int): seq<Call>
  {
    var timeDiff := nowMs - st.touchStartTime;
    var at := At(st.currentX, st.currentY);
    Invoke(TouchEnd, ls.onTouchEnd, at)
    + (if timeDiff < settings.holdDelayMs then Invoke(Tap, ls.onTap, at)
       else Invoke(HoldEnd, ls.onHoldEnd, Held(st.currentX, st.currentY, timeDiff)))
    + match SwipeDirection(st.touchStartX, st.touchStartY, st.currentX, st.currentY, settings.swipeDeadZone)
      case None => []
      case Some(d) => Invoke(Swipe, ls.onSwipe, Swiped(d, st.touchStartX, st.touchStartY, st.currentX, st.currentY))
  }

  datatype Outcome = Outcome(state: TouchState, calls: seq<Call>)

  /** `_readPacket` on values: the new touch fields and the listener calls, in order. */
  function ReadPacketSpec(st: TouchState, settings: Settings, ls: Listeners, packet: seq<Event>, nowMs: int): Outcome
  {
    var sc := ScanPacket(packet, ScanStart(st), nowMs);
    var st1 := Rotate(st.(isTouching := sc.isTouching, touchStartTime := sc.touchStartTime), settings.viewWidth, sc.x, sc.y);
    var st2 := if sc.touchStart then st1.(touchStartX := st1.currentX, touchStartY := st1.currentY) else st1;
    Outcome(st2, PacketCalls(st2, settings, ls, sc.touchStart, sc.touchEnd, sc.moveUpdated, nowMs))
  }

  /**
   * The listener calls made once the touch fields are up to date: TouchStart, then the
   * touch-end calls, then TouchMove, each when its flag is set.
   */
  function PacketCalls(st: TouchState, settings: Settings, ls: Listeners,
                       touchStart: bool, touchEnd: bool, moveUpdated: bool, nowMs: int): seq<Call>
  {
    (if touchStart then Invoke(TouchStart, ls.onTouchStart, At(st.currentX, st.currentY)) else [])
    + (if touchEnd then EndCalls(st, settings, ls, nowMs) else [])
    + (if moveUpdated then Invoke(TouchMove, ls.onTouchMove, At(st.currentX, st.currentY)) else [])
  }

  // ---------------------------------------------------------------------------
  // What the scan extracts from a packet

  /** The value of the last EV_ABS event with `code`, if any. */
  function LastAbs(packet: seq<Event>, code: int): (r: Option<int>)
    decreases |packet|
  {
    if packet == [] then None
    else if packet[|packet| - 1].eventType == EV_ABS && packet[|packet| - 1].code == code then Some(packet[|packet| - 1].value)
    else LastAbs(packet[..|packet| - 1], code)
  }

  predicate IsPosition(e: Event)
  {
    e.eventType == EV_ABS && (e.code == ABS_MT_POSITION_X || e.code == ABS_MT_POSITION_Y)
  }

  predicate IsTouchDown(e: Event) { e.eventType == EV_KEY && e.code == BTN_TOUCH && e.value == 1 }

  predicate IsTouchUp(e: Event) { e.eventType == EV_KEY && e.code == BTN_TOUCH && e.value == 0 }

  /**
   * The loop keeps the last multi-touch X and Y of the packet (single-touch ABS_X/ABS_Y are
   * not looked at), and `moveUpdated` holds exactly when the packet has a position event.
   */
  lemma {:induction false} ScanPositions(packet: seq<Event>, st: TouchState, nowMs: int)
    ensures var sc := ScanPacket(packet, ScanStart(st), nowMs);
      && sc.x == LastAbs(packet, ABS_MT_POSITION_X)
      && sc.y == LastAbs(packet, ABS_MT_POSITION_Y)
      && (sc.moveUpdated <==> exists i :: 0 <= i < |packet| && IsPosition(packet[i]))
    decreases |packet|
  {
    if packet != [] {
      var init := packet[..|packet| - 1];
      ScanPositions(init, st, nowMs);
      assert forall i :: 0 <= i < |init| ==> init[i] == packet[i];
    }
  }

  /**
   * Touch-start and touch-end are flagged only by a BTN_TOUCH 1 / 0 event; every change of
   * `isTouching` is flagged; the start time is `nowMs` exactly when a start was flagged.
   */
  lemma {:induction false} ScanTransitions(packet: seq<Event>, st: TouchState, nowMs: int)
    ensures var sc := ScanPacket(packet, ScanStart(st), nowMs);
      && (sc.touchStart ==> exists i :: 0 <= i < |packet| && IsTouchDown(packet[i]))
      && (sc.touchEnd ==> exists i :: 0 <= i < |packet| && IsTouchUp(packet[i]))
      && (!st.isTouching && sc.isTouching ==> sc.touchStart)
      && (st.isTouching && !sc.isTouching ==> sc.touchEnd)
      && sc.touchStartTime == (if sc.touchStart then nowMs else st.touchStartTime)
    decreases |packet|
  {
    if packet != [] {
      var init := packet[..|packet| - 1];
      ScanTransitions(init, st, nowMs);
      assert forall i :: 0 <= i < |init| ==> init[i] == packet[i];
    }
  }

  /** A single BTN_TOUCH event: value 1 starts a touch only when idle, value 0 ends one only when touching. */
  lemma TouchButtonStep(st: TouchState, value: int, nowMs: int)
    ensures var sc := ScanPacket([Ev(EV_KEY, BTN_TOUCH, value)], ScanStart(st), nowMs);
      && (sc.touchStart <==> value == 1 && !st.isTouching)
      && (sc.touchEnd <==> value == 0 && st.isTouching)
      && sc.isTouching == (if sc.touchStart then true else if sc.touchEnd then false else st.isTouching)
  {
    assert [Ev(EV_KEY, BTN_TOUCH, value)][..0] == [];
  }

  // ---------------------------------------------------------------------------
  // What a packet does to the touch state

  /**
   * The current coordinates after a packet: screen Y is the last raw multi-touch X and
   * screen X is `viewWidth - rawY + 1`, each written only when non-zero, so a raw X of 0
   * or a raw Y of `viewWidth + 1` leaves that coordinate as it was.
   */
  lemma RotationWrites(st: TouchState, settings: Settings, ls: Listeners, packet: seq<Event>, nowMs: int)
    ensures var s := ReadPacketSpec(st, settings, ls, packet, nowMs).state;
      var rawX, rawY := LastAbs(packet, ABS_MT_POSITION_X), LastAbs(packet, ABS_MT_POSITION_Y);
      && s.currentY == (if rawX.Some? && rawX.value != 0 then rawX.value else st.currentY)
      && s.currentX == (if rawY.Some? && rawY.value != 0 && rawY.value != settings.viewWidth + 1
                        then settings.viewWidth - rawY.value + 1 else st.currentX)
  {
    ScanPositions(packet, st, nowMs);
  }

  /**
   * A flagged touch-start sets the start point to the rotated current point; otherwise the
   * start point stays, so it moves only on a packet holding a touch-down.
   */
  lemma StartPointOnlyOnStart(st: TouchState, settings: Settings, ls: Listeners, packet: seq<Event>, nowMs: int)
    ensures var s := ReadPacketSpec(st, settings, ls, packet, nowMs).state;
      var sc := ScanPacket(packet, ScanStart(st), nowMs);
      && (sc.touchStart ==> (s.touchStartX, s.touchStartY) == (s.currentX, s.currentY))
      && (!sc.touchStart ==> (s.touchStartX, s.touchStartY) == (st.touchStartX, st.touchStartY))
      && ((s.touchStartX, s.touchStartY) != (st.touchStartX, st.touchStartY) ==>
            exists i :: 0 <= i < |packet| && IsTouchDown(packet[i]))
  {
    ScanTransitions(packet, st, nowMs);
  }

  /** The order in which the source dispatches the lists. */
  function Rank(k: Kind): nat
  {
    match k
    case TouchStart => 0
    case TouchEnd => 1
    case Tap => 2
    case HoldEnd => 2
    case Swipe => 3
    case TouchMove => 4
  }

  predicate Ordered(calls: seq<Call>)
  {
    forall i, j :: 0 <= i < j < |calls| ==> Rank(calls[i].kind) <= Rank(calls[j].kind)
  }

  predicate AllRank(calls: seq<Call>, r: nat)
  {
    forall i :: 0 <= i < |calls| ==> Rank(calls[i].kind) == r
  }

  lemma OrderedAppend(a: seq<Call>, b: seq<Call>)
    requires Ordered(a) && Ordered(b)
    requires forall i, j :: 0 <= i < |a| && 0 <= j < |b| ==> Rank(a[i].kind) <= Rank(b[j].kind)
    ensures Ordered(a + b)
  {
    forall i, j | 0 <= i < j < |a + b| ensures Rank((a + b)[i].kind) <= Rank((a + b)[j].kind) {
      if j < |a| {
      } else if i >= |a| {
        assert (a + b)[i] == b[i - |a|] && (a + b)[j] == b[j - |a|];
      } else {
        assert (a + b)[i] == a[i] && (a + b)[j] == b[j - |a|];
      }
    }
  }

  predicate HasKind(calls: seq<Call>, k: Kind)
  {
    exists i :: 0 <= i < |calls| && calls[i].kind == k
  }

  /** The kinds present in a concatenation are those of its parts. */
  lemma HasKindAppend(a: seq<Call>, b: seq<Call>, k: Kind)
    ensures HasKind(a + b, k) <==> HasKind(a, k) || HasKind(b, k)
  {
    if HasKind(a + b, k) {
      var i :| 0 <= i < |a + b| && (a + b)[i].kind == k;
      if i >= |a| { assert b[i - |a|].kind == k; }
    }
    if HasKind(a, k) {
      var i :| 0 <= i < |a| && a[i].kind == k;
      assert (a + b)[i].kind == k;
    }
    if HasKind(b, k) {
      var i :| 0 <= i < |b| && b[i].kind == k;
      assert (a + b)[|a| + i].kind == k;
    }
  }

  lemma EndCallsOrdered(st: TouchState, settings: Settings, ls: Listeners, nowMs: int)
    ensures Ordered(EndCalls(st, settings, ls, nowMs))
    ensures forall i :: 0 <= i < |EndCalls(st, settings, ls, nowMs)| ==>
      1 <= Rank(EndCalls(st, settings, ls, nowMs)[i].kind) <= 3
  {
    var timeDiff := nowMs - st.touchStartTime;
    var at := At(st.currentX, st.currentY);
    var e := Invoke(TouchEnd, ls.onTouchEnd, at);
    var th := if timeDiff < settings.holdDelayMs then Invoke(Tap, ls.onTap, at)
      else Invoke(HoldEnd, ls.onHoldEnd, Held(st.currentX, st.currentY, timeDiff));
    var sw: seq<Call> := match SwipeDirection(st.touchStartX, st.touchStartY, st.currentX, st.currentY, settings.swipeDeadZone)
      case None => []
      case Some(d) => Invoke(Swipe, ls.onSwipe, Swiped(d, st.touchStartX, st.touchStartY, st.currentX, st.currentY));
    assert EndCalls(st, settings, ls, nowMs) == e + th + sw;
    OrderedAppend(e, th);
    OrderedAppend(e + th, sw);
  }

  /**
   * Dispatch order within one packet: TouchStart listeners, then TouchEnd, then Tap or
   * HoldEnd, then Swipe, and TouchMove last.
   */
  lemma DispatchOrder(st: TouchState, settings: Settings, ls: Listeners, packet: seq<Event>, nowMs: int)
    ensures Ordered(ReadPacketSpec(st, settings, ls, packet, nowMs).calls)
  {
    var sc := ScanPacket(packet, ScanStart(st), nowMs);
    var st1 := Rotate(st.(isTouching := sc.isTouching, touchStartTime := sc.touchStartTime), settings.viewWidth, sc.x, sc.y);
    var st2 := if sc.touchStart then st1.(touchStartX := st1.currentX, touchStartY := st1.currentY) else st1;
    var a := if sc.touchStart then Invoke(TouchStart, ls.onTouchStart, At(st2.currentX, st2.currentY)) else [];
    var b := if sc.touchEnd then EndCalls(st2, settings, ls, nowMs) else [];
    var c := if sc.moveUpdated then Invoke(TouchMove, ls.onTouchMove, At(st2.currentX, st2.currentY)) else [];
    EndCallsOrdered(st2, settings, ls, nowMs);
    OrderedAppend(a, b);
    OrderedAppend(a + b, c);
  }

  /**
   * Looping over a listener list makes calls of that list's kind only, and makes some
   * exactly when the list is not empty.
   */
  lemma InvokeKinds(kind: Kind, funcs: seq<Callback>, args: Args, k: Kind)
    ensures HasKind(Invoke(kind, funcs, args), k) <==> k == kind && |funcs| > 0
  {
    if k == kind && |funcs| > 0 { assert Invoke(kind, funcs, args)[0].kind == k; }
  }

  /** Every call of kind `k` in `calls` carries `args`. */
  predicate KindArgs(calls: seq<Call>, k: Kind, args: Args)
  {
    forall i :: 0 <= i < |calls| && calls[i].kind == k ==> calls[i].args == args
  }

  lemma KindArgsAppend(a: seq<Call>, b: seq<Call>, k: Kind, args: Args)
    requires KindArgs(a, k, args) && KindArgs(b, k, args)
    ensures KindArgs(a + b, k, args)
  {
    forall i | 0 <= i < |a + b| && (a + b)[i].kind == k ensures (a + b)[i].args == args {
      if i >= |a| { assert (a + b)[i] == b[i - |a|]; }
    }
  }

  /** The swipe the touch-end calls report: the direction and both points of the touch. */
  function SwipeArgs(st: TouchState, settings: Settings): Option<Args>
  {
    match SwipeDirection(st.touchStartX, st.touchStartY, st.currentX, st.currentY, settings.swipeDeadZone)
    case None => None
    case Some(d) => Some(Swiped(d, st.touchStartX, st.touchStartY, st.currentX, st.currentY))
  }

  /**
   * On a touch-end Swipe listeners run exactly when `_getSwipeDirection` finds a direction,
   * and each gets the direction, the start point and the current point.
   */
  lemma EndSwipe(st: TouchState, settings: Settings, ls: Listeners, nowMs: int)
    ensures var calls := EndCalls(st, settings, ls, nowMs);
      var sw := SwipeArgs(st, settings);
      && (HasKind(calls, Swipe) <==> sw.Some? && |ls.onSwipe| > 0)
      && (sw.Some? ==> KindArgs(calls, Swipe, sw.value))
  {
    var timeDiff := nowMs - st.touchStartTime;
    var at := At(st.currentX, st.currentY);
    var e := Invoke(TouchEnd, ls.onTouchEnd, at);
    var th := if timeDiff < settings.holdDelayMs then Invoke(Tap, ls.onTap, at)
      else Invoke(HoldEnd, ls.onHoldEnd, Held(st.currentX, st.currentY, timeDiff));
    var sw: seq<Call> := match SwipeDirection(st.touchStartX, st.touchStartY, st.currentX, st.currentY, settings.swipeDeadZone)
      case None => []
      case Some(d) => Invoke(Swipe, ls.onSwipe, Swiped(d, st.touchStartX, st.touchStartY, st.currentX, st.currentY));
    assert EndCalls(st, settings, ls, nowMs) == e + th + sw;
    HasKindAppend(e + th, sw, Swipe);
    HasKindAppend(e, th, Swipe);
    InvokeKinds(TouchEnd, ls.onTouchEnd, at, Swipe);
    if timeDiff < settings.holdDelayMs {
      InvokeKinds(Tap, ls.onTap, at, Swipe);
    } else {
      InvokeKinds(HoldEnd, ls.onHoldEnd, Held(st.currentX, st.currentY, timeDiff), Swipe);
    }
    var args := SwipeArgs(st, settings);
    if args.Some? {
      InvokeKinds(Swipe, ls.onSwipe, args.value, Swipe);
      KindArgsAppend(e, th, Swipe, args.value);
      KindArgsAppend(e + th, sw, Swipe, args.value);
    }
  }

  /** The kinds dispatched on a touch-end. */
  lemma EndCallKinds(st: TouchState, settings: Settings, ls: Listeners, nowMs: int)
    ensures var held := nowMs - st.touchStartTime;
      && (HasKind(EndCalls(st, settings, ls, nowMs), Tap) <==> held < settings.holdDelayMs && |ls.onTap| > 0)
      && (HasKind(EndCalls(st, settings, ls, nowMs), HoldEnd) <==> held >= settings.holdDelayMs && |ls.onHoldEnd| > 0)
  {
    var timeDiff := nowMs - st.touchStartTime;
    var at := At(st.currentX, st.currentY);
    var e := Invoke(TouchEnd, ls.onTouchEnd, at);
    var th := if timeDiff < settings.holdDelayMs then Invoke(Tap, ls.onTap, at)
      else Invoke(HoldEnd, ls.onHoldEnd, Held(st.currentX, st.currentY, timeDiff));
    var sw: seq<Call> := match SwipeDirection(st.touchStartX, st.touchStartY, st.currentX, st.currentY, settings.swipeDeadZone)
      case None => []
      case Some(d) => Invoke(Swipe, ls.onSwipe, Swiped(d, st.touchStartX, st.touchStartY, st.currentX, st.currentY));
    assert EndCalls(st, settings, ls, nowMs) == e + th + sw;
    forall k | k == Tap || k == HoldEnd
      ensures HasKind(e + th + sw, k) <==> HasKind(th, k)
    {
      HasKindAppend(e + th, sw, k);
      HasKindAppend(e, th, k);
      InvokeKinds(TouchEnd, ls.onTouchEnd, at, k);
      if sw != [] {
        var d := SwipeDirection(st.touchStartX, st.touchStartY, st.currentX, st.currentY, settings.swipeDeadZone).value;
        InvokeKinds(Swipe, ls.onSwipe, Swiped(d, st.touchStartX, st.touchStartY, st.currentX, st.currentY), k);
      }
    }
    if timeDiff < settings.holdDelayMs {
      InvokeKinds(Tap, ls.onTap, at, Tap);
      InvokeKinds(Tap, ls.onTap, at, HoldEnd);
    } else {
      InvokeKinds(HoldEnd, ls.onHoldEnd, Held(st.currentX, st.currentY, timeDiff), Tap);
      InvokeKinds(HoldEnd, ls.onHoldEnd, Held(st.currentX, st.currentY, timeDiff), HoldEnd);
    }
  }

  /**
   * On a touch-end exactly one of Tap (held less than `holdDelayMs`) or HoldEnd is
   * dispatched; neither is dispatched without a touch-end.
   */
  lemma TapOrHold(st: TouchState, settings: Settings, ls: Listeners, packet: seq<Event>, nowMs: int)
    ensures var o := ReadPacketSpec(st, settings, ls, packet, nowMs);
      var sc := ScanPacket(packet, ScanStart(st), nowMs);
      var held := nowMs - o.state.touchStartTime;
      && (HasKind(o.calls, Tap) <==> sc.touchEnd && held < settings.holdDelayMs && |ls.onTap| > 0)
      && (HasKind(o.calls, HoldEnd) <==> sc.touchEnd && held >= settings.holdDelayMs && |ls.onHoldEnd| > 0)
      && !(HasKind(o.calls, Tap) && HasKind(o.calls, HoldEnd))
  {
    var o := ReadPacketSpec(st, settings, ls, packet, nowMs);
    var sc := ScanPacket(packet, ScanStart(st), nowMs);
    var st2 := o.state;
    var at := At(st2.currentX, st2.currentY);
    var a := if sc.touchStart then Invoke(TouchStart, ls.onTouchStart, at) else [];
    var b := if sc.touchEnd then EndCalls(st2, settings, ls, nowMs) else [];
    var c := if sc.moveUpdated then Invoke(TouchMove, ls.onTouchMove, at) else [];
    assert o.calls == a + b + c;
    forall k | k == Tap || k == HoldEnd ensures HasKind(o.calls, k) <==> HasKind(b, k) {
      HasKindAppend(a + b, c, k);
      HasKindAppend(a, b, k);
      InvokeKinds(TouchStart, ls.onTouchStart, at, k);
      InvokeKinds(TouchMove, ls.onTouchMove, at, k);
    }
    EndCallKinds(st2, settings, ls, nowMs);
  }

  /**
   * Swipe listeners run exactly on a touch-end packet whose start and current points are a
   * swipe apart, and each receives that swipe.
   */
  lemma SwipeOnRelease(st: TouchState, settings: Settings, ls: Listeners, packet: seq<Event>, nowMs: int)
    ensures var o := ReadPacketSpec(st, settings, ls, packet, nowMs);
      var sc := ScanPacket(packet, ScanStart(st), nowMs);
      var sw := SwipeArgs(o.state, settings);
      && (HasKind(o.calls, Swipe) <==> sc.touchEnd && sw.Some? && |ls.onSwipe| > 0)
      && (sw.Some? ==> KindArgs(o.calls, Swipe, sw.value))
  {
    var o := ReadPacketSpec(st, settings, ls, packet, nowMs);
    var sc := ScanPacket(packet, ScanStart(st), nowMs);
    var st2 := o.state;
    var at := At(st2.currentX, st2.currentY);
    var a := if sc.touchStart then Invoke(TouchStart, ls.onTouchStart, at) else [];
    var b := if sc.touchEnd then EndCalls(st2, settings, ls, nowMs) else [];
    var c := if sc.moveUpdated then Invoke(TouchMove, ls.onTouchMove, at) else [];
    assert o.calls == a + b + c;
    HasKindAppend(a + b, c, Swipe);
    HasKindAppend(a, b, Swipe);
    InvokeKinds(TouchStart, ls.onTouchStart, at, Swipe);
    InvokeKinds(TouchMove, ls.onTouchMove, at, Swipe);
    EndSwipe(st2, settings, ls, nowMs);
    var sw := SwipeArgs(st2, settings);
    if sw.Some? {
      KindArgsAppend(a, b, Swipe, sw.value);
      KindArgsAppend(a + b, c, Swipe, sw.value);
    }
  }

  /**
   * TouchMove listeners run whenever the packet held a position event, whether or not a
   * touch is in progress.
   */
  lemma MoveWhenPositioned(st: TouchState, settings: Settings, ls: Listeners, packet: seq<Event>, nowMs: int)
    requires |ls.onTouchMove| > 0
    ensures var o := ReadPacketSpec(st, settings, ls, packet, nowMs);
      HasKind(o.calls, TouchMove) <==> exists i :: 0 <= i < |packet| && IsPosition(packet[i])
  {
    ScanPositions(packet, st, nowMs);
    var o := ReadPacketSpec(st, settings, ls, packet, nowMs);
    var sc := ScanPacket(packet, ScanStart(st), nowMs);
    var st2 := o.state;
    var a := if sc.touchStart then Invoke(TouchStart, ls.onTouchStart, At(st2.currentX, st2.currentY)) else [];
    var b := if sc.touchEnd then EndCalls(st2, settings, ls, nowMs) else [];
    var c := if sc.moveUpdated then Invoke(TouchMove, ls.onTouchMove, At(st2.currentX, st2.currentY)) else [];
    assert o.calls == a + b + c;
    HasKindAppend(a + b, c, TouchMove);
    HasKindAppend(a, b, TouchMove);
    if sc.touchEnd { EndCallsOrdered(st2, settings, ls, nowMs); }
    if sc.moveUpdated { assert c[0].kind == TouchMove; }
  }

  // ---------------------------------------------------------------------------
  // Concrete packets

  const DefaultSettings := Settings(200, 40, 1080)
  const Idle := TouchState(false, 0, 0, 0, 0, 0)
  const OneEach := Listeners([Callback(0)], [Callback(1)], [Callback(2)], [Callback(3)], [Callback(4)], [Callback(5)])

  /**
   * A raw X of exactly 0 counts as "no coordinate": screen Y keeps its old value, although
   * TouchMove listeners still run because the packet held a position event.
   */
  lemma ZeroCoordinateIgnored(st: TouchState, settings: Settings, ls: Listeners, nowMs: int)
    requires |ls.onTouchMove| > 0
    ensures var packet := [Ev(EV_ABS, ABS_MT_POSITION_X, 0), Ev(EV_SYN, SYN_REPORT, 0)];
      var o := ReadPacketSpec(st, settings, ls, packet, nowMs);
      o.state.currentY == st.currentY && HasKind(o.calls, TouchMove)
  {
    var packet := [Ev(EV_ABS, ABS_MT_POSITION_X, 0), Ev(EV_SYN, SYN_REPORT, 0)];
    RotationWrites(st, settings, ls, packet, nowMs);
    assert IsPosition(packet[0]);
    MoveWhenPositioned(st, settings, ls, packet, nowMs);
  }

  /**
   * Press at raw (100, 200) with the default settings and release 50 ms later: the press
   * dispatches TouchStart(881, 100) and a TouchMove; the release dispatches
   * TouchEnd(881, 100) and Tap(881, 100), with no HoldEnd and no Swipe.
   */
  lemma PressAndQuickRelease()
    ensures var press := [Ev(EV_KEY, BTN_TOUCH, 1), Ev(EV_ABS, ABS_MT_POSITION_X, 100),
                          Ev(EV_ABS, ABS_MT_POSITION_Y, 200), Ev(EV_SYN, SYN_REPORT, 0)];
      var o1 := ReadPacketSpec(Idle, DefaultSettings, OneEach, press, 1000);
      && o1.calls == [Call(TouchStart, Callback(0), At(881, 100)), Call(TouchMove, Callback(4), At(881, 100))]
      && var o2 := ReadPacketSpec(o1.state, DefaultSettings, OneEach, [Ev(EV_KEY, BTN_TOUCH, 0), Ev(EV_SYN, SYN_REPORT, 0)], 1050);
      && o2.calls == [Call(TouchEnd, Callback(1), At(881, 100)), Call(Tap, Callback(2), At(881, 100))]
      && !o2.state.isTouching
  {
    var press := [Ev(EV_KEY, BTN_TOUCH, 1), Ev(EV_ABS, ABS_MT_POSITION_X, 100),
                  Ev(EV_ABS, ABS_MT_POSITION_Y, 200), Ev(EV_SYN, SYN_REPORT, 0)];
    var s0 := ScanStart(Idle);
    assert press[..1][..0] == [] && press[..2][..1] == press[..1] && press[..3][..2] == press[..2];
    assert ScanPacket(press[..1], s0, 1000) == Scan(None, None, true, false, false, true, 1000);
    assert ScanPacket(press[..2], s0, 1000) == Scan(Some(100), None, true, false, true, true, 1000);
    assert ScanPacket(press[..3], s0, 1000) == Scan(Some(100), Some(200), true, false, true, true, 1000);
    assert ScanPacket(press, s0, 1000) == Scan(Some(100), Some(200), true, false, true, true, 1000);
    var st1 := TouchState(true, 1000, 881, 100, 881, 100);
    assert ReadPacketSpec(Idle, DefaultSettings, OneEach, press, 1000).state == st1;
    assert Invoke(TouchStart, [Callback(0)], At(881, 100)) == [Call(TouchStart, Callback(0), At(881, 100))];
    assert Invoke(TouchMove, [Callback(4)], At(881, 100)) == [Call(TouchMove, Callback(4), At(881, 100))];
    var release := [Ev(EV_KEY, BTN_TOUCH, 0), Ev(EV_SYN, SYN_REPORT, 0)];
    assert release[..1][..0] == [];
    assert ScanPacket(release[..1], ScanStart(st1), 1050) == Scan(None, None, false, true, false, false, 1000);
    assert ScanPacket(release, ScanStart(st1), 1050) == Scan(None, None, false, true, false, false, 1000);
    assert SwipeDirection(881, 100, 881, 100, 40).None?;
    assert Invoke(TouchEnd, [Callback(1)], At(881, 100)) == [Call(TouchEnd, Callback(1), At(881, 100))];
    assert Invoke(Tap, [Callback(2)], At(881, 100)) == [Call(Tap, Callback(2), At(881, 100))];
    assert EndCalls(st1.(isTouching := false), DefaultSettings, OneEach, 1050)
      == [Call(TouchEnd, Callback(1), At(881, 100)), Call(Tap, Callback(2), At(881, 100))];
  }

  /**
   * Tap and Swipe are not exclusive: a quick release 60 units right of the press point
   * dispatches TouchEnd, Tap and a Right swipe.
   */
  lemma TapAndSwipeTogether()
    ensures var st := TouchState(true, 1000, 500, 300, 440, 300);
      var o := ReadPacketSpec(st, DefaultSettings, OneEach, [Ev(EV_KEY, BTN_TOUCH, 0), Ev(EV_SYN, SYN_REPORT, 0)], 1100);
      o.calls == [Call(TouchEnd, Callback(1), At(500, 300)), Call(Tap, Callback(2), At(500, 300)),
                  Call(Swipe, Callback(5), Swiped(Right, 440, 300, 500, 300))]
  {
    var st := TouchState(true, 1000, 500, 300, 440, 300);
    var release := [Ev(EV_KEY, BTN_TOUCH, 0), Ev(EV_SYN, SYN_REPORT, 0)];
    assert release[..1][..0] == [];
    assert ScanPacket(release[..1], ScanStart(st), 1100) == Scan(None, None, false, true, false, false, 1000);
    assert ScanPacket(release, ScanStart(st), 1100) == Scan(None, None, false, true, false, false, 1000);
    assert SwipeDirection(440, 300, 500, 300, 40) == Some(Right);
    assert Invoke(TouchEnd, [Callback(1)], At(500, 300)) == [Call(TouchEnd, Callback(1), At(500, 300))];
    assert Invoke(Tap, [Callback(2)], At(500, 300)) == [Call(Tap, Callback(2), At(500, 300))];
    assert Invoke(Swipe, [Callback(5)], Swiped(Right, 440, 300, 500, 300))
      == [Call(Swipe, Callback(5), Swiped(Right, 440, 300, 500, 300))];
  }
}
