/**
 * koboInput.py's `KoboInput` object and the module functions that drive it: the packet
 * decoder `_readPacket`, the framing loop of `_task`, and the listener registry
 * (`addKoboInputListener`, `removeKoboInputListener`, `closeKoboInput`).
 *
 * The module-level `_koboInputObject` is passed explicitly as a `KoboInput?`; `null` stands
 * for "not initialised". Listener calls are returned as a sequence of `Call` values.
 */
module TouchInput {
  import opened Wrappers
  import opened Events
  import opened Gesture
  import opened Framing

  /** The names `getattr` resolves to one of the six listener lists. */
  const ListenerNames: set<string> :=
    {"onTouchStart", "onTouchEnd", "onTap", "onHoldEnd", "onTouchMove", "onSwipe"}

  class KoboInput {
    var init: bool
    var holdDelayMs: int
    var swipeDeadZone: int
    var isTouching: bool
    var touchStartTime: int
    var currentX: int
    var currentY: int
    var touchStartX: int
    var touchStartY: int
    var viewWidth: int
    var grabInput: bool
    var onTouchStart: seq<Callback>
    var onTouchEnd: seq<Callback>
    var onTap: seq<Callback>
    var onHoldEnd: seq<Callback>
    var onTouchMove: seq<Callback>
    var onSwipe: seq<Callback>

    /** `KoboInput(viewWidth=viewWidth, grabInput=grabInput)` with the dataclass defaults. */
    constructor (viewWidth: int, grabInput: bool)
      ensures init && holdDelayMs == 200 && swipeDeadZone == 40
      ensures Touch() == TouchState(false, 0, 0, 0, 0, 0)
      ensures this.viewWidth == viewWidth && this.grabInput == grabInput
      ensures Lists() == Listeners([], [], [], [], [], [])
    {
      init := true;
      holdDelayMs := 200;
      swipeDeadZone := 40;
      isTouching := false;
      touchStartTime := 0;
      currentX := 0;
      currentY := 0;
      touchStartX := 0;
      touchStartY := 0;
      this.viewWidth := viewWidth;
      this.grabInput := grabInput;
      onTouchStart := [];
      onTouchEnd := [];
      onTap := [];
      onHoldEnd := [];
      onTouchMove := [];
      onSwipe := [];
    }

    function Touch(): TouchState
      reads this
    {
      TouchState(isTouching, touchStartTime, currentX, currentY, touchStartX, touchStartY)
    }

    function Config(): Settings
      reads this
    {
      Settings(holdDelayMs, swipeDeadZone, viewWidth)
    }

    function Lists(): Listeners
      reads this
    {
      Listeners(onTouchStart, onTouchEnd, onTap, onHoldEnd, onTouchMove, onSwipe)
    }

    /** `getattr(self, name)` when it is one of the six lists. */
    function ListenerList(name: string): (r: Option<seq<Callback>>)
      reads this
      ensures r.Some? <==> name in ListenerNames
    {
      if name == "onTouchStart" then Some(onTouchStart)
      else if name == "onTouchEnd" then Some(onTouchEnd)
      else if name == "onTap" then Some(onTap)
      else if name == "onHoldEnd" then Some(onHoldEnd)
      else if name == "onTouchMove" then Some(onTouchMove)
      else if name == "onSwipe" then Some(onSwipe)
      else None
    }

    /** `setattr(self, name, funcs)` for one of the six lists. */
    method SetListenerList(name: string, funcs: seq<Callback>)
      requires name in ListenerNames
      modifies this
      ensures ListenerList(name) == Some(funcs)
      ensures forall n :: n != name ==> ListenerList(n) == old(ListenerList(n))
      ensures Touch() == old(Touch()) && Config() == old(Config())
      ensures init == old(init) && grabInput == old(grabInput)
    {
      if name == "onTouchStart" { onTouchStart := funcs; }
      else if name == "onTouchEnd" { onTouchEnd := funcs; }
      else if name == "onTap" { onTap := funcs; }
      else if name == "onHoldEnd" { onHoldEnd := funcs; }
      else if name == "onTouchMove" { onTouchMove := funcs; }
      else { onSwipe := funcs; }
    }

    /**
     * The event loop of `_readPacket`: collects the last multi-touch X and Y and the three
     * flags, updating `isTouching` and `touchStartTime` as BTN_TOUCH events arrive.
     */
    method ScanEvents(packet: seq<Event>, nowMs: int)
      returns (x: Option<int>, y: Option<int>, touchStart: bool, touchEnd: bool, moveUpdated: bool)
      modifies this`isTouching, this`touchStartTime
      ensures Scan(x, y, touchStart, touchEnd, moveUpdated, isTouching, touchStartTime)
        == ScanPacket(packet, ScanStart(old(Touch())), nowMs)
    {
      x, y := None, None;
      touchStart, touchEnd, moveUpdated := false, false, false;
      var i := 0;
      while i < |packet|
        invariant 0 <= i <= |packet|
        invariant Scan(x, y, touchStart, touchEnd, moveUpdated, isTouching, touchStartTime)
          == ScanPacket(packet[..i], ScanStart(old(Touch())), nowMs)
      {
        assert packet[..i + 1][..i] == packet[..i];
        var event := packet[i];
        if event.eventType == EV_KEY && event.code == BTN_TOUCH {
          if event.value == 1 && !isTouching {
            touchStart := true;
            isTouching := true;
            touchStartTime := nowMs;
          } else if event.value == 0 && isTouching {
            touchEnd := true;
            isTouching := false;
          }
        }
        if event.eventType == EV_ABS {
          if event.code == ABS_MT_POSITION_X {
            moveUpdated := true;
            x := Some(event.value);
          }
          if event.code == ABS_MT_POSITION_Y {
            moveUpdated := true;
            y := Some(event.value);
          }
        }
        i := i + 1;
      }
      assert packet[..i] == packet;
    }

    /**
     * The rotation block of `_readPacket`: the raw X becomes `currentY` and
     * `viewWidth - rawY + 1` becomes `currentX`, each only when truthy.
     */
    method ApplyRotation(x: Option<int>, y: Option<int>)
      modifies this`currentX, this`currentY
      ensures Touch() == Rotate(old(Touch()), viewWidth, x, y)
    {
      var translatedX: Option<int> := None;
      var translatedY: Option<int> := None;
      if Truthy(x) {
        translatedY := x;
      }
      if Truthy(y) {
        translatedX := Some(viewWidth - y.value + 1);
      }
      if Truthy(translatedY) {
        currentY := translatedY.value;
      }
      if Truthy(translatedX) {
        currentX := translatedX.value;
      }
    }

    /**
     * The dispatch blocks of `_readPacket`, once the touch fields are up to date: TouchStart
     * listeners, then TouchEnd, Tap or HoldEnd and Swipe, then TouchMove.
     */
    method Dispatch(touchStart: bool, touchEnd: bool, moveUpdated: bool, nowMs: int) returns (calls: seq<Call>)
      ensures calls == PacketCalls(Touch(), Config(), Lists(), touchStart, touchEnd, moveUpdated, nowMs)
    {
      calls := [];
      if touchStart {
        calls := calls + Invoke(TouchStart, onTouchStart, At(currentX, currentY));
      }
      ghost var startCalls := if touchStart then Invoke(TouchStart, onTouchStart, At(currentX, currentY)) else [];
      assert calls == startCalls by {
        if touchStart { assert [] + startCalls == startCalls; }
      }
      if touchEnd {
        var timeDiff := nowMs - touchStartTime;
        var endCalls := Invoke(TouchEnd, onTouchEnd, At(currentX, currentY));
        if timeDiff < holdDelayMs {
          endCalls := endCalls + Invoke(Tap, onTap, At(currentX, currentY));
        } else {
          endCalls := endCalls + Invoke(HoldEnd, onHoldEnd, Held(currentX, currentY, timeDiff));
        }
        var swipeDirection := SwipeDirection(touchStartX, touchStartY, currentX, currentY, swipeDeadZone);
        if swipeDirection.Some? {
          endCalls := endCalls + Invoke(Swipe, onSwipe, Swiped(swipeDirection.value, touchStartX, touchStartY, currentX, currentY));
        } else {
          assert endCalls + [] == endCalls;
        }
        calls := calls + endCalls;
      } else {
        assert calls + [] == calls;
      }
      if moveUpdated {
        calls := calls + Invoke(TouchMove, onTouchMove, At(currentX, currentY));
      } else {
        assert calls + [] == calls;
      }
    }

    /**
     * The field updates of `_readPacket`: scan the packet, rotate the coordinates, and
     * record where a touch started. Returns the three flags the listener calls depend on.
     */
    method UpdateTouch(packet: seq<Event>, nowMs: int) returns (touchStart: bool, touchEnd: bool, moveUpdated: bool)
      modifies this`isTouching, this`touchStartTime, this`currentX, this`currentY, this`touchStartX, this`touchStartY
      ensures var sc := ScanPacket(packet, ScanStart(old(Touch())), nowMs);
        && Touch() == ReadPacketSpec(old(Touch()), Config(), Lists(), packet, nowMs).state
        && touchStart == sc.touchStart && touchEnd == sc.touchEnd && moveUpdated == sc.moveUpdated
    {
      var x, y;
      x, y, touchStart, touchEnd, moveUpdated := ScanEvents(packet, nowMs);
      ApplyRotation(x, y);
      if touchStart {
        touchStartX := currentX;
        touchStartY := currentY;
      }
    }

    /**
     * `_readPacket(self, packet)` with the clock reading `nowMs`: decodes the packet into
     * the touch fields and returns the listener calls it makes, in order.
     */
    method ReadPacket(packet: seq<Event>, nowMs: int) returns (calls: seq<Call>)
      modifies this
      ensures var o := ReadPacketSpec(old(Touch()), old(Config()), old(Lists()), packet, nowMs);
        Touch() == o.state && calls == o.calls
      ensures Config() == old(Config()) && Lists() == old(Lists())
      ensures init == old(init) && grabInput == old(grabInput)
    {
      var touchStart, touchEnd, moveUpdated := UpdateTouch(packet, nowMs);
      calls := Dispatch(touchStart, touchEnd, moveUpdated, nowMs);
    }
  }

  /** The state `_task` carries from event to event, with the calls made so far. */
  datatype TaskState = TaskState(framer: Framer, touch: TouchState, calls: seq<Call>)

  /** One iteration of `_task`: frame the event and, on EV_SYN, decode the packet at time `nowMs`. */
  function TaskStep(t: TaskState, settings: Settings, ls: Listeners, e: Event, nowMs: int): TaskState
  {
    var f := FrameEvent(t.framer, e);
    if IsSyn(e) then
      var o := ReadPacketSpec(t.touch, settings, ls, Buffered(t.framer.buffer, e), nowMs);
      TaskState(f, o.state, t.calls + o.calls)
    else TaskState(f, t.touch, t.calls)
  }

  /** `_task` over a finite stream, `clock[i]` being the time at which event `i` is handled. */
  function RunTask(st: TouchState, settings: Settings, ls: Listeners, events: seq<Event>, clock: seq<int>): TaskState
    requires |clock| == |events|
    decreases |events|
  {
    if events == [] then TaskState(Framer([], []), st, [])
    else TaskStep(RunTask(st, settings, ls, events[..|events| - 1], clock[..|clock| - 1]),
                  settings, ls, events[|events| - 1], clock[|clock| - 1])
  }

  /** The packets `_task` hands to `_readPacket` are the framing of the stream. */
  lemma {:induction false} RunTaskFrames(st: TouchState, settings: Settings, ls: Listeners, events: seq<Event>, clock: seq<int>)
    requires |clock| == |events|
    ensures RunTask(st, settings, ls, events, clock).framer == Frame(events)
    decreases |events|
  {
    if events != [] {
      RunTaskFrames(st, settings, ls, events[..|events| - 1], clock[..|clock| - 1]);
    }
  }

  /**
   * One pass of `_task`'s loop: buffer `event`, SYN_DROPPED discarding the buffer first,
   * and on an EV_SYN event decode the buffer at time `nowMs` and start a new one.
   */
  method HandleEvent(k: KoboInput, eventPacket: seq<Event>, packets: seq<seq<Event>>, calls: seq<Call>,
                     event: Event, nowMs: int)
    returns (eventPacket': seq<Event>, packets': seq<seq<Event>>, calls': seq<Call>)
    modifies k
    ensures TaskState(Framer(eventPacket', packets'), k.Touch(), calls') ==
      TaskStep(TaskState(Framer(eventPacket, packets), old(k.Touch()), calls), old(k.Config()), old(k.Lists()), event, nowMs)
    ensures k.Config() == old(k.Config()) && k.Lists() == old(k.Lists()) && k.init == old(k.init)
  {
    eventPacket', packets', calls' := eventPacket, packets, calls;
    if event.eventType == EV_SYN && event.code == SYN_DROPPED {
      // Bad packet, discard
      eventPacket' := [];
    }
    eventPacket' := eventPacket' + [event];
    if event.eventType == EV_SYN {
      var made := k.ReadPacket(eventPacket', nowMs);
      calls' := calls' + made;
      packets' := packets' + [eventPacket'];
      eventPacket' := [];
    }
  }

  /**
   * `_task` run over a finite stream of events read from the device, `clock[i]` being the
   * time `_readPacket` reads when event `i` closes a packet. Returns the packets it decoded
   * and the listener calls made.
   */
  method Task(k: KoboInput, events: seq<Event>, clock: seq<int>) returns (packets: seq<seq<Event>>, calls: seq<Call>)
    requires |clock| == |events|
    modifies k
    ensures var t := RunTask(old(k.Touch()), old(k.Config()), old(k.Lists()), events, clock);
      packets == t.framer.packets && calls == t.calls && k.Touch() == t.touch
    ensures packets == Frame(events).packets
    ensures k.Config() == old(k.Config()) && k.Lists() == old(k.Lists()) && k.init == old(k.init)
  {
    var eventPacket: seq<Event> := [];
    packets, calls := [], [];
    var i := 0;
    while i < |events|
      invariant 0 <= i <= |events|
      invariant RunTask(old(k.Touch()), old(k.Config()), old(k.Lists()), events[..i], clock[..i])
        == TaskState(Framer(eventPacket, packets), k.Touch(), calls)
      invariant k.Config() == old(k.Config()) && k.Lists() == old(k.Lists()) && k.init == old(k.init)
    {
      eventPacket, packets, calls := HandleEvent(k, eventPacket, packets, calls, events[i], clock[i]);
      assert events[..i + 1][..i] == events[..i] && clock[..i + 1][..i] == clock[..i];
      i := i + 1;
    }
    assert events[..i] == events && clock[..i] == clock;
    RunTaskFrames(old(k.Touch()), old(k.Config()), old(k.Lists()), events, clock);
  }

  // ---------------------------------------------------------------------------
  // Listener registry

  /** Every element of `funcs` not equal to `func`, in order: `filter(lambda x: x != func, funcs)`. */
  function Without(funcs: seq<Callback>, func: Callback): (r: seq<Callback>)
    ensures forall g :: g in r <==> g in funcs && g != func
    ensures |r| <= |funcs|
  {
    if funcs == [] then []
    else (if funcs[0] == func then [] else [funcs[0]]) + Without(funcs[1..], func)
  }

  /** Filtering distributes over concatenation, so the other elements keep their order. */
  lemma {:induction false} WithoutAppend(funcs: seq<Callback>, func: Callback, other: seq<Callback>)
    ensures Without(funcs + other, func) == Without(funcs, func) + Without(other, func)
    decreases |funcs|
  {
    if funcs == [] {
      assert funcs + other == other;
    } else {
      var head := if funcs[0] == func then [] else [funcs[0]];
      WithoutAppend(funcs[1..], func, other);
      assert (funcs + other)[0] == funcs[0];
      assert (funcs + other)[1..] == funcs[1..] + other;
      calc {
        Without(funcs + other, func);
        head + Without(funcs[1..] + other, func);
        head + (Without(funcs[1..], func) + Without(other, func));
        (head + Without(funcs[1..], func)) + Without(other, func);
      }
    }
  }

  /** Filtering out an element that is absent changes nothing. */
  lemma {:induction false} WithoutAbsent(funcs: seq<Callback>, func: Callback)
    requires func !in funcs
    ensures Without(funcs, func) == funcs
    decreases |funcs|
  {
    if funcs != [] {
      WithoutAbsent(funcs[1..], func);
    }
  }

  /**
   * `addKoboInputListener(name, func)`: appends `func` to the named list and returns it;
   * without an object, or for a name that is not one of the six lists, returns `None` and
   * changes nothing.
   */
  method AddListener(k: KoboInput?, name: string, func: Callback) returns (r: Option<Callback>)
    modifies k
    ensures r.Some? <==> k != null && name in ListenerNames
    ensures r.Some? ==> r.value == func && k.ListenerList(name) == Some(old(k.ListenerList(name)).value + [func])
    ensures k != null ==> forall n :: n != name ==> k.ListenerList(n) == old(k.ListenerList(n))
    ensures k != null && r.None? ==> k.Lists() == old(k.Lists())
    ensures k != null ==> k.Touch() == old(k.Touch()) && k.Config() == old(k.Config()) && k.init == old(k.init)
  {
    if k == null {
      return None;
    }
    var eventList := k.ListenerList(name);
    if eventList.None? {
      return None;
    }
    k.SetListenerList(name, eventList.value + [func]);
    return Some(func);
  }

  /**
   * `removeKoboInputListener(name, func)`: for a valid name, REPLACES the named list with
   * `onTouchStart` minus every element equal to `func` (whatever list was named) and
   * returns true; otherwise returns false and changes nothing.
   */
  method RemoveListener(k: KoboInput?, name: string, func: Callback) returns (removed: bool)
    modifies k
    ensures removed <==> k != null && name in ListenerNames
    ensures removed ==> k.ListenerList(name) == Some(Without(old(k.onTouchStart), func))
    ensures k != null ==> forall n :: n != name ==> k.ListenerList(n) == old(k.ListenerList(n))
    ensures k != null && !removed ==> k.Lists() == old(k.Lists())
    ensures k != null ==> k.Touch() == old(k.Touch()) && k.Config() == old(k.Config()) && k.init == old(k.init)
  {
    if k == null {
      return false;
    }
    var eventList := k.ListenerList(name);
    if eventList.None? {
      return false;
    }
    var newList := Without(k.onTouchStart, func);
    k.SetListenerList(name, newList);
    return true;
  }

  /**
   * The list-clearing part of `closeKoboInput`: empties the six lists and clears `init`.
   * Without an object nothing happens.
   */
  method CloseKoboInput(k: KoboInput?)
    modifies k
    ensures k != null ==> k.Lists() == Listeners([], [], [], [], [], []) && !k.init
    ensures k != null ==> k.Touch() == old(k.Touch()) && k.Config() == old(k.Config()) && k.grabInput == old(k.grabInput)
  {
    if k == null {
      return;
    }
    k.onHoldEnd := [];
    k.onSwipe := [];
    k.onTap := [];
    k.onTouchEnd := [];
    k.onTouchMove := [];
    k.onTouchStart := [];
    k.init := false;
  }

  /**
   * Removing a listener from `onTap` replaces `onTap` with `onTouchStart` minus that
   * listener, so `onTap` ends up holding `onTouchStart`'s listener; a second removal of the
   * same listener still reports success, and adding under a name that is not a list fails.
   */
  method RemoveFromWrongList() returns (tapList: seq<Callback>, secondRemoval: bool, badAdd: Option<Callback>)
    ensures tapList == [Callback(1)] && Callback(2) !in tapList
    ensures secondRemoval && badAdd.None?
  {
    var k := new KoboInput(1080, false);
    var a := AddListener(k, "onTouchStart", Callback(1));
    var b := AddListener(k, "onTap", Callback(2));
    assert k.onTap == [Callback(2)];
    var ok := RemoveListener(k, "onTap", Callback(2));
    assert ok;
    tapList := k.onTap;
    secondRemoval := RemoveListener(k, "onTap", Callback(2));
    badAdd := AddListener(k, "init", Callback(3));
  }
}
