/**
 * The older touch reader of KIP.py: `getEvtPacket`, a packet assembler that resynchronises
 * after SYN_DROPPED, and `getInput`, which decodes a packet into rotated coordinates and
 * press/release flags. The device is an abstract stream of events; running off its end
 * stands for the read returning `None`.
 */
module Kip {
  import opened Wrappers
  import opened Events

  predicate NoDrop(s: seq<Event>)
  {
    forall i :: 0 <= i < |s| ==> !IsDropped(s[i])
  }

  /**
   * `getEvtPacket()` over `stream`, returning the packet (or `None`) and how many events it
   * read. It reads up to and including the first SYN_REPORT (or the whole stream if there is
   * none). If no SYN_DROPPED came before that report it returns exactly the events read;
   * otherwise, and when the stream ends first, it returns `None`.
   */
  method GetEvtPacket(stream: seq<Event>) returns (packet: Option<seq<Event>>, consumed: nat)
    ensures consumed <= |stream|
    ensures forall i :: 0 <= i < consumed - 1 ==> !IsReport(stream[i])
    ensures consumed == |stream| || (consumed > 0 && IsReport(stream[consumed - 1]))
    ensures packet.Some? <==> consumed > 0 && IsReport(stream[consumed - 1]) && NoDrop(stream[..consumed])
    ensures packet.Some? ==> packet.value == stream[..consumed]
  {
    var evPacket: Option<seq<Event>> := Some([]);
    var badPacket := false;
    consumed := 0;
    while consumed < |stream|
      invariant 0 <= consumed <= |stream|
      invariant forall i :: 0 <= i < consumed ==> !IsReport(stream[i])
      invariant badPacket <==> !NoDrop(stream[..consumed])
      invariant !badPacket ==> evPacket == Some(stream[..consumed])
    {
      var e := stream[consumed];
      assert stream[..consumed + 1] == stream[..consumed] + [e];
      consumed := consumed + 1;
      if e.eventType == EV_SYN && e.code == SYN_DROPPED {
        // ignore everything up to, and including, the next SYN_REPORT
        badPacket := true;
        evPacket := None;
        continue;
      }
      if badPacket && e.eventType == EV_SYN && e.code == SYN_REPORT {
        return None, consumed;
      }
      if !badPacket {
        evPacket := Some(evPacket.value + [e]);
        if e.eventType == EV_SYN && e.code == SYN_REPORT {
          return evPacket, consumed;
        }
      }
    }
    return None, consumed;
  }

  /** `getInput`'s result: the `(None, None, None, None, True)` retry tuple, or a decoded touch. */
  datatype Input = NoInput | TouchInput(rx: int, ry: int, pressed: bool, released: bool)

  /** The value of the last EV_ABS event with code `a` or `b`, or -1 when there is none. */
  function LastCoord(p: seq<Event>, a: int, b: int): int
    decreases |p|
  {
    if p == [] then -1
    else if p[|p| - 1].eventType == EV_ABS && (p[|p| - 1].code == a || p[|p| - 1].code == b) then p[|p| - 1].value
    else LastCoord(p[..|p| - 1], a, b)
  }

  /** BTN_TOUCH 1, or a positive pressure or touch width. */
  predicate SetsPressed(e: Event)
  {
    || (e.eventType == EV_KEY && e.code == BTN_TOUCH && e.value == 1)
    || (e.eventType == EV_ABS && (e.code == ABS_MT_PRESSURE || e.code == ABS_MT_TOUCH_MAJOR_WIDTH) && e.value > 0)
  }

  /** BTN_TOUCH with any other value, or a pressure or touch width of zero or less. */
  predicate SetsReleased(e: Event)
  {
    || (e.eventType == EV_KEY && e.code == BTN_TOUCH && e.value != 1)
    || (e.eventType == EV_ABS && (e.code == ABS_MT_PRESSURE || e.code == ABS_MT_TOUCH_MAJOR_WIDTH) && e.value <= 0)
  }

  /**
   * `getInput()`: reads a packet with `getEvtPacket`; without one it returns `NoInput`.
   * Otherwise screen Y is the last raw X (ABS_X or ABS_MT_POSITION_X, default -1), screen X
   * is `viewWidth - rawY + 1` with the last raw Y (ABS_Y or ABS_MT_POSITION_Y, default -1),
   * and each flag is set when some event of the packet sets it; both may be set.
   */
  method GetInput(stream: seq<Event>, viewWidth: int) returns (r: Input, consumed: nat)
    ensures consumed <= |stream|
    ensures forall i :: 0 <= i < consumed - 1 ==> !IsReport(stream[i])
    ensures consumed == |stream| || (consumed > 0 && IsReport(stream[consumed - 1]))
    ensures r.TouchInput? <==> consumed > 0 && IsReport(stream[consumed - 1]) && NoDrop(stream[..consumed])
    ensures r.TouchInput? ==>
      var p := stream[..consumed];
      && r.ry == LastCoord(p, ABS_X, ABS_MT_POSITION_X)
      && r.rx == viewWidth - LastCoord(p, ABS_Y, ABS_MT_POSITION_Y) + 1
      && (r.pressed <==> exists i :: 0 <= i < |p| && SetsPressed(p[i]))
      && (r.released <==> exists i :: 0 <= i < |p| && SetsReleased(p[i]))
  {
    var x, y := -1, -1;
    var touchPressed := false;
    var touchReleased := false;
    var evPacket;
    evPacket, consumed := GetEvtPacket(stream);
    if evPacket.None? || evPacket.value == [] {
      return NoInput, consumed;
    }
    var p := evPacket.value;
    var i := 0;
    while i < |p|
      invariant 0 <= i <= |p|
      invariant x == LastCoord(p[..i], ABS_X, ABS_MT_POSITION_X)
      invariant y == LastCoord(p[..i], ABS_Y, ABS_MT_POSITION_Y)
      invariant touchPressed <==> exists j :: 0 <= j < i && SetsPressed(p[j])
      invariant touchReleased <==> exists j :: 0 <= j < i && SetsReleased(p[j])
    {
      var e := p[i];
      assert p[..i + 1][..i] == p[..i];
      if e.eventType == EV_KEY {
        if e.code == BTN_TOUCH {
          if e.value == 1 {
            touchPressed := true;
          } else {
            touchReleased := true;
          }
        }
      } else if e.eventType == EV_ABS {
        if e.code == ABS_X {
          x := e.value;
        } else if e.code == ABS_Y {
          y := e.value;
        } else if e.code == ABS_MT_POSITION_X {
          x := e.value;
        } else if e.code == ABS_MT_POSITION_Y {
          y := e.value;
        } else if e.code == ABS_MT_PRESSURE {
          // some Kobos report touch through pressure
          if e.value > 0 {
            touchPressed := true;
          } else {
            touchReleased := true;
          }
        } else if e.code == ABS_MT_TOUCH_MAJOR_WIDTH {
          if e.value > 0 {
            touchPressed := true;
          } else {
            touchReleased := true;
          }
        }
      }
      i := i + 1;
    }
    assert p[..i] == p;
    var ry := x;
    var rx := viewWidth - y + 1;
    return TouchInput(rx, ry, touchPressed, touchReleased), consumed;
  }

  /** Raw single-touch (100, 200) on a 1080-wide view decodes to screen (881, 100). */
  lemma RotationExample()
    ensures var p := [Ev(EV_ABS, ABS_X, 100), Ev(EV_ABS, ABS_Y, 200), Ev(EV_SYN, SYN_REPORT, 0)];
      1080 - LastCoord(p, ABS_Y, ABS_MT_POSITION_Y) + 1 == 881 && LastCoord(p, ABS_X, ABS_MT_POSITION_X) == 100
  {
    var p := [Ev(EV_ABS, ABS_X, 100), Ev(EV_ABS, ABS_Y, 200), Ev(EV_SYN, SYN_REPORT, 0)];
    assert p[..2] == [Ev(EV_ABS, ABS_X, 100), Ev(EV_ABS, ABS_Y, 200)];
    assert p[..2][..1] == [Ev(EV_ABS, ABS_X, 100)];
    assert p[..2][..1][..0] == [];
    assert LastCoord(p[..2][..1], ABS_X, ABS_MT_POSITION_X) == 100;
    assert LastCoord(p[..2], ABS_X, ABS_MT_POSITION_X) == 100;
  }

  /** A packet can set both flags: a touch-down together with zero pressure. */
  lemma PressedAndReleased()
    ensures var p := [Ev(EV_KEY, BTN_TOUCH, 1), Ev(EV_ABS, ABS_MT_PRESSURE, 0), Ev(EV_SYN, SYN_REPORT, 0)];
      (exists i :: 0 <= i < |p| && SetsPressed(p[i])) && (exists i :: 0 <= i < |p| && SetsReleased(p[i]))
  {
    var p := [Ev(EV_KEY, BTN_TOUCH, 1), Ev(EV_ABS, ABS_MT_PRESSURE, 0), Ev(EV_SYN, SYN_REPORT, 0)];
    assert SetsPressed(p[0]) && SetsReleased(p[1]);
  }
}
