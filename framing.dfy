/**
 * The per-event framing step of koboInput.py's `_task`: events are buffered until an
 * event of type EV_SYN (`EV_SYS` in the source) closes the buffer into a packet. A
 * SYN_DROPPED event first throws the buffer away, so its packet is that event alone.
 */
module Framing {
  import opened Wrappers
  import opened Events

  /** The `eventPacket` buffer of `_task`, and the packets handed to `_readPacket` so far. */
  datatype Framer = Framer(buffer: seq<Event>, packets: seq<seq<Event>>)

  /** The buffer after `e` is appended, SYN_DROPPED having cleared it first. */
  function Buffered(buffer: seq<Event>, e: Event): seq<Event>
  {
    (if IsDropped(e) then [] else buffer) + [e]
  }

  /** One iteration of `_task`'s loop. */
  function FrameEvent(f: Framer, e: Event): Framer
  {
    var buffer := Buffered(f.buffer, e);
    if IsSyn(e) then Framer([], f.packets + [buffer]) else Framer(buffer, f.packets)
  }

  /** `_task` over a finite stream of events, starting with an empty buffer. */
  function Frame(events: seq<Event>): Framer
    decreases |events|
  {
    if events == [] then Framer([], [])
    else FrameEvent(Frame(events[..|events| - 1]), events[|events| - 1])
  }

  /** A run of non-EV_SYN events closed by exactly one EV_SYN event. */
  predicate WellFramed(p: seq<Event>)
  {
    && |p| > 0
    && IsSyn(p[|p| - 1])
    && (forall j :: 0 <= j < |p| - 1 ==> !IsSyn(p[j]))
  }

  predicate NoSyn(s: seq<Event>)
  {
    forall j :: 0 <= j < |s| ==> !IsSyn(s[j])
  }

  function CountSyn(events: seq<Event>): nat
  {
    if events == [] then 0 else (if IsSyn(events[0]) then 1 else 0) + CountSyn(events[1..])
  }

  lemma CountSynLast(events: seq<Event>)
    requires events != []
    ensures CountSyn(events) == CountSyn(events[..|events| - 1]) + (if IsSyn(events[|events| - 1]) then 1 else 0)
  {
    if |events| > 1 {
      CountSynLast(events[1..]);
      assert events[1..][..|events[1..]| - 1] == events[..|events| - 1][1..];
    }
  }

  /**
   * Every packet is a run of non-EV_SYN events closed by one EV_SYN event; a packet that
   * holds a SYN_DROPPED event is that event alone; the buffer never holds an EV_SYN event
   * (so it is empty right after one); there is one packet per EV_SYN event.
   */
  lemma {:induction false} FramedPackets(events: seq<Event>)
    ensures var f := Frame(events);
      && (forall k :: 0 <= k < |f.packets| ==> WellFramed(f.packets[k]))
      && (forall k, j :: 0 <= k < |f.packets| && 0 <= j < |f.packets[k]| && IsDropped(f.packets[k][j]) ==>
            f.packets[k] == [f.packets[k][j]])
      && NoSyn(f.buffer)
      && (events != [] && IsSyn(events[|events| - 1]) ==> f.buffer == [])
      && |f.packets| == CountSyn(events)
    decreases |events|
  {
    if events != [] {
      var init := events[..|events| - 1];
      var e := events[|events| - 1];
      FramedPackets(init);
      CountSynLast(events);
      var f0 := Frame(init);
      var b := Buffered(f0.buffer, e);
      if IsSyn(e) {
        assert forall j :: 0 <= j < |b| - 1 ==> b[j] == f0.buffer[j];
        assert WellFramed(b);
        forall j | 0 <= j < |b| && IsDropped(b[j]) ensures b == [b[j]] {
          assert j == |b| - 1;
        }
        var ps := f0.packets + [b];
        forall k | 0 <= k < |ps| ensures WellFramed(ps[k]) {
          if k < |f0.packets| { assert ps[k] == f0.packets[k]; }
        }
      } else {
        assert !IsDropped(e);
        assert NoSyn(b);
      }
    }
  }

  function Flatten(ps: seq<seq<Event>>): seq<Event>
  {
    if ps == [] then [] else Flatten(ps[..|ps| - 1]) + ps[|ps| - 1]
  }

  /** Framing one more event that is not SYN_DROPPED appends it to the packets-then-buffer. */
  lemma FrameEventKeeps(f: Framer, e: Event)
    requires !IsDropped(e)
    ensures Flatten(FrameEvent(f, e).packets) + FrameEvent(f, e).buffer == Flatten(f.packets) + f.buffer + [e]
  {
    assert Buffered(f.buffer, e) == f.buffer + [e];
    if IsSyn(e) {
      var ps := f.packets + [f.buffer + [e]];
      assert ps[..|ps| - 1] == f.packets;
      assert Flatten(ps) == Flatten(f.packets) + (f.buffer + [e]);
    }
  }

  /** With no SYN_DROPPED in the stream nothing is lost: the packets, then the buffer, are the stream. */
  lemma {:induction false} NoLossWithoutDrops(events: seq<Event>)
    requires forall i :: 0 <= i < |events| ==> !IsDropped(events[i])
    ensures Flatten(Frame(events).packets) + Frame(events).buffer == events
    decreases |events|
  {
    if events != [] {
      var init := events[..|events| - 1];
      var e := events[|events| - 1];
      assert forall i :: 0 <= i < |init| ==> init[i] == events[i];
      NoLossWithoutDrops(init);
      FrameEventKeeps(Frame(init), e);
      SplitLast(events);
    }
  }
}
