/**
 * One evdev input record and the protocol constants both touch readers use.
 * The two timestamp fields of the kernel record are carried but never inspected.
 */
module Events {

  /** `struct input_event`: time (seconds, microseconds), type, code and value. */
  datatype Event = Event(timeSeconds: int, timeMicroSeconds: int, eventType: int, code: int, value: int)

  // Event types.
  const EV_SYN: int := 0   // called EV_SYS in koboInput.py
  const EV_KEY: int := 1
  const EV_ABS: int := 3

  // Synchronisation codes (type EV_SYN).
  const SYN_REPORT: int := 0
  const SYN_MT_REPORT: int := 2
  const SYN_DROPPED: int := 3

  // Key and absolute-axis codes.
  const BTN_TOUCH: int := 330
  const ABS_X: int := 0
  const ABS_Y: int := 1
  const ABS_MT_TOUCH_MAJOR_WIDTH: int := 48   // ABS_MT_WIDTH_MAJOR
  const ABS_MT_POSITION_X: int := 53
  const ABS_MT_POSITION_Y: int := 54
  const ABS_MT_PRESSURE: int := 58

  /** An event with the given type, code and value and a zero timestamp. */
  function Ev(eventType: int, code: int, value: int): Event
  {
    Event(0, 0, eventType, code, value)
  }

  predicate IsSyn(e: Event) { e.eventType == EV_SYN }
  predicate IsReport(e: Event) { e.eventType == EV_SYN && e.code == SYN_REPORT }
  predicate IsDropped(e: Event) { e.eventType == EV_SYN && e.code == SYN_DROPPED }
}
