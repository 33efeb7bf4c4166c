/**
 * The scroll-settle detector of the viewport: the state shared by the scroll
 * handler, the resize handler and the velocity check, and one pure step
 * function per handler. A step returns the new state together with the
 * notifications the handler publishes, in publication order.
 *
 * The timer is a single slot holding the timeout of the one pending
 * re-check; `clearTimeout` empties it and `setTimeout` fills it.
 */
module Detector {
  import opened Optional
  import opened Geometry
  import opened Velocity

  /**
   * The detector's module state. `isChanging` is true while a gesture is
   * being watched; `lastEvent`, `lastTime` and `lastScrollTop` are the raw
   * event, clock value and vertical offset recorded at the last gated
   * scroll; `timer` is the pending re-check, if any.
   */
  datatype State<E> = State(
    isChanging: bool,
    lastEvent: Option<E>,
    lastTime: Option<int>,
    lastScrollTop: Option<real>,
    timer: Option<int>)

  /** A published notification: `scroll` and `resize` carry the raw event, `changed` the last raw scroll event and the viewport rect. */
  datatype Note<E> =
    | ScrollNote(event: E)
    | ResizeNote(event: E)
    | ChangedNote(lastEvent: Option<E>, rect: Rect)

  datatype Outcome<E> = Outcome(state: State<E>, notes: seq<Note<E>>)

  /** The state at page load: not changing, nothing recorded, no timer. */
  function Init<E>(): State<E>
  {
    State(false, None, None, None, None)
  }

  /**
   * The invariant every reachable state keeps: a re-check is pending exactly
   * while a gesture is being watched, and the three recorded values are
   * either all missing or all present.
   */
  predicate Valid<E>(s: State<E>)
  {
    && (s.timer.Some? <==> s.isChanging)
    && (s.lastTime.Some? <==> s.lastScrollTop.Some?)
    && (s.lastTime.Some? <==> s.lastEvent.Some?)
  }

  /**
   * Whether a velocity check made with reading `h` settles, stated from the
   * recorded values with the division-free reference test.
   */
  predicate WouldSettle<E>(s: State<E>, h: HostReading)
  {
    && s.lastTime.Some?
    && s.lastScrollTop.Some?
    && SlowCross(s.lastScrollTop.value - h.scrollTop, h.now - s.lastTime.value)
  }

  /**
   * `changedEvent`: cancel the pending re-check, then either settle (stop
   * watching, publish one `changed` with the recorded event and the current
   * rect) or schedule the next re-check. A missing recorded scroll, or no
   * elapsed time, never settles and waits the full 20 ms.
   */
  function ChangedEvent<E>(s: State<E>, h: HostReading): (o: Outcome<E>)
    ensures WouldSettle(s, h) ==>
      && o.state == s.(isChanging := false, timer := None)
      && o.notes == [ChangedNote(s.lastEvent, Rect(h.scrollLeft, h.scrollTop, h.width, h.height))]
    ensures !WouldSettle(s, h) ==>
      && o.notes == []
      && o.state.isChanging == s.isChanging
      && o.state.timer.Some?
      && o.state == s.(timer := o.state.timer)
    ensures !WouldSettle(s, h) && s.lastTime.Some? ==>
      o.state.timer == Some(RescheduleTimeout(h.now - s.lastTime.value))
    ensures s.lastTime.None? || h.now == s.lastTime.value ==>
      o.notes == [] && o.state.timer == Some(CheckInterval)
  {
    var delay := Delay(h.now, s.lastTime);
    var cleared := s.(timer := None);
    var slow := s.lastScrollTop.Some? && IsSlow(s.lastScrollTop.value, h.scrollTop, delay);
    assert slow <==> WouldSettle(s, h) by {
      if s.lastScrollTop.Some? {
        SlowIffCross(s.lastScrollTop.value, h.scrollTop, delay);
      }
    }
    if slow then
      Outcome(cleared.(isChanging := false), [ChangedNote(s.lastEvent, ViewportRect(h))])
    else
      Outcome(cleared.(timer := Some(RescheduleTimeout(delay))), [])
  }

  /**
   * The 20 ms rate gate of the scroll handler: open when no gesture is being
   * watched, or when at least 20 ms passed since the last gated scroll (a
   * missing last time makes the difference NaN, which fails the test).
   */
  predicate GateOpen<E>(s: State<E>, now: int)
  {
    !s.isChanging || (s.lastTime.Some? && now - s.lastTime.value >= CheckInterval)
  }

  /**
   * `scrollEvent`: `entry` is what the handler reads on entry (offset and
   * clock), `check` what the velocity check reads when the gate lets it run.
   * The check runs before the recorded values are overwritten, so it measures
   * against the previous gated scroll.
   */
  function ScrollEvent<E>(s: State<E>, event: E, entry: HostReading, check: HostReading): (o: Outcome<E>)
    ensures |o.notes| > 0 && o.notes[|o.notes| - 1] == ScrollNote(event)
    ensures forall i :: 0 <= i < |o.notes| - 1 ==> o.notes[i].ChangedNote?
    ensures !GateOpen(s, entry.now) ==> o == Outcome(s, [ScrollNote(event)])
    ensures GateOpen(s, entry.now) ==>
      && o.state.lastTime == Some(entry.now)
      && o.state.lastScrollTop == Some(entry.scrollTop)
      && o.state.lastEvent == Some(event)
    ensures GateOpen(s, entry.now) && WouldSettle(s, check) ==>
      && o.notes == [ChangedNote(s.lastEvent, ViewportRect(check)), ScrollNote(event)]
      && !o.state.isChanging
      && o.state.timer.None?
    ensures GateOpen(s, entry.now) && !WouldSettle(s, check) ==>
      && o.notes == [ScrollNote(event)]
      && o.state.isChanging
      && o.state.timer == Some(RescheduleTimeout(Delay(check.now, s.lastTime)))
    ensures Valid(s) ==> Valid(o.state)
  {
    if GateOpen(s, entry.now) then
      var checked := ChangedEvent(s.(isChanging := true), check);
      var recorded := checked.state.(
        lastTime := Some(entry.now),
        lastScrollTop := Some(entry.scrollTop),
        lastEvent := Some(event));
      Outcome(recorded, checked.notes + [ScrollNote(event)])
    else
      Outcome(s, [ScrollNote(event)])
  }

  /** `resizeEvent`: publish `resize` with the raw event; the detector is untouched. */
  function ResizeEvent<E>(s: State<E>, event: E): (o: Outcome<E>)
    ensures o.state == s
    ensures o.notes == [ResizeNote(event)]
  {
    Outcome(s, [ResizeNote(event)])
  }

  /**
   * The pending re-check fires: the velocity check runs with what it reads
   * at that moment. It never touches the recorded time, offset and event, so
   * every re-check measures from the last scroll that passed the 20 ms gate.
   * With no timer pending nothing fires.
   */
  function TimerFired<E>(s: State<E>, h: HostReading): (o: Outcome<E>)
    ensures s.timer.None? ==> o == Outcome(s, [])
    ensures s.timer.Some? && WouldSettle(s, h) ==>
      o.notes == [ChangedNote(s.lastEvent, ViewportRect(h))] && !o.state.isChanging && o.state.timer.None?
    ensures s.timer.Some? && !WouldSettle(s, h) ==>
      && o.notes == []
      && o.state.isChanging == s.isChanging
      && o.state.timer == Some(RescheduleTimeout(Delay(h.now, s.lastTime)))
    ensures s.timer.Some? ==>
      && o.state.lastTime == s.lastTime
      && o.state.lastScrollTop == s.lastScrollTop
      && o.state.lastEvent == s.lastEvent
    ensures Valid(s) ==> Valid(o.state)
    ensures Valid(s) && !s.isChanging ==> o == Outcome(s, [])
  {
    if s.timer.None? then Outcome(s, []) else ChangedEvent(s, h)
  }
}
