# Viewport scroll-settle detector

This project models the scroll-settle detector of the MIP viewport
(`src/viewport.js`). Raw scroll signals from the page come at irregular rates.
The viewport forwards each one as a `scroll` notification. It also runs a
velocity check at most about once every 20 ms. The check publishes `changed`
once the average vertical speed since the last scroll that passed the 20 ms
gate falls strictly below 0.03 px/ms. Otherwise it reschedules itself on a single timer. Raw resize
signals are forwarded as `resize` and play no part in settle detection.

Each handler is a pure step function from the detector state to an `Outcome`:
the new state plus the notifications published, in order.

- `optional.dfy` (`Optional`): `Option`, which stands in for `null`/`undefined`.
- `geometry.dfy` (`Geometry`): `HostReading` holds what a handler reads from the
  page (`Date.now()`, scroll offsets, viewport size). `Rect` is the `getRect`
  snapshot, with its argument order: left, top, width, height.
- `velocity.dfy` (`Velocity`):
  - the elapsed time `now - lastTime || 0`;
  - the settle test, written once with real division as the handler writes it
    and once cross-multiplied (`100·|d| < 3·|delay|`), with a proof that they agree;
  - the reschedule timeout.
- `detector.dfy` (`Detector`):
  - the module state (`isChanging`, `lastEvent`, `lastTime`, `lastScrollTop`,
    and the timer as a one-slot `Option` holding the requested timeout);
  - `ChangedEvent`, `ScrollEvent`, `ResizeEvent` and `TimerFired` (the pending
    re-check firing);
  - the invariant `Valid` that every step keeps.
- `trace.dfy` (`Trace`): runs over sequences of signals, and the properties of
  every run.

Modelling choices:

- Time is an `int` (whole milliseconds, as `Date.now()` returns it).
  Offsets and sizes are `real`. The velocity test uses exact arithmetic.
- `ScrollEvent` takes two host readings. `entry` is what the handler reads on
  entry (`src/viewport.js:140-142`). `check` is what `changedEvent` reads when
  it runs (`src/viewport.js:174`, `177`, `179`). The code reads the page and
  the clock again there, so the two readings are kept apart.
- The velocity check runs before `lastTime`, `lastScrollTop` and `lastEvent`
  are overwritten (`src/viewport.js:147-150`). It therefore measures against
  the previous gated scroll, and a `changed` it publishes carries the previous
  raw event.
- JavaScript's `NaN` cases are modelled explicitly:
  - No recorded gated scroll makes `delay` 0. Such a check never settles and waits
    20 ms.
  - A missing `lastTime` makes the 20 ms gate test false.
- A clock that runs backwards gives a negative `delay`. The model follows the
  code here: the timeout is `20 - delay`, above 20 but still positive.
- Re-checks fired by the timer never update `lastTime`, `lastScrollTop` or
  `lastEvent` (`src/viewport.js:173-182`). Every check therefore measures the
  average speed since the last scroll that passed the 20 ms gate, not the
  speed since the previous check.

One might expect exactly one `changed` per scroll gesture. The code does not
guarantee it. The first raw scroll of a new gesture is checked against the
previous gesture's last sample. If enough time has passed, that check settles
at once, and the new gesture can later publish a second `changed`.
`Trace.StaleCheckSettlesNewGesture` proves a concrete case. What holds of every
run is weaker: `Trace.ChangedAtMostScrolls` shows there are never more
`changed` notifications than raw scroll signals.

## Model

| member | source | states |
|---|---|---|
| Velocity.SlowIffCross | src/viewport.js:175-177 | For every offset pair and every delay, including negative ones, the handler's test `delay && abs((lastScrollTop - scrollTop)/delay) < 0.03` holds if and only if 100 times the distance is strictly below 3 times the absolute delay. |
| Velocity.RescheduleTimeout | src/viewport.js:181 | The re-check timeout is always positive. It is at most 20 for a non-negative delay. A check that came sooner than 20 ms after the last gated scroll schedules the next for 20 ms after that scroll; otherwise the next is 20 ms away |
| Velocity.ThresholdBoundary | src/viewport.js:177 | In exact arithmetic, 0.5 px in 20 ms (0.025 px/ms) settles. 1 px and 0.6 px in 20 ms (0.05 and exactly 0.03 px/ms) do not: the comparison is strict |
| Detector.ChangedEvent | src/viewport.js:173-183 | The pending timer is always cancelled. A settle happens iff a gated scroll has been recorded and the distance/time test since it passes. A settle stops watching, leaves no timer, and publishes exactly one `changed` with the recorded event and the current rect in getRect's argument order. Otherwise nothing is published, `isChanging` is untouched, and exactly one re-check is pending. No recorded scroll or zero elapsed time never settles and waits 20 ms |
| Detector.ScrollEvent | src/viewport.js:139-153 | Exactly one `scroll` carrying the raw event is published, last, after any `changed`. With the 20 ms gate closed, state and timer are unchanged. With it open, the check uses the previous recorded time and offset. Afterwards `lastTime`, `lastScrollTop` and `lastEvent` are the entry clock, the entry offset and the event. The state invariant is kept |
| Detector.ResizeEvent | src/viewport.js:159-161 | Exactly one `resize` carrying the raw event is published. All detector state, including the timer slot, is unchanged |
| Detector.TimerFired | src/viewport.js:173-182 | A firing re-check settles when the speed since the last gated scroll is below the threshold: it publishes one `changed` with the recorded event and the current rect and leaves no timer. Otherwise it publishes nothing and schedules the timeout computed from that delay. It never changes the recorded time, offset or event. The state invariant is kept. Once settled, firing publishes nothing and changes nothing |
| Trace.ForwardAll | src/viewport.js:139-161 | Over any run, the `scroll` and `resize` notifications are exactly one per raw scroll and resize signal, with the unmodified event, in arrival order |
| Trace.StepValid | src/viewport.js:145-181 | Every handler keeps the invariant: a re-check is pending exactly while a gesture is watched, and the recorded event, time and offset are all present or all missing |
| Trace.RunValid | src/viewport.js:112-183 | Every run from a valid state, such as page load, ends in a valid state |
| Trace.ChangedBound | src/viewport.js:145-181 | Over any run, `changed` notifications plus a gesture still watched at the end never exceed raw scroll signals plus a gesture watched at the start |
| Trace.ChangedAtMostScrolls | src/viewport.js:145-181 | From page load, no run publishes more `changed` notifications than it received raw scroll signals |
| Trace.ChangedCarriesEvent | src/viewport.js:145-179 | From a valid state whose recorded event is one of a given list, every `changed` carries an event from that list or from the run's raw scrolls, never `null`. The recorded event at the end is also from that list or those scrolls |
| Trace.ChangedCarriesScrollEvent | src/viewport.js:119-179 | From page load, every `changed` carries the event of one of the run's raw scroll signals, never the initial `null` |
| Trace.StaleCheckSettlesNewGesture | src/viewport.js:145-150 | A gesture settles. 980 ms later a new gesture's first scroll, 10 px away, is judged settled at once against the stale sample. That `changed` carries the previous gesture's event and comes before the new `scroll` |

## Left out

- `init()` listener wiring and the choice between `document.body` and `window` as the scroll source (`src/viewport.js:98-105`): event plumbing with no logic. Each handler call is a step function the caller invokes.
- `fixedElement.init()`, the event-emitter mixin and `util.rect`: their source is not part of this model. `trigger` becomes appending to the returned notification list, and the rect getters become fields of `HostReading`.
- `Date.now`, `setTimeout` and `clearTimeout`: the clock is a parameter, and the timer is a one-slot `Option` holding the requested timeout. When the timer fires is up to the caller (`TimerElapsed` signals); the model does not check that the firing time matches the timeout.
- `getWidth`/`getHeight`'s `innerWidth || clientWidth` fallback, `getScrollTop/Left`, `getScrollWidth/Height` and `setScrollTop`: host reads and writes that only delegate. Width and height enter as already-resolved readings.
- Detector.ScrollEvent: its contract holds only for subscribers that return normally. `trigger` runs subscribers synchronously, and an exception thrown by one propagates. If a `changed` subscriber throws at `src/viewport.js:179`, lines 148-152 never run: nothing is recorded, no `scroll` is published, and `isChanging` is already false. Exceptions are not modelled.
- Trace.ForwardAll: like every run-level lemma, it assumes subscribers do not throw, for the same reason.
- Floating point: offsets, delays and the 0.03 threshold are exact reals. IEEE rounding of the quotient is not modelled.
- `src/mip.js`: module bootstrap and component registration, with no detector logic.
