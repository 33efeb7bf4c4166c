/**
 * Whole runs of the detector: a sequence of host signals (raw scroll, raw
 * resize, the re-check timer firing) and the notifications published in
 * response, and the properties that hold of every run.
 */
module Trace {
  import opened Optional
  import opened Geometry
  import opened Velocity
  import opened Detector

  datatype Signal<E> =
    | Scrolled(event: E, entry: HostReading, check: HostReading)
    | Resized(event: E)
    | TimerElapsed(check: HostReading)

  function Step<E>(s: State<E>, sig: Signal<E>): Outcome<E>
  {
    match sig
    case Scrolled(e, entry, check) => ScrollEvent(s, e, entry, check)
    case Resized(e) => ResizeEvent(s, e)
    case TimerElapsed(check) => TimerFired(s, check)
  }

  /** Feed the signals to the detector in order, concatenating what each step publishes. */
  function Run<E>(s: State<E>, sigs: seq<Signal<E>>): Outcome<E>
    decreases |sigs|
  {
    if |sigs| == 0 then Outcome(s, [])
    else
      var first := Step(s, sigs[0]);
      var rest := Run(first.state, sigs[1..]);
      Outcome(rest.state, first.notes + rest.notes)
  }

  /** The `scroll` and `resize` notifications of a trace, in order. */
  function Forwarded<E>(notes: seq<Note<E>>): seq<Note<E>>
  {
    if |notes| == 0 then []
    else (if notes[0].ChangedNote? then [] else [notes[0]]) + Forwarded(notes[1..])
  }

  /** What forwarding every raw signal unmodified publishes: one note per raw scroll or resize. */
  function Expected<E>(sigs: seq<Signal<E>>): seq<Note<E>>
  {
    if |sigs| == 0 then []
    else
      var head := match sigs[0]
        case Scrolled(e, _, _) => [ScrollNote(e)]
        case Resized(e) => [ResizeNote(e)]
        case TimerElapsed(_) => [];
      head + Expected(sigs[1..])
  }

  function CountChanged<E>(notes: seq<Note<E>>): nat
  {
    if |notes| == 0 then 0
    else (if notes[0].ChangedNote? then 1 else 0) + CountChanged(notes[1..])
  }

  function CountScrolls<E>(sigs: seq<Signal<E>>): nat
  {
    if |sigs| == 0 then 0
    else (if sigs[0].Scrolled? then 1 else 0) + CountScrolls(sigs[1..])
  }

  function Ind(b: bool): nat
  {
    if b then 1 else 0
  }

  lemma {:induction false} ForwardedAppend<E>(a: seq<Note<E>>, b: seq<Note<E>>)
    ensures Forwarded(a + b) == Forwarded(a) + Forwarded(b)
    decreases |a|
  {
    if |a| == 0 {
      assert a + b == b;
    } else {
      assert (a + b)[1..] == a[1..] + b;
      ForwardedAppend(a[1..], b);
    }
  }

  lemma {:induction false} CountChangedAppend<E>(a: seq<Note<E>>, b: seq<Note<E>>)
    ensures CountChanged(a + b) == CountChanged(a) + CountChanged(b)
    decreases |a|
  {
    if |a| == 0 {
      assert a + b == b;
    } else {
      assert (a + b)[1..] == a[1..] + b;
      CountChangedAppend(a[1..], b);
    }
  }

  /** One step publishes exactly the forwarded note its signal calls for, besides any `changed`. */
  lemma StepForwards<E>(s: State<E>, sig: Signal<E>)
    ensures Forwarded(Step(s, sig).notes) == Expected([sig])
  {
    var notes := Step(s, sig).notes;
    assert [sig][1..] == [];
    match sig
    case Scrolled(e, entry, check) =>
      assert notes == notes[..|notes| - 1] + [ScrollNote(e)];
      assert Forwarded(notes[..|notes| - 1]) == [] by {
        var pre := notes[..|notes| - 1];
        assert |pre| <= 1;
        if |pre| == 1 {
          assert pre[1..] == [];
        }
      }
      ForwardedAppend(notes[..|notes| - 1], [ScrollNote(e)]);
      assert [ScrollNote(e)][1..] == [];
    case Resized(e) =>
      assert notes[1..] == [];
    case TimerElapsed(check) =>
      assert |notes| <= 1;
      if |notes| == 1 {
        assert notes[1..] == [];
      }
  }

  /**
   * Every raw scroll and resize signal is forwarded once, unmodified and in
   * arrival order, whatever the rate gate and the velocity check decide.
   */
  lemma {:induction false} ForwardAll<E>(s: State<E>, sigs: seq<Signal<E>>)
    ensures Forwarded(Run(s, sigs).notes) == Expected(sigs)
    decreases |sigs|
  {
    if |sigs| > 0 {
      var first := Step(s, sigs[0]);
      var rest := Run(first.state, sigs[1..]);
      ForwardedAppend(first.notes, rest.notes);
      StepForwards(s, sigs[0]);
      ForwardAll(first.state, sigs[1..]);
      assert sigs == [sigs[0]] + sigs[1..];
      assert Expected([sigs[0]]) + Expected(sigs[1..]) == Expected(sigs);
    }
  }

  /** Every step keeps the state invariant. */
  lemma StepValid<E>(s: State<E>, sig: Signal<E>)
    requires Valid(s)
    ensures Valid(Step(s, sig).state)
  {
  }

  /** Every run from a valid state ends in a valid state; page load is valid. */
  lemma {:induction false} RunValid<E>(s: State<E>, sigs: seq<Signal<E>>)
    requires Valid(s)
    ensures Valid(Run(s, sigs).state)
    decreases |sigs|
  {
    if |sigs| > 0 {
      StepValid(s, sigs[0]);
      RunValid(Step(s, sigs[0]).state, sigs[1..]);
    }
  }

  /**
   * The potential argument of one step: a `changed` is paid for either by
   * leaving the watching state or by a raw scroll signal.
   */
  lemma StepChangedBound<E>(s: State<E>, sig: Signal<E>)
    requires Valid(s)
    ensures var o := Step(s, sig);
      CountChanged(o.notes) + Ind(o.state.isChanging)
        <= Ind(sig.Scrolled?) + Ind(s.isChanging)
  {
    var o := Step(s, sig);
    match sig
    case Scrolled(e, entry, check) =>
      if |o.notes| == 2 {
        assert o.notes[1..][1..] == [];
      } else {
        assert o.notes[1..] == [];
      }
    case Resized(e) =>
      assert o.notes[1..] == [];
    case TimerElapsed(check) =>
      if |o.notes| == 1 {
        assert o.notes[1..] == [];
      }
  }

  /**
   * Over any run from a valid state, the `changed` notifications published
   * plus one for a gesture still being watched at the end never exceed the
   * raw scroll signals received plus one for a gesture being watched at the
   * start: the timer alone cannot produce a second `changed`.
   */
  lemma {:induction false} ChangedBound<E>(s: State<E>, sigs: seq<Signal<E>>)
    requires Valid(s)
    ensures var o := Run(s, sigs);
      CountChanged(o.notes) + Ind(o.state.isChanging) <= CountScrolls(sigs) + Ind(s.isChanging)
    decreases |sigs|
  {
    if |sigs| > 0 {
      var first := Step(s, sigs[0]);
      var rest := Run(first.state, sigs[1..]);
      StepChangedBound(s, sigs[0]);
      StepValid(s, sigs[0]);
      ChangedBound(first.state, sigs[1..]);
      CountChangedAppend(first.notes, rest.notes);
    }
  }

  /** From page load, no run publishes more `changed` notifications than it received raw scroll signals. */
  lemma ChangedAtMostScrolls<E>(sigs: seq<Signal<E>>)
    ensures CountChanged(Run(Init<E>(), sigs).notes) <= CountScrolls(sigs)
  {
    ChangedBound(Init<E>(), sigs);
  }

  /** The events of a run's raw scroll signals, in arrival order. */
  function ScrolledEvents<E>(sigs: seq<Signal<E>>): seq<E>
  {
    if |sigs| == 0 then []
    else (if sigs[0].Scrolled? then [sigs[0].event] else []) + ScrolledEvents(sigs[1..])
  }

  /** Whether every `changed` in a trace carries one of the events `evs` (so never the initial `null`). */
  ghost predicate ChangedCarryFrom<E>(notes: seq<Note<E>>, evs: seq<E>)
  {
    forall i :: 0 <= i < |notes| && notes[i].ChangedNote? ==>
      notes[i].lastEvent.Some? && notes[i].lastEvent.value in evs
  }

  /** Whether the recorded event, if any, is one of `evs`. */
  ghost predicate RecordedFrom<E>(s: State<E>, evs: seq<E>)
  {
    s.lastEvent.Some? ==> s.lastEvent.value in evs
  }

  lemma StepCarries<E>(s: State<E>, sig: Signal<E>, prior: seq<E>)
    requires Valid(s) && RecordedFrom(s, prior)
    ensures var evs := prior + ScrolledEvents([sig]);
      ChangedCarryFrom(Step(s, sig).notes, evs) && RecordedFrom(Step(s, sig).state, evs)
  {
  }

  lemma {:induction false} ScrolledEventsAppend<E>(a: seq<Signal<E>>, b: seq<Signal<E>>)
    ensures ScrolledEvents(a + b) == ScrolledEvents(a) + ScrolledEvents(b)
    decreases |a|
  {
    if |a| == 0 {
      assert a + b == b;
    } else {
      var head := if a[0].Scrolled? then [a[0].event] else [];
      assert (a + b)[0] == a[0];
      assert (a + b)[1..] == a[1..] + b;
      assert ScrolledEvents(a + b) == head + ScrolledEvents(a[1..] + b);
      ScrolledEventsAppend(a[1..], b);
      assert ScrolledEvents(a) == head + ScrolledEvents(a[1..]);
    }
  }

  /**
   * From a valid state whose recorded event is one of `prior`, every
   * `changed` published carries one of `prior` or of the run's own raw
   * scroll events, and so does the recorded event at the end.
   */
  lemma {:induction false} ChangedCarriesEvent<E>(s: State<E>, sigs: seq<Signal<E>>, prior: seq<E>)
    requires Valid(s) && RecordedFrom(s, prior)
    ensures var o := Run(s, sigs);
      ChangedCarryFrom(o.notes, prior + ScrolledEvents(sigs))
      && RecordedFrom(o.state, prior + ScrolledEvents(sigs))
    decreases |sigs|
  {
    if |sigs| > 0 {
      var first := Step(s, sigs[0]);
      var rest := Run(first.state, sigs[1..]);
      var mid := prior + ScrolledEvents([sigs[0]]);
      StepCarries(s, sigs[0], prior);
      StepValid(s, sigs[0]);
      ChangedCarriesEvent(first.state, sigs[1..], mid);
      assert sigs == [sigs[0]] + sigs[1..];
      ScrolledEventsAppend([sigs[0]], sigs[1..]);
      var all := prior + ScrolledEvents(sigs);
      assert mid + ScrolledEvents(sigs[1..]) == all;
      var notes := first.notes + rest.notes;
      forall i | 0 <= i < |notes| && notes[i].ChangedNote?
        ensures notes[i].lastEvent.Some? && notes[i].lastEvent.value in all
      {
        if i < |first.notes| {
          assert notes[i] == first.notes[i];
          assert notes[i].lastEvent.value in mid;
        } else {
          assert notes[i] == rest.notes[i - |first.notes|];
        }
      }
    }
  }

  lemma {:induction false} InScrolledEvents<E>(sigs: seq<Signal<E>>, e: E)
    requires e in ScrolledEvents(sigs)
    ensures exists j :: 0 <= j < |sigs| && sigs[j].Scrolled? && sigs[j].event == e
    decreases |sigs|
  {
    if sigs[0].Scrolled? && e == sigs[0].event {
      assert sigs[0].Scrolled? && sigs[0].event == e;
    } else {
      InScrolledEvents(sigs[1..], e);
      var j :| 0 <= j < |sigs[1..]| && sigs[1..][j].Scrolled? && sigs[1..][j].event == e;
      assert sigs[j + 1] == sigs[1..][j];
    }
  }

  /**
   * From page load, every `changed` carries the event of one of the run's
   * raw scroll signals, never the initial `null`.
   */
  lemma ChangedCarriesScrollEvent<E>(sigs: seq<Signal<E>>)
    ensures var notes := Run(Init<E>(), sigs).notes;
      forall i :: 0 <= i < |notes| && notes[i].ChangedNote? ==>
        exists j :: 0 <= j < |sigs| && sigs[j].Scrolled? && notes[i].lastEvent == Some(sigs[j].event)
  {
    var notes := Run(Init<E>(), sigs).notes;
    ChangedCarriesEvent(Init<E>(), sigs, []);
    assert [] + ScrolledEvents(sigs) == ScrolledEvents(sigs);
    forall i | 0 <= i < |notes| && notes[i].ChangedNote?
      ensures exists j :: 0 <= j < |sigs| && sigs[j].Scrolled? && notes[i].lastEvent == Some(sigs[j].event)
    {
      InScrolledEvents(sigs, notes[i].lastEvent.value);
    }
  }

  /**
   * A new gesture whose first raw scroll comes long after the previous one
   * settled is measured against the previous gesture's last sample: 10 px in
   * 1000 ms is slow enough, so `changed` is published at once, carrying the
   * previous gesture's event, before the new gesture's first `scroll`.
   */
  lemma StaleCheckSettlesNewGesture()
    ensures var r0 := HostReading(0, 0.0, 0.0, 320.0, 480.0);
      var r20 := HostReading(20, 0.0, 0.0, 320.0, 480.0);
      var r1000 := HostReading(1000, 0.0, 10.0, 320.0, 480.0);
      var sigs := [Scrolled(1, r0, r0), TimerElapsed(r20), Scrolled(2, r1000, r1000)];
      Run(Init<int>(), sigs).notes ==
        [ ScrollNote(1),
          ChangedNote(Some(1), Rect(0.0, 0.0, 320.0, 480.0)),
          ChangedNote(Some(1), Rect(0.0, 10.0, 320.0, 480.0)),
          ScrollNote(2) ]
  {
    var r0 := HostReading(0, 0.0, 0.0, 320.0, 480.0);
    var r20 := HostReading(20, 0.0, 0.0, 320.0, 480.0);
    var r1000 := HostReading(1000, 0.0, 10.0, 320.0, 480.0);
    var sigs := [Scrolled(1, r0, r0), TimerElapsed(r20), Scrolled(2, r1000, r1000)];
    var s0 := Init<int>();
    var o1 := Step(s0, sigs[0]);
    assert o1.notes == [ScrollNote(1)];
    assert o1.state == State(true, Some(1), Some(0), Some(0.0), Some(20));
    var o2 := Step(o1.state, sigs[1]);
    assert WouldSettle(o1.state, r20);
    assert o2.notes == [ChangedNote(Some(1), Rect(0.0, 0.0, 320.0, 480.0))];
    var o3 := Step(o2.state, sigs[2]);
    assert WouldSettle(o2.state, r1000);
    assert o3.notes == [ChangedNote(Some(1), Rect(0.0, 10.0, 320.0, 480.0)), ScrollNote(2)];
    assert sigs[1..][1..][1..] == [];
    assert Run(o2.state, sigs[2..]).notes == o3.notes;
    assert sigs[1..][1..] == sigs[2..];
  }
}
