/**
 * Edge detection and press classification for the push button, as in
 * `GPIOButton::poll`: the pin read and the clock read become parameters, and
 * the two callbacks become the returned event. Pin level 1 is released
 * (pull-up), 0 is pressed, a negative read is a failed read.
 */
module Button {

  datatype Event = NoEvent | ShortPress | LongPress

  /** Debounce and long-press thresholds in milliseconds. */
  datatype Timing = Timing(debounceMs: int, longPressMs: int)

  /** The constructor's defaults: 80 ms debounce, 1000 ms long press. */
  const DefaultTiming: Timing := Timing(80, 1000)

  datatype Button = Button(lastValue: int, pressStart: int, wasPressed: bool)

  datatype Step = Step(event: Event, next: Button)

  /** Released pin, no press recorded. */
  const Released: Button := Button(1, 0, false)

  predicate FallingEdge(b: Button, value: int) { b.lastValue == 1 && value == 0 }

  predicate RisingEdge(b: Button, value: int) { b.lastValue == 0 && value == 1 && b.wasPressed }

  /** The event a release after `duration` milliseconds fires. */
  function Classify(duration: int, t: Timing): (e: Event)
    ensures e == LongPress <==> duration >= t.longPressMs
    ensures e == ShortPress <==> t.debounceMs <= duration < t.longPressMs
    ensures e == NoEvent <==> duration < t.debounceMs && duration < t.longPressMs
  {
    if duration >= t.longPressMs then LongPress
    else if duration >= t.debounceMs then ShortPress
    else NoEvent
  }

  function Poll(b: Button, t: Timing, value: int, now: int): (r: Step)
    ensures value < 0 ==> r == Step(NoEvent, b)
    ensures value >= 0 ==> r.next.lastValue == value
    ensures value >= 0 && FallingEdge(b, value) ==>
              r.event == NoEvent && r.next.wasPressed && r.next.pressStart == now
    ensures value >= 0 && RisingEdge(b, value) ==>
              && (r.event == LongPress <==> now - b.pressStart >= t.longPressMs)
              && (r.event == ShortPress <==> t.debounceMs <= now - b.pressStart < t.longPressMs)
              && !r.next.wasPressed
    ensures !RisingEdge(b, value) ==> r.event == NoEvent
    ensures value >= 0 && !FallingEdge(b, value) && !RisingEdge(b, value) ==>
              r.next == b.(lastValue := value)
  {
    if value < 0 then Step(NoEvent, b)
    else if FallingEdge(b, value) then Step(NoEvent, Button(value, now, true))
    else if RisingEdge(b, value) then
      Step(Classify(now - b.pressStart, t), Button(value, b.pressStart, false))
    else Step(NoEvent, b.(lastValue := value))
  }

  /**
   * A button built with the constructor's defaults: a press from `t0` to `t1` fires
   * nothing below 80 ms, a short press from 80 ms and a long press from 1000 ms.
   */
  lemma DefaultTimingClassifies(t0: int, t1: int)
    ensures var pressed := Poll(Released, DefaultTiming, 0, t0).next;
            var e := Poll(pressed, DefaultTiming, 1, t1).event;
            && pressed.wasPressed
            && (e == NoEvent <==> t1 - t0 < 80)
            && (e == ShortPress <==> 80 <= t1 - t0 < 1000)
            && (e == LongPress <==> t1 - t0 >= 1000)
  {
  }

  /** One sample of the pin: the value read and the time it was read at. */
  datatype Sample = Sample(value: int, now: int)

  /** The button after polling every sample in turn. */
  function Run(b: Button, t: Timing, samples: seq<Sample>): Button
    decreases |samples|
  {
    if |samples| == 0 then b
    else Run(Poll(b, t, samples[0].value, samples[0].now).next, t, samples[1..])
  }

  /** How many events polling the samples fires. */
  function EventCount(b: Button, t: Timing, samples: seq<Sample>): nat
    decreases |samples|
  {
    if |samples| == 0 then 0
    else
      var step := Poll(b, t, samples[0].value, samples[0].now);
      (if step.event == NoEvent then 0 else 1) + EventCount(step.next, t, samples[1..])
  }

  /** Falling edges in the successful reads, starting from last level `last`. */
  function FallingEdges(last: int, samples: seq<Sample>): nat
    decreases |samples|
  {
    if |samples| == 0 then 0
    else if samples[0].value < 0 then FallingEdges(last, samples[1..])
    else (if last == 1 && samples[0].value == 0 then 1 else 0) + FallingEdges(samples[0].value, samples[1..])
  }

  function Pending(b: Button): nat { if b.wasPressed then 1 else 0 }

  /**
   * Each press yields at most one event: over any run, events fired plus a
   * press still pending at the end never exceed the presses begun (falling
   * edges) plus one pending at the start.
   */
  lemma {:induction false} AtMostOneEventPerPress(b: Button, t: Timing, samples: seq<Sample>)
    ensures EventCount(b, t, samples) + Pending(Run(b, t, samples))
            <= FallingEdges(b.lastValue, samples) + Pending(b)
    decreases |samples|
  {
    if |samples| > 0 {
      var step := Poll(b, t, samples[0].value, samples[0].now);
      AtMostOneEventPerPress(step.next, t, samples[1..]);
      if samples[0].value >= 0 {
        assert step.next.lastValue == samples[0].value;
      }
    }
  }
}
