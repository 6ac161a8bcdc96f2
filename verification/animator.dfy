/**
 * The color transition animator: an idle/animating state machine that blends
 * from one color to another over a duration, polled with the current time in
 * milliseconds (the steady clock read becomes the `now` parameter).
 */
module Animator {
  import opened Colors
  import opened Easing

  datatype State = State(
    animating: bool,
    fromColor: Color,
    toColor: Color,
    durationMs: int,
    startTime: int)

  /** Result of one poll: the color to show and the animator's next state. */
  datatype Poll = Poll(color: Color, next: State)

  /** A freshly constructed animator: idle, black endpoints, zero duration, clock epoch. */
  const Idle: State := State(false, Black, Black, 0, 0)

  /** The steady clock never runs backwards past the start of a running transition. */
  predicate ClockOk(a: State, now: int) {
    a.animating ==> a.startTime <= now
  }

  function StartTransition(a: State, from: Color, to: Color, durationMs: int, now: int): (r: State)
    ensures r.animating && ClockOk(r, now)
    ensures r.fromColor == from && r.toColor == to
    ensures r.durationMs == durationMs && r.startTime == now
  {
    State(true, from, to, durationMs, now)
  }

  function IsAnimating(a: State): bool { a.animating }

  function Cancel(a: State): (r: State)
    ensures !IsAnimating(r)
    ensures r.toColor == a.toColor
  {
    a.(animating := false)
  }

  /** Per-channel blend `from*(1-t) + to*t`, truncated by the cast to `uint8_t`. */
  function BlendChannel(f: Channel, g: Channel, t: real): (c: Channel)
    requires 0.0 <= t <= 1.0
    ensures InRange(c, f, g)
    ensures t == 0.0 ==> c == f
    ensures t == 1.0 ==> c == g
  {
    BlendBetween(f, g, t);
    (f as real * (1.0 - t) + g as real * t).Floor
  }

  lemma BlendBetween(f: int, g: int, t: real)
    requires 0.0 <= t <= 1.0
    ensures Min(f, g) as real <= f as real * (1.0 - t) + g as real * t <= Max(f, g) as real
  {
    var v := f as real * (1.0 - t) + g as real * t;
    assert v == f as real + (g - f) as real * t;
    LerpBetween(f, g, t);
  }

  function InterpolateColor(from: Color, to: Color, t: real): (c: Color)
    requires 0.0 <= t <= 1.0
    ensures Between(c, from, to)
    ensures t == 0.0 ==> c == from
    ensures t == 1.0 ==> c == to
  {
    Color(BlendChannel(from.r, to.r, t), BlendChannel(from.g, to.g, t), BlendChannel(from.b, to.b, t))
  }

  /** A blended channel is the weighted average `f*(1-t) + g*t` with its fraction cut off. */
  lemma BlendIsTruncatedAverage(f: Channel, g: Channel, t: real)
    requires 0.0 <= t <= 1.0
    ensures var c := BlendChannel(f, g, t);
            c as real <= f as real * (1.0 - t) + g as real * t < c as real + 1.0
  {
  }

  /** Linear progress of a transition that has neither finished nor gone backwards. */
  function Progress(a: State, now: int): (p: real)
    requires a.startTime <= now < a.startTime + a.durationMs
    ensures 0.0 <= p < 1.0
  {
    (now - a.startTime) as real / a.durationMs as real
  }

  function Update(a: State, now: int): (r: Poll)
    requires ClockOk(a, now)
    ensures !a.animating ==> r == Poll(a.toColor, a)
    ensures a.animating && now - a.startTime >= a.durationMs ==>
              r.color == a.toColor && r.next == a.(animating := false)
    ensures a.animating && now - a.startTime < a.durationMs ==>
              r.next == a && Between(r.color, a.fromColor, a.toColor)
    ensures r.next.toColor == a.toColor && ClockOk(r.next, now)
  {
    if !a.animating then Poll(a.toColor, a)
    else if now - a.startTime >= a.durationMs then Poll(a.toColor, a.(animating := false))
    else
      var p := Progress(a, now);
      EaseRange(p);
      Poll(InterpolateColor(a.fromColor, a.toColor, EaseInOutCubic(p)), a)
  }

  /** The eased interpolation factor used at `now`: `EaseInOutCubic` of the linear progress. */
  function Factor(a: State, now: int): (e: real)
    requires a.startTime <= now < a.startTime + a.durationMs
    ensures 0.0 <= e < 1.0
  {
    var p := Progress(a, now);
    EaseRange(p);
    EaseNotOneBelowOne(p);
    EaseInOutCubic(p)
  }

  /** Mid-transition a poll shows the blend of the endpoints at the eased factor. */
  lemma UpdateBlendsAtFactor(a: State, now: int)
    requires a.animating && a.startTime <= now < a.startTime + a.durationMs
    ensures Update(a, now).color == InterpolateColor(a.fromColor, a.toColor, Factor(a, now))
  {
  }

  /** Each channel of a blended color is the truncated weighted average of the endpoint channels. */
  lemma InterpolateIsTruncatedAverage(x: Color, y: Color, e: real)
    requires 0.0 <= e <= 1.0
    ensures var c := InterpolateColor(x, y, e);
            && c.r as real <= x.r as real * (1.0 - e) + y.r as real * e < c.r as real + 1.0
            && c.g as real <= x.g as real * (1.0 - e) + y.g as real * e < c.g as real + 1.0
            && c.b as real <= x.b as real * (1.0 - e) + y.b as real * e < c.b as real + 1.0
  {
    BlendIsTruncatedAverage(x.r, y.r, e);
    BlendIsTruncatedAverage(x.g, y.g, e);
    BlendIsTruncatedAverage(x.b, y.b, e);
  }

  /**
   * Mid-transition every channel is the eased weighted average of the endpoint
   * channels, truncated: `from*(1-e) + to*e` with `e` the eased linear progress `Factor`.
   */
  lemma UpdateIsEasedBlend(a: State, now: int)
    requires a.animating && a.startTime <= now < a.startTime + a.durationMs
    ensures var e := Factor(a, now); var c := Update(a, now).color;
            && c.r as real <= a.fromColor.r as real * (1.0 - e) + a.toColor.r as real * e < c.r as real + 1.0
            && c.g as real <= a.fromColor.g as real * (1.0 - e) + a.toColor.g as real * e < c.g as real + 1.0
            && c.b as real <= a.fromColor.b as real * (1.0 - e) + a.toColor.b as real * e < c.b as real + 1.0
  {
    UpdateBlendsAtFactor(a, now);
    InterpolateIsTruncatedAverage(a.fromColor, a.toColor, Factor(a, now));
  }

  lemma EaseNotOneBelowOne(t: real)
    requires 0.0 <= t < 1.0
    ensures EaseInOutCubic(t) < 1.0
  {
    if t >= 0.5 {
      CubeStrict(0.0, -2.0 * t + 2.0);
    }
  }

  /** A fresh animator is idle and reports black. */
  lemma FreshAnimatorIsIdle(now: int)
    ensures !IsAnimating(Idle)
    ensures Update(Idle, now).color == Black
  {
  }

  /** Starting a transition forgets everything about the previous state. */
  lemma StartOverwritesPriorState(a: State, b: State, from: Color, to: Color, d: int, now: int)
    ensures StartTransition(a, from, to, d, now) == StartTransition(b, from, to, d, now)
    ensures Update(StartTransition(a, from, to, d, now), now).color
         == Update(StartTransition(b, from, to, d, now), now).color
  {
  }

  /** Polling twice at the same instant gives the same color and state. */
  lemma UpdateIdempotent(a: State, now: int)
    requires ClockOk(a, now)
    ensures Update(Update(a, now).next, now) == Poll(Update(a, now).color, Update(a, now).next)
  {
  }

  /** At the instant a transition with positive duration starts, the start color is shown exactly. */
  lemma StartShowsFromColor(a: State, from: Color, to: Color, d: int, now: int)
    requires d > 0
    ensures Update(StartTransition(a, from, to, d, now), now) ==
            Poll(from, StartTransition(a, from, to, d, now))
  {
    var s := StartTransition(a, from, to, d, now);
    assert Progress(s, now) == 0.0;
    EaseFixedPoints();
  }

  /**
   * A started transition with positive duration keeps running, between its endpoints,
   * before `t0 + d`, and from `t0 + d` on reports the target exactly and goes idle.
   */
  lemma StartThenComplete(a: State, from: Color, to: Color, d: int, t0: int, t1: int)
    requires d > 0 && t0 <= t1
    ensures var u := Update(StartTransition(a, from, to, d, t0), t1);
            && (t1 < t0 + d ==> IsAnimating(u.next) && Between(u.color, from, to))
            && (t1 >= t0 + d ==> u.color == to && !IsAnimating(u.next))
  {
  }

  /** A non-positive duration completes on the first poll, with the target exactly. */
  lemma NonPositiveDurationCompletesAtOnce(a: State, from: Color, to: Color, d: int, start: int, now: int)
    requires d <= 0 && start <= now
    ensures Update(StartTransition(a, from, to, d, start), now).color == to
    ensures !IsAnimating(Update(StartTransition(a, from, to, d, start), now).next)
  {
  }

  /** After cancel the animator is idle and reports the declared target, not a mid-blend value. */
  lemma CancelReportsTarget(a: State, now: int)
    ensures !IsAnimating(Cancel(a))
    ensures Update(Cancel(a), now) == Poll(a.toColor, Cancel(a))
  {
  }

  /** Later polls of one running transition never use a smaller interpolation factor. */
  lemma FactorMonotone(a: State, t1: int, t2: int)
    requires a.startTime <= t1 <= t2 < a.startTime + a.durationMs
    ensures Factor(a, t1) <= Factor(a, t2)
  {
    var d := a.durationMs as real;
    var e1 := (t1 - a.startTime) as real;
    var e2 := (t2 - a.startTime) as real;
    DivMonotone(e1, e2, d);
    EaseMonotone(Progress(a, t1), Progress(a, t2));
  }

  lemma DivMonotone(x: real, y: real, d: real)
    requires x <= y && d > 0.0
    ensures x / d <= y / d
  {
    assert y / d - x / d == (y - x) / d;
  }

  /**
   * Every channel moves monotonically over one transition: a channel that rises from
   * `from` to `to` never decreases between polls, and one that falls never increases.
   */
  lemma ChannelMonotone(a: State, t1: int, t2: int)
    requires a.animating
    requires a.startTime <= t1 <= t2 < a.startTime + a.durationMs
    ensures var c1 := Update(a, t1).color; var c2 := Update(a, t2).color;
            && (a.fromColor.r <= a.toColor.r ==> c1.r <= c2.r)
            && (a.fromColor.r >= a.toColor.r ==> c1.r >= c2.r)
            && (a.fromColor.g <= a.toColor.g ==> c1.g <= c2.g)
            && (a.fromColor.g >= a.toColor.g ==> c1.g >= c2.g)
            && (a.fromColor.b <= a.toColor.b ==> c1.b <= c2.b)
            && (a.fromColor.b >= a.toColor.b ==> c1.b >= c2.b)
  {
    FactorMonotone(a, t1, t2);
    var s, t := Factor(a, t1), Factor(a, t2);
    BlendMonotone(a.fromColor.r, a.toColor.r, s, t);
    BlendMonotone(a.fromColor.g, a.toColor.g, s, t);
    BlendMonotone(a.fromColor.b, a.toColor.b, s, t);
  }

  /** A later blend factor moves a channel further from `f` towards `g`, in either direction. */
  lemma BlendMonotone(f: Channel, g: Channel, s: real, t: real)
    requires 0.0 <= s <= t <= 1.0
    ensures f <= g ==> BlendChannel(f, g, s) <= BlendChannel(f, g, t)
    ensures f >= g ==> BlendChannel(f, g, s) >= BlendChannel(f, g, t)
  {
    var vs := f as real * (1.0 - s) + g as real * s;
    var vt := f as real * (1.0 - t) + g as real * t;
    var d := (g - f) as real;
    assert vs == f as real + d * s;
    assert vt == f as real + d * t;
    if f <= g {
      ScaleMonotone(d, s, t);
      FloorMonotone(vs, vt);
    } else {
      ScaleAntitone(d, s, t);
      assert vt <= vs;
      FloorMonotone(vt, vs);
    }
  }

  lemma ScaleAntitone(d: real, s: real, t: real)
    requires d <= 0.0 && s <= t
    ensures d * t <= d * s
  {
    ScaleMonotone(-d, s, t);
    assert (-d) * s == -(d * s);
    assert (-d) * t == -(d * t);
  }

  lemma ScaleMonotone(d: real, s: real, t: real)
    requires 0.0 <= d && s <= t
    ensures d * s <= d * t
  {
    assert d * t - d * s == d * (t - s);
  }

  lemma FloorMonotone(x: real, y: real)
    requires x <= y
    ensures x.Floor <= y.Floor
  {
  }
}
