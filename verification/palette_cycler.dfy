/**
 * Automatic palette cycling (the TypeScript `ColorTransition` class). After
 * each interval it blends from the current palette entry to the next one, then
 * commits: current := next, next := (next + 1) mod n. `Date.now()` becomes the
 * `now` parameter (milliseconds).
 */
module PaletteCycler {
  import opened Colors
  import opened Easing
  import opened Arith

  /** `intervalMinutes` and `transitionDurationSeconds` are JavaScript numbers, so reals. */
  datatype Config = Config(
    enabled: bool,
    colors: seq<Color>,
    intervalMinutes: real,
    transitionDurationSeconds: real)

  datatype Cycler = Cycler(
    currentIndex: int,
    nextIndex: int,
    transitionStartTime: int,
    intervalStartTime: int,
    isTransitioning: bool)

  datatype Poll = Poll(color: Color, next: Cycler)

  function IntervalMs(cfg: Config): real { cfg.intervalMinutes * 60.0 * 1000.0 }
  function TransitionMs(cfg: Config): real { cfg.transitionDurationSeconds * 1000.0 }

  /** With two or more colors both indices point into the palette. */
  predicate IndicesValid(cfg: Config, c: Cycler) {
    |cfg.colors| >= 2 ==>
      0 <= c.currentIndex < |cfg.colors| && 0 <= c.nextIndex < |cfg.colors|
  }

  /** ... and the next index is always the one after the current, cyclically. */
  predicate IndexInvariant(cfg: Config, c: Cycler) {
    IndicesValid(cfg, c) &&
    (|cfg.colors| >= 2 ==> c.nextIndex == (c.currentIndex + 1) % |cfg.colors|)
  }

  /** A running transition never sees the clock before its own start. */
  predicate ClockOk(c: Cycler, now: int) {
    c.isTransitioning ==> c.transitionStartTime <= now
  }

  function New(cfg: Config, now: int): (c: Cycler)
    ensures IndexInvariant(cfg, c) && ClockOk(c, now)
    ensures c.currentIndex == 0 && !c.isTransitioning
  {
    var next := if |cfg.colors| > 0 then (if |cfg.colors| > 1 then 1 else 0) else 1;
    Cycler(0, next, 0, now, false)
  }

  /** `Math.round(f + (g - f) * t)`: round half up. */
  function RoundChannel(f: Channel, g: Channel, t: real): (v: Channel)
    requires 0.0 <= t <= 1.0
    ensures InRange(v, f, g)
    ensures t == 0.0 ==> v == f
    ensures t == 1.0 ==> v == g
    ensures v as real - 0.5 <= f as real + (g - f) as real * t < v as real + 0.5
  {
    LerpBetween(f, g, t);
    (f as real + (g - f) as real * t + 0.5).Floor
  }

  function InterpolateColor(c1: Color, c2: Color, t: real): (c: Color)
    requires 0.0 <= t <= 1.0
    ensures Between(c, c1, c2)
    ensures t == 0.0 ==> c == c1
    ensures t == 1.0 ==> c == c2
  {
    Color(RoundChannel(c1.r, c2.r, t), RoundChannel(c1.g, c2.g, t), RoundChannel(c1.b, c2.b, t))
  }

  /** The interval has run out and no transition is in progress. */
  predicate ShouldStart(cfg: Config, c: Cycler, now: int) {
    !c.isTransitioning && (now - c.intervalStartTime) as real >= IntervalMs(cfg)
  }

  /** The end of a transition: advance both indices and restart the interval. */
  function Commit(cfg: Config, c: Cycler, now: int): Cycler
    requires |cfg.colors| > 0
  {
    c.(isTransitioning := false,
       currentIndex := c.nextIndex,
       nextIndex := (c.nextIndex + 1) % |cfg.colors|,
       intervalStartTime := now)
  }

  /** `Math.min(elapsed / transitionMs, 1)` for a transition that has not gone backwards. */
  function Progress(cfg: Config, elapsed: int): (p: real)
    requires cfg.transitionDurationSeconds > 0.0 && elapsed >= 0
    ensures 0.0 <= p <= 1.0
    ensures p >= 1.0 <==> elapsed as real >= TransitionMs(cfg)
    ensures elapsed == 0 ==> p == 0.0
  {
    var ratio := elapsed as real / TransitionMs(cfg);
    DivAtLeastOne(elapsed as real, TransitionMs(cfg));
    if ratio < 1.0 then ratio else 1.0
  }

  lemma DivAtLeastOne(x: real, d: real)
    requires d > 0.0 && x >= 0.0
    ensures x / d >= 0.0
    ensures x / d >= 1.0 <==> x >= d
  {
    var q := x / d;
    assert q * d == x;
  }

  /** The color shown part way through a transition, at linear progress `p` below one. */
  function Blend(cfg: Config, c: Cycler, p: real): (col: Color)
    requires |cfg.colors| >= 2 && IndicesValid(cfg, c) && 0.0 <= p < 1.0
    ensures Between(col, cfg.colors[c.currentIndex], cfg.colors[c.nextIndex])
    ensures p == 0.0 ==> col == cfg.colors[c.currentIndex]
    ensures var e := EaseInOutCubic(p); var x := cfg.colors[c.currentIndex]; var y := cfg.colors[c.nextIndex];
            && col.r as real - 0.5 <= x.r as real + (y.r - x.r) as real * e < col.r as real + 0.5
            && col.g as real - 0.5 <= x.g as real + (y.g - x.g) as real * e < col.g as real + 0.5
            && col.b as real - 0.5 <= x.b as real + (y.b - x.b) as real * e < col.b as real + 0.5
  {
    EaseRange(p);
    EaseFixedPoints();
    InterpolateColor(cfg.colors[c.currentIndex], cfg.colors[c.nextIndex], EaseInOutCubic(p))
  }

  /** A poll while a transition is running: commit once it has lasted long enough, else blend. */
  function TransitionStep(cfg: Config, c: Cycler, now: int): (r: Poll)
    requires cfg.transitionDurationSeconds > 0.0 && |cfg.colors| >= 2 && IndicesValid(cfg, c)
    requires c.isTransitioning && c.transitionStartTime <= now
    ensures (now - c.transitionStartTime) as real >= TransitionMs(cfg) ==>
              && r.color == cfg.colors[c.nextIndex]
              && r.next.currentIndex == c.nextIndex
              && r.next.nextIndex == (c.nextIndex + 1) % |cfg.colors|
              && r.next.intervalStartTime == now
              && !r.next.isTransitioning
    ensures (now - c.transitionStartTime) as real < TransitionMs(cfg) ==>
              && Between(r.color, cfg.colors[c.currentIndex], cfg.colors[c.nextIndex]) && r.next == c
              && r.color == Blend(cfg, c, Progress(cfg, now - c.transitionStartTime))
    ensures now == c.transitionStartTime ==> r == Poll(cfg.colors[c.currentIndex], c)
    ensures IndicesValid(cfg, r.next) && ClockOk(r.next, now)
  {
    var p := Progress(cfg, now - c.transitionStartTime);
    if p >= 1.0 then
      var c2 := Commit(cfg, c, now);
      Poll(cfg.colors[c2.currentIndex], c2)
    else
      Poll(Blend(cfg, c, p), c)
  }

  function GetCurrentColor(cfg: Config, c: Cycler, now: int): (r: Poll)
    requires cfg.transitionDurationSeconds > 0.0
    requires IndicesValid(cfg, c) && ClockOk(c, now)
    ensures !cfg.enabled || |cfg.colors| == 0 ==> r == Poll(White, c)
    ensures cfg.enabled && |cfg.colors| == 1 ==> r == Poll(cfg.colors[0], c)
    ensures cfg.enabled && |cfg.colors| >= 2 && !c.isTransitioning && !ShouldStart(cfg, c, now) ==>
              r == Poll(cfg.colors[c.currentIndex], c)
    ensures cfg.enabled && |cfg.colors| >= 2 && ShouldStart(cfg, c, now) ==>
              r == Poll(cfg.colors[c.currentIndex], c.(isTransitioning := true, transitionStartTime := now))
    ensures cfg.enabled && |cfg.colors| >= 2 && c.isTransitioning ==>
              if (now - c.transitionStartTime) as real >= TransitionMs(cfg) then
                && r.color == cfg.colors[c.nextIndex]
                && r.next.currentIndex == c.nextIndex
                && r.next.nextIndex == (c.nextIndex + 1) % |cfg.colors|
                && r.next.intervalStartTime == now
                && !r.next.isTransitioning
              else
                && Between(r.color, cfg.colors[c.currentIndex], cfg.colors[c.nextIndex]) && r.next == c
                && r.color == Blend(cfg, c, Progress(cfg, now - c.transitionStartTime))
    ensures IndicesValid(cfg, r.next) && ClockOk(r.next, now)
  {
    if !cfg.enabled || |cfg.colors| == 0 then Poll(White, c)
    else if |cfg.colors| == 1 then Poll(cfg.colors[0], c)
    else
      var c1 := if ShouldStart(cfg, c, now) then c.(isTransitioning := true, transitionStartTime := now) else c;
      if !c1.isTransitioning then Poll(cfg.colors[c1.currentIndex], c1)
      else TransitionStep(cfg, c1, now)
  }

  function Reset(cfg: Config, c: Cycler, now: int): (r: Cycler)
    ensures IndexInvariant(cfg, r) && ClockOk(r, now)
    ensures r.currentIndex == 0 && !r.isTransitioning && r.intervalStartTime == now
  {
    c.(currentIndex := 0,
       nextIndex := if |cfg.colors| > 1 then 1 else 0,
       intervalStartTime := now,
       isTransitioning := false)
  }

  /** Polling keeps the index invariant that the constructor and `Reset` establish. */
  lemma PollKeepsIndexInvariant(cfg: Config, c: Cycler, now: int)
    requires cfg.transitionDurationSeconds > 0.0
    requires IndexInvariant(cfg, c) && ClockOk(c, now)
    ensures IndexInvariant(cfg, GetCurrentColor(cfg, c, now).next)
  {
  }

  /**
   * One full cycle of the machine: the poll that starts a transition and any
   * later poll at least a transition length after it, which lands on the next
   * color exactly and restarts the interval.
   */
  lemma StartThenFinish(cfg: Config, c: Cycler, t0: int, t1: int)
    requires cfg.transitionDurationSeconds > 0.0 && cfg.enabled && |cfg.colors| >= 2
    requires IndexInvariant(cfg, c) && ShouldStart(cfg, c, t0)
    requires t0 <= t1 && (t1 - t0) as real >= TransitionMs(cfg)
    ensures var r := GetCurrentColor(cfg, GetCurrentColor(cfg, c, t0).next, t1);
            && r.color == cfg.colors[(c.currentIndex + 1) % |cfg.colors|]
            && r.next.currentIndex == (c.currentIndex + 1) % |cfg.colors|
            && r.next.intervalStartTime == t1
            && IndexInvariant(cfg, r.next)
  {
  }

  /** `k` commits in a row. */
  function CommitN(cfg: Config, c: Cycler, k: nat, now: int): Cycler
    requires |cfg.colors| > 0
  {
    if k == 0 then c else Commit(cfg, CommitN(cfg, c, k - 1, now), now)
  }

  /** One commit moves the current index one place on and keeps the invariant. */
  lemma CommitAdvances(cfg: Config, c: Cycler, now: int)
    requires |cfg.colors| >= 2 && IndexInvariant(cfg, c)
    ensures Commit(cfg, c, now).currentIndex == (c.currentIndex + 1) % |cfg.colors|
    ensures IndexInvariant(cfg, Commit(cfg, c, now))
  {
  }

  /** After `k` commits the machine shows palette entry `current + k` (mod n): it visits the palette in order. */
  lemma {:induction false} CommitsWalkPalette(cfg: Config, c: Cycler, k: nat, now: int)
    requires |cfg.colors| >= 2 && IndexInvariant(cfg, c)
    ensures CommitN(cfg, c, k, now).currentIndex == (c.currentIndex + k) % |cfg.colors|
    ensures IndexInvariant(cfg, CommitN(cfg, c, k, now))
  {
    if k == 0 {
      ModUnique(c.currentIndex, |cfg.colors|, 0, c.currentIndex);
    } else {
      CommitsWalkPalette(cfg, c, k - 1, now);
      CommitAdvances(cfg, CommitN(cfg, c, k - 1, now), now);
      ModSucc(c.currentIndex + k - 1, |cfg.colors|);
    }
  }

  /** n commits bring the machine back to the color it started from. */
  lemma FullCycleReturns(cfg: Config, c: Cycler, now: int)
    requires |cfg.colors| >= 2 && IndexInvariant(cfg, c)
    ensures CommitN(cfg, c, |cfg.colors|, now).currentIndex == c.currentIndex
  {
    CommitsWalkPalette(cfg, c, |cfg.colors|, now);
    ModUnique(c.currentIndex + |cfg.colors|, |cfg.colors|, 1, c.currentIndex);
  }

  /**
   * `reset` puts the indices back where the constructor puts them, except for
   * an empty palette, where the constructor leaves next at 1 and reset sets 0.
   */
  lemma ResetMatchesNew(cfg: Config, c: Cycler, now: int)
    ensures |cfg.colors| > 0 ==>
              Reset(cfg, c, now) == New(cfg, now).(transitionStartTime := c.transitionStartTime)
    ensures |cfg.colors| == 0 ==> Reset(cfg, c, now).nextIndex == 0 && New(cfg, now).nextIndex == 1
  {
  }
}
