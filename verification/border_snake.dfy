/**
 * The border snake: two windows of at most `maxLength` pixels travelling along
 * the border paths from bottom-centre to top-centre, all painted with the one
 * color the inner animator reports for the frame.
 */
module BorderSnake {
  import opened Colors
  import opened BorderPath
  import Animator

  const DefaultMaxSnakeLength: int := 16

  /** Share of the animation during which the start pixel is drawn as an anchor. */
  const AnchorFraction: real := 0.3

  datatype Pixel = Pixel(pos: Point, color: Color)

  datatype Snake = Snake(
    width: int,
    height: int,
    maxLength: int,
    left: seq<Point>,
    right: seq<Point>,
    animating: bool,
    colorAnimator: Animator.State,
    startTime: int,
    durationMs: int)

  /** One frame of output and the renderer's next state. */
  datatype Frame = Frame(pixels: seq<Pixel>, next: Snake)

  /** The paths are the ones the geometry determines. */
  predicate PathsFixed(s: Snake) {
    s.left == LeftPath(s.width, s.height) && s.right == RightPath(s.width, s.height)
  }

  /** Both animation clocks are running forwards from their start stamps. */
  predicate ClockOk(s: Snake, now: int) {
    (s.animating ==> s.startTime <= now) && Animator.ClockOk(s.colorAnimator, now)
  }

  function New(w: int, h: int, maxLength: int): (s: Snake)
    ensures s.width == w && s.height == h && s.maxLength == maxLength
    ensures PathsFixed(s) && |s.left| == LeftLength(w, h) && |s.right| == RightLength(w, h)
    ensures !s.animating && !Animator.IsAnimating(s.colorAnimator)
  {
    Snake(w, h, maxLength, LeftPath(w, h), RightPath(w, h), false, Animator.Idle, 0, 0)
  }

  function IsAnimating(s: Snake): bool { s.animating }

  function Start(s: Snake, from: Color, to: Color, durationMs: int, now: int): (r: Snake)
    ensures r.colorAnimator == Animator.StartTransition(s.colorAnimator, from, to, durationMs, now)
    ensures IsAnimating(r) && r.startTime == now && r.durationMs == durationMs
    ensures r.width == s.width && r.height == s.height && r.maxLength == s.maxLength
    ensures r.left == s.left && r.right == s.right
    ensures ClockOk(r, now)
  {
    s.(colorAnimator := Animator.StartTransition(s.colorAnimator, from, to, durationMs, now),
       startTime := now, durationMs := durationMs, animating := true)
  }

  function Cancel(s: Snake): (r: Snake)
    ensures !IsAnimating(r) && !Animator.IsAnimating(r.colorAnimator)
    ensures r.colorAnimator.toColor == s.colorAnimator.toColor
    ensures r.width == s.width && r.height == s.height && r.maxLength == s.maxLength
    ensures r.left == s.left && r.right == s.right
  {
    s.(animating := false, colorAnimator := Animator.Cancel(s.colorAnimator))
  }

  /** `static_cast<int>` of a double: truncation toward zero. */
  function TruncToInt(v: real): (n: int)
    ensures v >= 0.0 ==> n == v.Floor
  {
    if v >= 0.0 then v.Floor else -((-v).Floor)
  }

  /** Index of the snake head on a path of length `len`: it overshoots the end by up to `maxLength`. */
  function HeadIndex(progress: real, len: int, maxLength: int): int {
    TruncToInt(progress * (len + maxLength) as real)
  }

  /** First loop offset `i` whose index `head - i` is still on the path. */
  function WindowLow(head: int, len: int): int { Max(0, head - len + 1) }

  /**
   * The pixels `path[head - i]` for `i` in [0, k), in that order, skipping indices off the path.
   * The result is the contiguous stretch of the path ending at `head`, walked backwards.
   */
  function Window(path: seq<Point>, head: int, k: int): (r: seq<Point>)
    ensures |r| == Max0(Min(k - 1, head) - WindowLow(head, |path|) + 1)
    ensures forall t :: 0 <= t < |r| ==> r[t] == path[head - WindowLow(head, |path|) - t]
    decreases k
  {
    if k <= 0 then []
    else
      var i := k - 1;
      Window(path, head, k - 1) + (if 0 <= head - i < |path| then [path[head - i]] else [])
  }

  /** The pixel positions of one frame at linear progress `p`, before coloring. */
  function SnakePositions(s: Snake, p: real): (ps: seq<Point>)
    ensures var hL := HeadIndex(p, |s.left|, s.maxLength);
            var hR := HeadIndex(p, |s.right|, s.maxLength);
            var nL := |Window(s.left, hL, s.maxLength)|;
            var nR := |Window(s.right, hR, s.maxLength)|;
            && |ps| == nL + nR + (if p < AnchorFraction then 1 else 0)
            && (forall t :: 0 <= t < nL ==> ps[t] == s.left[hL - WindowLow(hL, |s.left|) - t])
            && (forall t :: nL <= t < nL + nR ==> ps[t] == s.right[hR - WindowLow(hR, |s.right|) - (t - nL)])
            && (p < AnchorFraction ==> ps[nL + nR] == StartPoint(s.width, s.height))
  {
    var anchor := if p < AnchorFraction then [StartPoint(s.width, s.height)] else [];
    BothWindows(s.left, HeadIndex(p, |s.left|, s.maxLength),
                s.right, HeadIndex(p, |s.right|, s.maxLength), s.maxLength, anchor)
  }

  /** The left window, then the right window, then the optional anchor pixel. */
  function BothWindows(left: seq<Point>, hL: int, right: seq<Point>, hR: int, k: int,
                       anchor: seq<Point>): (ps: seq<Point>)
    ensures var nL := |Window(left, hL, k)|;
            var nR := |Window(right, hR, k)|;
            && |ps| == nL + nR + |anchor|
            && (forall t :: 0 <= t < nL ==> ps[t] == left[hL - WindowLow(hL, |left|) - t])
            && (forall t :: nL <= t < nL + nR ==> ps[t] == right[hR - WindowLow(hR, |right|) - (t - nL)])
            && (forall t :: 0 <= t < |anchor| ==> ps[nL + nR + t] == anchor[t])
  {
    var wl := Window(left, hL, k);
    var wr := Window(right, hR, k);
    Concat3(wl, wr, anchor);
    wl + wr + anchor
  }

  /** Indexing into a three-part concatenation. */
  lemma Concat3<T>(a: seq<T>, b: seq<T>, c: seq<T>)
    ensures |a + b + c| == |a| + |b| + |c|
    ensures forall t :: 0 <= t < |a| ==> (a + b + c)[t] == a[t]
    ensures forall t :: |a| <= t < |a| + |b| ==> (a + b + c)[t] == b[t - |a|]
    ensures forall t :: |a| + |b| <= t < |a| + |b| + |c| ==> (a + b + c)[t] == c[t - |a| - |b|]
  {
  }

  function Paint(ps: seq<Point>, c: Color): (r: seq<Pixel>)
    ensures |r| == |ps|
    ensures forall i :: 0 <= i < |r| ==> r[i] == Pixel(ps[i], c)
  {
    seq(|ps|, i requires 0 <= i < |ps| => Pixel(ps[i], c))
  }

  function Progress(s: Snake, now: int): real
    requires s.startTime <= now < s.startTime + s.durationMs
  {
    (now - s.startTime) as real / s.durationMs as real
  }

  function Update(s: Snake, now: int): (r: Frame)
    requires ClockOk(s, now)
    ensures !s.animating ==> r == Frame([], s)
    ensures s.animating && now - s.startTime >= s.durationMs ==>
              r == Frame([], s.(animating := false))
    ensures s.animating && now - s.startTime < s.durationMs ==>
              && r.next == s.(colorAnimator := Animator.Update(s.colorAnimator, now).next)
              && (forall i :: 0 <= i < |r.pixels| ==>
                    r.pixels[i].color == Animator.Update(s.colorAnimator, now).color)
              && |r.pixels| == |SnakePositions(s, Progress(s, now))| <= 2 * Max0(s.maxLength) + 1
              && (forall i :: 0 <= i < |r.pixels| ==> r.pixels[i].pos == SnakePositions(s, Progress(s, now))[i])
    ensures r.next.left == s.left && r.next.right == s.right && ClockOk(r.next, now)
  {
    if !s.animating then Frame([], s)
    else if now - s.startTime >= s.durationMs then Frame([], s.(animating := false))
    else
      var p := Progress(s, now);
      var poll := Animator.Update(s.colorAnimator, now);
      Frame(Paint(SnakePositions(s, p), poll.color), s.(colorAnimator := poll.next))
  }

  /** A window never holds more than `k` pixels, nor more than the path has. */
  lemma WindowBounded(path: seq<Point>, head: int, k: int)
    ensures |Window(path, head, k)| <= Max0(k) && |Window(path, head, k)| <= |path|
    ensures forall t :: 0 <= t < |Window(path, head, k)| ==> Window(path, head, k)[t] in path
  {
  }

  /** With the head on index 0 a window of positive length holds just the first path pixel. */
  lemma WindowAtHeadZero(path: seq<Point>, k: int)
    requires |path| > 0 && k >= 1
    ensures Window(path, 0, k) == [path[0]]
  {
  }

  /** Each drawn pixel comes from an index among the `k` ending at the head ... */
  lemma WindowIndicesInRange(path: seq<Point>, head: int, k: int)
    ensures forall t :: 0 <= t < |Window(path, head, k)| ==>
              && Window(path, head, k)[t] == path[head - WindowLow(head, |path|) - t]
              && head - k < head - WindowLow(head, |path|) - t <= head
  {
    var r := Window(path, head, k);
    var lo := WindowLow(head, |path|);
    assert |r| <= Max0(k - 1 - lo + 1);
    forall t | 0 <= t < |r|
      ensures r[t] == path[head - lo - t] && head - k < head - lo - t <= head
    {
      assert t <= k - 1 - lo;
    }
  }

  /** ... and every path index among those `k` is drawn, at offset `head - j` from the low end. */
  lemma WindowCoversRange(path: seq<Point>, head: int, k: int, j: int)
    requires 0 <= j < |path| && head - k < j <= head
    ensures 0 <= head - WindowLow(head, |path|) - j < |Window(path, head, k)|
    ensures Window(path, head, k)[head - WindowLow(head, |path|) - j] == path[j]
  {
  }

  /**
   * The first frame of a transition with positive duration: each side shows its
   * first path pixel, then the anchor pixel, all in the start color.
   */
  lemma FirstFrame(s: Snake, from: Color, to: Color, d: int, now: int)
    requires d > 0 && s.maxLength >= 1 && |s.left| > 0 && |s.right| > 0
    ensures Update(Start(s, from, to, d, now), now).pixels ==
            [Pixel(s.left[0], from), Pixel(s.right[0], from), Pixel(StartPoint(s.width, s.height), from)]
  {
    var s1 := Start(s, from, to, d, now);
    assert Progress(s1, now) == 0.0;
    assert HeadIndex(0.0, |s.left|, s.maxLength) == 0;
    assert HeadIndex(0.0, |s.right|, s.maxLength) == 0;
    WindowAtHeadZero(s.left, s.maxLength);
    WindowAtHeadZero(s.right, s.maxLength);
    Animator.StartShowsFromColor(s.colorAnimator, from, to, d, now);
  }

  /** The anchor pixel closes the frame exactly while linear progress is below 0.3. */
  lemma AnchorRule(s: Snake, p: real)
    ensures p < AnchorFraction ==> SnakePositions(s, p)[|SnakePositions(s, p)| - 1] == StartPoint(s.width, s.height)
    ensures |SnakePositions(s, p)| <= 2 * Max0(s.maxLength) + (if p < AnchorFraction then 1 else 0)
  {
    WindowBounded(s.left, HeadIndex(p, |s.left|, s.maxLength), s.maxLength);
    WindowBounded(s.right, HeadIndex(p, |s.right|, s.maxLength), s.maxLength);
  }

  /**
   * The snake and its inner animator run in lockstep: while the snake runs every
   * pixel carries a blend of the two endpoint colors and the animator keeps running.
   */
  lemma LockstepColor(s: Snake, from: Color, to: Color, d: int, t0: int, now: int)
    requires t0 <= now < t0 + d
    ensures var f := Update(Start(s, from, to, d, t0), now);
            && Animator.IsAnimating(f.next.colorAnimator)
            && forall i :: 0 <= i < |f.pixels| ==> Between(f.pixels[i].color, from, to)
  {
  }

  /** A cancelled snake draws nothing and its inner animator reports the target. */
  lemma CancelledSnakeIsBlank(s: Snake, now: int)
    ensures Update(Cancel(s), now) == Frame([], Cancel(s))
    ensures Animator.Update(Cancel(s).colorAnimator, now).color == s.colorAnimator.toColor
  {
  }

  /** Every operation keeps the paths computed at construction. */
  lemma PathsNeverChange(s: Snake, from: Color, to: Color, d: int, now: int)
    requires PathsFixed(s) && ClockOk(s, now)
    ensures Start(s, from, to, d, now).left == s.left && Start(s, from, to, d, now).right == s.right
    ensures Cancel(s).left == s.left && Cancel(s).right == s.right
    ensures Update(s, now).next.left == s.left && Update(s, now).next.right == s.right
    ensures PathsFixed(Start(s, from, to, d, now))
    ensures PathsFixed(Cancel(s))
    ensures PathsFixed(Update(s, now).next)
  {
  }

  /** Half way through a 1000 ms run on the 64x32 panel the heads sit at 55 (left) and 54 (right). */
  lemma Panel64x32Halfway()
    ensures HeadIndex(0.5, LeftLength(64, 32), DefaultMaxSnakeLength) == 55
    ensures HeadIndex(0.5, RightLength(64, 32), DefaultMaxSnakeLength) == 54
    ensures var s := Start(New(64, 32, DefaultMaxSnakeLength), Black, White, 1000, 0);
            Progress(s, 500) == 0.5 && |Update(s, 500).pixels| == 32
  {
    var s := Start(New(64, 32, DefaultMaxSnakeLength), Black, White, 1000, 0);
    assert Progress(s, 500) == 0.5;
    assert HeadIndex(0.5, 95, 16) == 55;
    assert HeadIndex(0.5, 93, 16) == 54;
  }
}
