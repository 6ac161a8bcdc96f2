/**
 * The two border paths of the snake animation. Both start next to the
 * bottom-centre pixel (W/2, H-1) and run to the top-centre: the left one
 * counter-clockwise, the right one clockwise. Each is three runs: along the
 * bottom row, up a side column, along the top row.
 *
 * The paths are given twice: `LeftPoint`/`RightPoint` say in closed form which
 * pixel sits at each index, and `GenerateBorderPath` builds them with the same
 * six loops as the C++ constructor and is proved to agree.
 */
module BorderPath {

  datatype Point = Point(x: int, y: int)

  /** C++ integer division by two, which truncates toward zero. */
  function Half(n: int): (h: int)
    ensures n >= 0 ==> 2 * h <= n <= 2 * h + 1
    ensures n < 0 ==> 2 * h - 1 <= n <= 2 * h
  {
    if n >= 0 then n / 2 else -((-n) / 2)
  }

  function Max0(n: int): nat { if n < 0 then 0 else n }

  /** The bottom-centre pixel both snakes start from. */
  function StartPoint(w: int, h: int): Point { Point(Half(w), h - 1) }

  /** Pixels in each horizontal run of the left path (bottom and top alike). */
  function LeftRun(w: int): nat { Max0(Half(w)) }
  /** Pixels in each horizontal run of the right path (bottom and top alike). */
  function RightRun(w: int): nat { Max0(w - 1 - Half(w)) }
  /** Pixels in the side column of either path. */
  function SideRun(h: int): nat { Max0(h - 1) }

  function LeftLength(w: int, h: int): nat { 2 * LeftRun(w) + SideRun(h) }
  function RightLength(w: int, h: int): nat { 2 * RightRun(w) + SideRun(h) }

  function LeftPoint(w: int, h: int, i: int): Point
    requires 0 <= i < LeftLength(w, h)
  {
    var nb := LeftRun(w);
    var c := SideRun(h);
    if i < nb then Point(Half(w) - 1 - i, h - 1)
    else if i < nb + c then Point(0, h - 2 - (i - nb))
    else Point(1 + (i - nb - c), 0)
  }

  function RightPoint(w: int, h: int, i: int): Point
    requires 0 <= i < RightLength(w, h)
  {
    var nb := RightRun(w);
    var c := SideRun(h);
    if i < nb then Point(Half(w) + 1 + i, h - 1)
    else if i < nb + c then Point(w - 1, h - 2 - (i - nb))
    else Point(w - 2 - (i - nb - c), 0)
  }

  function LeftPath(w: int, h: int): seq<Point> {
    seq(LeftLength(w, h), i requires 0 <= i < LeftLength(w, h) => LeftPoint(w, h, i))
  }

  function RightPath(w: int, h: int): seq<Point> {
    seq(RightLength(w, h), i requires 0 <= i < RightLength(w, h) => RightPoint(w, h, i))
  }

  /** The constructor's path generation, loop for loop. */
  method GenerateBorderPath(w: int, h: int) returns (left: seq<Point>, right: seq<Point>)
    ensures |left| == 2 * LeftRun(w) + SideRun(h)
    ensures |right| == 2 * RightRun(w) + SideRun(h)
    ensures forall i :: 0 <= i < |left| ==> left[i] == LeftPoint(w, h, i)
    ensures forall i :: 0 <= i < |right| ==> right[i] == RightPoint(w, h, i)
  {
    var startX := Half(w);
    var startY := h - 1;
    var nb := LeftRun(w);
    var c := SideRun(h);

    left := [];
    var x := startX - 1;
    while x >= 0
      invariant x == startX - 1 - |left| && |left| <= nb
      invariant forall k :: 0 <= k < |left| ==> left[k] == Point(startX - 1 - k, startY)
    {
      left := left + [Point(x, startY)];
      x := x - 1;
    }
    assert |left| == nb;
    var y := startY - 1;
    while y >= 0
      invariant y == startY - 1 - (|left| - nb) && nb <= |left| <= nb + c
      invariant forall k :: 0 <= k < nb ==> left[k] == Point(startX - 1 - k, startY)
      invariant forall k :: nb <= k < |left| ==> left[k] == Point(0, h - 2 - (k - nb))
    {
      left := left + [Point(0, y)];
      y := y - 1;
    }
    assert |left| == nb + c;
    x := 1;
    while x <= Half(w)
      invariant x == 1 + (|left| - nb - c) && nb + c <= |left| <= 2 * nb + c
      invariant forall k :: 0 <= k < nb ==> left[k] == Point(startX - 1 - k, startY)
      invariant forall k :: nb <= k < nb + c ==> left[k] == Point(0, h - 2 - (k - nb))
      invariant forall k :: nb + c <= k < |left| ==> left[k] == Point(1 + (k - nb - c), 0)
    {
      left := left + [Point(x, 0)];
      x := x + 1;
    }
    assert |left| == 2 * nb + c;

    var mb := RightRun(w);
    right := [];
    x := startX + 1;
    while x < w
      invariant x == startX + 1 + |right| && |right| <= mb
      invariant forall k :: 0 <= k < |right| ==> right[k] == Point(startX + 1 + k, startY)
    {
      right := right + [Point(x, startY)];
      x := x + 1;
    }
    assert |right| == mb;
    y := startY - 1;
    while y >= 0
      invariant y == startY - 1 - (|right| - mb) && mb <= |right| <= mb + c
      invariant forall k :: 0 <= k < mb ==> right[k] == Point(startX + 1 + k, startY)
      invariant forall k :: mb <= k < |right| ==> right[k] == Point(w - 1, h - 2 - (k - mb))
    {
      right := right + [Point(w - 1, y)];
      y := y - 1;
    }
    assert |right| == mb + c;
    x := w - 2;
    while x >= startX
      invariant x == w - 2 - (|right| - mb - c) && mb + c <= |right| <= 2 * mb + c
      invariant forall k :: 0 <= k < mb ==> right[k] == Point(startX + 1 + k, startY)
      invariant forall k :: mb <= k < mb + c ==> right[k] == Point(w - 1, h - 2 - (k - mb))
      invariant forall k :: mb + c <= k < |right| ==> right[k] == Point(w - 2 - (k - mb - c), 0)
    {
      right := right + [Point(x, 0)];
      x := x - 1;
    }
  }

  predicate InBounds(p: Point, w: int, h: int) {
    0 <= p.x < w && 0 <= p.y < h
  }

  /** `p` and `q` differ by one step along exactly one axis. */
  predicate Adjacent(p: Point, q: Point) {
    var dx := p.x - q.x;
    var dy := p.y - q.y;
    (dx == 0 && (dy == 1 || dy == -1)) || (dy == 0 && (dx == 1 || dx == -1))
  }

  /** A path stays on the display, never repeats a pixel and moves one pixel at a time. */
  predicate WellFormedPath(path: seq<Point>, w: int, h: int) {
    && (forall i :: 0 <= i < |path| ==> InBounds(path[i], w, h))
    && (forall i, j :: 0 <= i < j < |path| ==> path[i] != path[j])
    && (forall i :: 0 <= i < |path| - 1 ==> Adjacent(path[i], path[i + 1]))
  }

  lemma LeftStep(w: int, h: int, i: int)
    requires w >= 1 && h >= 1 && 0 <= i < LeftLength(w, h) - 1
    ensures InBounds(LeftPoint(w, h, i), w, h)
    ensures Adjacent(LeftPoint(w, h, i), LeftPoint(w, h, i + 1))
  {
    var nb, c := LeftRun(w), SideRun(h);
    if i + 1 < nb {
    } else if i + 1 == nb {
      if c == 0 { assert h == 1; }
    } else if i + 1 < nb + c {
    } else if i + 1 == nb + c {
    } else {
    }
  }

  lemma RightStep(w: int, h: int, i: int)
    requires w >= 1 && h >= 1 && 0 <= i < RightLength(w, h) - 1
    ensures InBounds(RightPoint(w, h, i), w, h)
    ensures Adjacent(RightPoint(w, h, i), RightPoint(w, h, i + 1))
  {
    var nb, c := RightRun(w), SideRun(h);
    if i + 1 < nb {
    } else if i + 1 == nb {
      if c == 0 { assert h == 1; }
    } else if i + 1 < nb + c {
    } else if i + 1 == nb + c {
    } else {
    }
  }

  /** On any non-empty display consecutive path pixels are 4-adjacent and on the display. */
  lemma BorderPathsConnected(w: int, h: int)
    requires w >= 1 && h >= 1
    ensures forall i :: 0 <= i < LeftLength(w, h) ==> InBounds(LeftPoint(w, h, i), w, h)
    ensures forall i :: 0 <= i < RightLength(w, h) ==> InBounds(RightPoint(w, h, i), w, h)
    ensures forall i :: 0 <= i < LeftLength(w, h) - 1 ==> Adjacent(LeftPoint(w, h, i), LeftPoint(w, h, i + 1))
    ensures forall i :: 0 <= i < RightLength(w, h) - 1 ==> Adjacent(RightPoint(w, h, i), RightPoint(w, h, i + 1))
  {
    forall i | 0 <= i < LeftLength(w, h) - 1
      ensures Adjacent(LeftPoint(w, h, i), LeftPoint(w, h, i + 1))
    {
      LeftStep(w, h, i);
    }
    forall i | 0 <= i < RightLength(w, h) - 1
      ensures Adjacent(RightPoint(w, h, i), RightPoint(w, h, i + 1))
    {
      RightStep(w, h, i);
    }
  }

  lemma LeftInjective(w: int, h: int, i: int, j: int)
    requires w >= 1 && h >= 2 && 0 <= i < j < LeftLength(w, h)
    ensures LeftPoint(w, h, i) != LeftPoint(w, h, j)
  {
    var nb, c := LeftRun(w), SideRun(h);
    if j < nb {
    } else if j < nb + c {
      if i < nb { assert LeftPoint(w, h, i).y == h - 1; }
    } else {
      if i < nb { assert LeftPoint(w, h, i).y == h - 1; }
      else if i < nb + c { assert LeftPoint(w, h, i).x == 0; }
    }
  }

  lemma RightInjective(w: int, h: int, i: int, j: int)
    requires w >= 1 && h >= 2 && 0 <= i < j < RightLength(w, h)
    ensures RightPoint(w, h, i) != RightPoint(w, h, j)
  {
    var nb, c := RightRun(w), SideRun(h);
    if j < nb {
    } else if j < nb + c {
      if i < nb { assert RightPoint(w, h, i).y == h - 1; }
    } else {
      if i < nb { assert RightPoint(w, h, i).y == h - 1; }
      else if i < nb + c { assert RightPoint(w, h, i).x == w - 1; }
    }
  }

  /** On a display at least two pixels tall both paths are well formed. */
  lemma BorderPathsWellFormed(w: int, h: int)
    requires w >= 1 && h >= 2
    ensures WellFormedPath(LeftPath(w, h), w, h)
    ensures WellFormedPath(RightPath(w, h), w, h)
  {
    BorderPathsConnected(w, h);
    var left, right := LeftPath(w, h), RightPath(w, h);
    forall i, j | 0 <= i < j < |left|
      ensures left[i] != left[j]
    {
      LeftInjective(w, h, i, j);
    }
    forall i, j | 0 <= i < j < |right|
      ensures right[i] != right[j]
    {
      RightInjective(w, h, i, j);
    }
  }

  /** A one-pixel-tall display makes the left path revisit a pixel: the bottom and top runs share row 0. */
  lemma SingleRowPathRepeats()
    ensures LeftLength(4, 1) == 4
    ensures LeftPoint(4, 1, 0) == LeftPoint(4, 1, 2) == Point(1, 0)
  {
    assert Half(4) == 2 && LeftRun(4) == 2 && SideRun(1) == 0;
  }

  /**
   * Both paths leave the start pixel (W/2, H-1) for a 4-neighbour of it, and both
   * end at the top-centre pixel (W/2, 0).
   */
  lemma BorderPathEnds(w: int, h: int)
    requires w >= 1 && h >= 2
    ensures LeftLength(w, h) > 0 && RightLength(w, h) > 0
    ensures Adjacent(StartPoint(w, h), LeftPath(w, h)[0])
    ensures Adjacent(StartPoint(w, h), RightPath(w, h)[0])
    ensures LeftPath(w, h)[LeftLength(w, h) - 1] == Point(Half(w), 0)
    ensures RightPath(w, h)[RightLength(w, h) - 1] == Point(Half(w), 0)
  {
  }

  /** The 64x32 panel: the paths are 95 and 93 pixels long, not equal. */
  lemma Panel64x32Paths()
    ensures LeftLength(64, 32) == 95 && RightLength(64, 32) == 93
    ensures StartPoint(64, 32) == Point(32, 31)
    ensures LeftPoint(64, 32, 0) == Point(31, 31) && LeftPoint(64, 32, 31) == Point(0, 31)
    ensures LeftPoint(64, 32, 32) == Point(0, 30) && LeftPoint(64, 32, 62) == Point(0, 0)
    ensures LeftPoint(64, 32, 63) == Point(1, 0) && LeftPoint(64, 32, 94) == Point(32, 0)
    ensures RightPoint(64, 32, 0) == Point(33, 31) && RightPoint(64, 32, 30) == Point(63, 31)
    ensures RightPoint(64, 32, 31) == Point(63, 30) && RightPoint(64, 32, 61) == Point(63, 0)
    ensures RightPoint(64, 32, 62) == Point(62, 0) && RightPoint(64, 32, 92) == Point(32, 0)
  {
  }
}
