/**
 * The clock program's main loop, minus drawing: button edge detection with
 * fixed thresholds, the long-press color selection (with AUTO), the
 * short-press brightness step, the message overlay and the clock color.
 */
module Clock {
  import opened Colors
  import opened Arith
  import Button

  const DebounceMs: int := 100
  const LongPressMs: int := 1000
  const ColorDisplayMs: int := 2000
  const VersionDisplayMs: int := 3000

  /** `fixed_color` value meaning AUTO mode. */
  const Auto: int := -1

  /** Clock color when no valid palette entry is selected. */
  const AutoColor: Color := Color(255, 220, 0)

  const MainTiming: Button.Timing := Button.Timing(DebounceMs, LongPressMs)

  datatype NamedColor = NamedColor(name: string, color: Color)

  datatype Settings = Settings(
    brightness: int,
    fixedColor: int,
    colors: seq<NamedColor>,
    colorTransitionEnabled: bool)

  /** A message drawn instead of the clock until the given time. */
  datatype Overlay = Overlay(text: string, color: Color, until: int)

  datatype Loop = Loop(settings: Settings, overlay: Overlay, button: Button.Button)

  /** What one frame draws. */
  datatype Frame = ShowMessage(text: string, color: Color) | ShowClock(color: Color)

  datatype Tick = Tick(next: Loop, frame: Frame)

  /** Settings used when the configuration file cannot be read. */
  const DefaultSettings: Settings := Settings(50, Auto, [
    NamedColor("GIALLO", Color(255, 220, 0)),
    NamedColor("ROSSO", Color(255, 0, 0)),
    NamedColor("VERDE", Color(0, 255, 0)),
    NamedColor("BLU", Color(0, 0, 255)),
    NamedColor("BIANCO", Color(255, 255, 255))
  ], true)

  /** `fixed_color` is AUTO or a palette index. */
  predicate SelectionValid(s: Settings) {
    Auto <= s.fixedColor < |s.colors|
  }

  /** The loop at startup: version banner in white for three seconds, button released. */
  function Startup(s: Settings, version: string, now: int): (l: Loop)
    ensures Render(l, now) == ShowMessage("v" + version, White)
    ensures Render(l, now + VersionDisplayMs) == ShowClock(DisplayColor(s))
  {
    Loop(s, Overlay("v" + version, White, now + VersionDisplayMs), Button.Released)
  }

  function DigitChar(d: int): char
    requires 0 <= d < 10
  {
    ('0' as int + d) as char
  }

  function DigitValue(c: char): int { c as int - '0' as int }

  /** `%d` of a non-negative number. */
  function NatDigits(n: nat): (s: string)
    ensures |s| >= 1 && (n < 10 <==> |s| == 1)
    ensures n >= 1 ==> s[0] != '0'
    ensures forall i :: 0 <= i < |s| ==> '0' <= s[i] <= '9'
    decreases n
  {
    if n < 10 then [DigitChar(n)] else NatDigits(n / 10) + [DigitChar(n % 10)]
  }

  /** `%d` of any int. */
  function DecimalString(n: int): string {
    if n < 0 then "-" + NatDigits(-n) else NatDigits(n)
  }

  /** Reads a digit string back as a number (most significant digit first). */
  function ParseDigits(s: string): int
    decreases |s|
  {
    if |s| == 0 then 0 else ParseDigits(s[..|s| - 1]) * 10 + DigitValue(s[|s| - 1])
  }

  lemma {:induction false} NatDigitsRoundTrip(n: nat)
    ensures ParseDigits(NatDigits(n)) == n
    decreases n
  {
    var s := NatDigits(n);
    if n >= 10 {
      NatDigitsRoundTrip(n / 10);
      assert s[..|s| - 1] == NatDigits(n / 10);
      assert DigitValue(s[|s| - 1]) == n % 10;
      assert n == (n / 10) * 10 + n % 10;
    }
  }

  /** The `fixed_color` a long press moves to: the next index, and after the last one AUTO. */
  function NextFixedColor(fc: int, n: int): int {
    if fc + 1 >= n then Auto else fc + 1
  }

  /** The brightness a short press moves to: ten more, wrapping from above 100 to 10. */
  function NextBrightness(b: int): int {
    if b + 10 > 100 then 10 else b + 10
  }

  function LongPress(l: Loop, now: int): (r: Loop)
    requires l.settings.fixedColor >= Auto
    ensures r.settings.fixedColor == NextFixedColor(l.settings.fixedColor, |l.settings.colors|)
    ensures SelectionValid(l.settings) ==> SelectionValid(r.settings)
    ensures r.settings.fixedColor == Auto ==>
              r.overlay.text == "AUTO" && r.overlay.color == White && r.settings.colorTransitionEnabled
    ensures r.settings.fixedColor != Auto ==>
              && 0 <= r.settings.fixedColor < |l.settings.colors|
              && r.overlay.text == l.settings.colors[r.settings.fixedColor].name
              && r.overlay.color == l.settings.colors[r.settings.fixedColor].color
              && !r.settings.colorTransitionEnabled
    ensures r.overlay.until == now + ColorDisplayMs
    ensures r.settings.brightness == l.settings.brightness && r.settings.colors == l.settings.colors
    ensures r.button == l.button
  {
    var fc := l.settings.fixedColor + 1;
    if fc >= |l.settings.colors| then
      l.(settings := l.settings.(fixedColor := Auto, colorTransitionEnabled := true),
         overlay := Overlay("AUTO", White, now + ColorDisplayMs))
    else
      var nc := l.settings.colors[fc];
      l.(settings := l.settings.(fixedColor := fc, colorTransitionEnabled := false),
         overlay := Overlay(nc.name, nc.color, now + ColorDisplayMs))
  }

  function ShortPress(l: Loop, now: int): (r: Loop)
    ensures 0 <= l.settings.brightness <= 100 ==> 10 <= r.settings.brightness <= 100
    ensures r.settings.brightness == NextBrightness(l.settings.brightness)
    ensures r.overlay == Overlay(DecimalString(r.settings.brightness) + "%", White, now + ColorDisplayMs)
    ensures r.settings.fixedColor == l.settings.fixedColor && r.settings.colors == l.settings.colors
    ensures r.button == l.button
  {
    var b := NextBrightness(l.settings.brightness);
    l.(settings := l.settings.(brightness := b),
       overlay := Overlay(DecimalString(b) + "%", White, now + ColorDisplayMs))
  }

  /** The clock color: the selected palette entry, or the AUTO yellow. */
  function DisplayColor(s: Settings): Color {
    if 0 <= s.fixedColor < |s.colors| then s.colors[s.fixedColor].color else AutoColor
  }

  /** While the overlay is live it wins over the clock. */
  function Render(l: Loop, now: int): Frame {
    if now < l.overlay.until then ShowMessage(l.overlay.text, l.overlay.color)
    else ShowClock(DisplayColor(l.settings))
  }

  /** One pass of the main loop with pin level `value` read at `now`. */
  function Step(l: Loop, value: int, now: int): (r: Tick)
    requires Button.Poll(l.button, MainTiming, value, now).event == Button.LongPress ==>
               l.settings.fixedColor >= Auto
    ensures value < 0 ==> r.next == l
    ensures r.next.button == Button.Poll(l.button, MainTiming, value, now).next
    ensures Button.Poll(l.button, MainTiming, value, now).event == Button.NoEvent ==>
              r.next.settings == l.settings && r.next.overlay == l.overlay
    ensures Button.Poll(l.button, MainTiming, value, now).event != Button.NoEvent ==>
              r.next.overlay.until == now + ColorDisplayMs && r.frame.ShowMessage?
    ensures l.settings.fixedColor >= Auto ==> r.next.settings.fixedColor >= Auto
    ensures SelectionValid(l.settings) ==> SelectionValid(r.next.settings)
    ensures Button.Poll(l.button, MainTiming, value, now).event == Button.LongPress ==>
              r.next.settings.fixedColor == NextFixedColor(l.settings.fixedColor, |l.settings.colors|)
    ensures Button.Poll(l.button, MainTiming, value, now).event == Button.ShortPress ==>
              r.next.settings.brightness == NextBrightness(l.settings.brightness)
    ensures r.frame.ShowMessage? <==> now < r.next.overlay.until
    ensures r.frame.ShowMessage? ==> r.frame == ShowMessage(r.next.overlay.text, r.next.overlay.color)
    ensures r.frame.ShowClock? ==> r.frame.color == DisplayColor(r.next.settings)
  {
    var step := Button.Poll(l.button, MainTiming, value, now);
    var l1 := l.(button := step.next);
    var l2 := match step.event
      case LongPress => LongPress(l1, now)
      case ShortPress => ShortPress(l1, now)
      case NoEvent => l1;
    Tick(l2, Render(l2, now))
  }

  /** The main loop's thresholds: long from 1000 ms, short from 100 ms, and every release clears the press. */
  lemma MainPressClassification(l: Loop, value: int, now: int)
    requires l.button.lastValue == 0 && value == 1 && l.button.wasPressed
    ensures var e := Button.Poll(l.button, MainTiming, value, now).event;
            && (e == Button.LongPress <==> now - l.button.pressStart >= 1000)
            && (e == Button.ShortPress <==> 100 <= now - l.button.pressStart < 1000)
            && (e == Button.NoEvent <==> now - l.button.pressStart < 100)
    ensures !Button.Poll(l.button, MainTiming, value, now).next.wasPressed
  {
  }

  /** Once the overlay has expired the clock shows the selected entry, or yellow in AUTO. */
  lemma LongPressThenClock(l: Loop, now: int, later: int)
    requires SelectionValid(l.settings) && later >= now + ColorDisplayMs
    ensures var r := LongPress(l, now);
            if r.settings.fixedColor == Auto then Render(r, later) == ShowClock(AutoColor)
            else Render(r, later) == ShowClock(l.settings.colors[r.settings.fixedColor].color)
  {
  }

  function LongPresses(l: Loop, k: nat, now: int): (r: Loop)
    requires l.settings.fixedColor >= Auto
    ensures r.settings.fixedColor >= Auto && r.settings.colors == l.settings.colors
  {
    if k == 0 then l else LongPress(LongPresses(l, k - 1, now), now)
  }

  /** After `k` long presses the selection has moved `k` places around AUTO, 0, ..., n-1. */
  lemma {:induction false} LongPressesRotate(l: Loop, k: nat, now: int)
    requires SelectionValid(l.settings)
    ensures LongPresses(l, k, now).settings.fixedColor
            == (l.settings.fixedColor + 1 + k) % (|l.settings.colors| + 1) - 1
  {
    var n := |l.settings.colors|;
    if k == 0 {
      ModUnique(l.settings.fixedColor + 1, n + 1, 0, l.settings.fixedColor + 1);
    } else {
      LongPressesRotate(l, k - 1, now);
      var j := (l.settings.fixedColor + 1 + k - 1) % (n + 1);
      ModSucc(l.settings.fixedColor + 1 + k - 1, n + 1);
      if j + 1 < n + 1 {
        ModUnique(j + 1, n + 1, 0, j + 1);
      } else {
        ModUnique(j + 1, n + 1, 1, 0);
      }
    }
  }

  /** n + 1 long presses return the selection to where it was. */
  lemma LongPressCycleReturns(l: Loop, now: int)
    requires SelectionValid(l.settings)
    ensures LongPresses(l, |l.settings.colors| + 1, now).settings.fixedColor == l.settings.fixedColor
  {
    var n := |l.settings.colors|;
    LongPressesRotate(l, n + 1, now);
    ModUnique(l.settings.fixedColor + 1 + n + 1, n + 1, 1, l.settings.fixedColor + 1);
  }

  function ShortPresses(l: Loop, k: nat, now: int): Loop {
    if k == 0 then l else ShortPress(ShortPresses(l, k - 1, now), now)
  }

  /** From a brightness 10m (m in 1..10), `k` short presses reach 10 * ((m - 1 + k) mod 10 + 1). */
  lemma {:induction false} ShortPressesRotate(l: Loop, m: int, k: nat, now: int)
    requires 1 <= m <= 10 && l.settings.brightness == 10 * m
    ensures ShortPresses(l, k, now).settings.brightness == 10 * ((m - 1 + k) % 10 + 1)
  {
    if k == 0 {
      ModUnique(m - 1, 10, 0, m - 1);
    } else {
      ShortPressesRotate(l, m, k - 1, now);
      var j := (m - 1 + k - 1) % 10;
      assert ShortPresses(l, k - 1, now).settings.brightness == 10 * (j + 1);
      ModSucc(m - 1 + k - 1, 10);
      assert (j + 1) % 10 == (m - 1 + k) % 10;
      if j == 9 {
        assert (j + 1) % 10 == 0;
      } else {
        assert (j + 1) % 10 == j + 1;
      }
    }
  }

  /** Ten short presses bring any of the ten brightness steps back to itself. */
  lemma BrightnessCycleReturns(l: Loop, m: int, now: int)
    requires 1 <= m <= 10 && l.settings.brightness == 10 * m
    ensures ShortPresses(l, 10, now).settings.brightness == l.settings.brightness
  {
    ShortPressesRotate(l, m, 10, now);
    ModUnique(m - 1 + 10, 10, 1, m - 1);
  }
}
