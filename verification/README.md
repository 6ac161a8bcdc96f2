# Timed color transitions for an LED matrix clock — a Dafny model

This project models the animation and input core of a Raspberry Pi LED-matrix
clock:

- **Animator** (`include/Animator.h`, `src/Animator.cpp`). An idle/animating
  state machine. It blends one RGB color into another over a duration with a
  cubic ease-in-out curve. The blend is truncated per channel.
- **Border path and snake** (`include/BorderSnakeAnimation.h`,
  `src/BorderSnakeAnimation.cpp`). Two border paths run from the bottom-centre
  pixel to the top-centre pixel. Each frame draws a window of at most
  `maxSnakeLength` pixels behind a moving head on each path. An anchor pixel is
  drawn during the first 30% of the run. Every pixel gets the one color of the
  inner animator.
- **Palette cycler** (`src/utils/color-transition.ts`, class `ColorTransition`).
  Automatic palette cycling with a current index, a next index, an interval
  timer and a transition timer. The blend is rounded per channel.
- **Button and main loop** (`src/GPIOButton.cpp`, `src/main.cpp`). Edge
  detection and long/short press classification, long-press color selection
  with AUTO, short-press brightness steps, the message overlay and the clock
  color.

Everything is a pure function of an immutable state plus the current time in
milliseconds (`now`). Each clock read in the source becomes that parameter.
Where the snake and its inner animator each read the clock during one call,
both reads share one `now` (see "## Left out").
Each pin read becomes a `value` parameter. Easing and blending are modelled
over Dafny `real`, with `Floor` standing for the C++ truncating cast and
`Floor(x + 0.5)` for `Math.round`.

Modules: `Colors` (channels and colors), `Easing` (the cubic curve, which both
languages use), `Animator`, `BorderPath`, `BorderSnake`, `PaletteCycler`,
`Button`, `Clock`, and `Arith` (remainder facts used by the cycling proofs).

Behaviour of the code worth knowing before reading the contracts:

- The two border paths differ in length. On a 64x32 panel the left path has
  95 pixels (`2*(W/2) + (H-1)`) and the right path 93 (`2*(W-1-W/2) + (H-1)`),
  so the heads at half progress are 55 and 54. See
  `BorderPath.Panel64x32Paths` and `BorderSnake.Panel64x32Halfway`.
- The TypeScript cycler starts a transition only once the interval has
  elapsed. It commits (current := next, next := next+1 mod n) after the
  transition has lasted `transitionDurationSeconds`.
- The TypeScript cycler rounds each blended channel half up. The C++ animator
  truncates.
- The C++ main loop uses neither the animator nor the snake, and it has no
  cycling of its own. In AUTO mode it draws the clock in a fixed yellow
  (255,220,0). The animator and the snake are therefore modelled as standalone
  components.

## Model

| member | source | states |
|---|---|---|
| Animator.StartTransition | src/Animator.cpp:7-13 | starting a transition records from, to, the duration and the start time `now`, and leaves the animator running |
| Animator.StartThenComplete | src/Animator.cpp:15-35 | a started transition with d > 0 keeps running, between its endpoints, before t0+d, and from t0+d on reports the target exactly and goes idle |
| Animator.StartOverwritesPriorState | src/Animator.cpp:7-13 | the state after a start does not depend on the prior state: the last start wins |
| Animator.FreshAnimatorIsIdle | src/Animator.cpp:5 | a fresh animator is idle and an update reports the default black target |
| Animator.Progress | src/Animator.cpp:30 | the division runs only when 0 <= elapsed < duration, so progress lies in [0,1) |
| Animator.Update | src/Animator.cpp:15-35 | idle: the target, with no state change. Elapsed >= duration: the target exactly, then idle. Otherwise: state unchanged and every channel between the endpoint channels |
| Animator.UpdateBlendsAtFactor | src/Animator.cpp:29-34 | mid-transition a poll shows the blend of from and to at the eased linear progress |
| Animator.UpdateIsEasedBlend | src/Animator.cpp:29-34 | mid-transition every channel is from*(1-e) + to*e truncated, with e the ease-in-out cubic of (now - start) / duration |
| Animator.UpdateIdempotent | src/Animator.cpp:15-35 | polling again at the same instant returns the same color and state |
| Animator.NonPositiveDurationCompletesAtOnce | src/Animator.cpp:23-27 | a duration <= 0 completes on the first poll with the target exactly, and the division is never reached |
| Animator.StartShowsFromColor | src/Animator.cpp:29-34 | at elapsed 0 with a positive duration the start color is shown exactly |
| Animator.Cancel | src/Animator.cpp:41-43 | cancel clears the animating flag and keeps the target color |
| Animator.CancelReportsTarget | src/Animator.cpp:15-18 | after cancel an update returns the declared target, not a frozen mid-blend value |
| Animator.BlendChannel | src/Animator.cpp:51-53 | a truncated channel blend with t in [0,1] lies between the two endpoint channels; t = 0 yields the start channel and t = 1 the target channel |
| Animator.BlendIsTruncatedAverage | src/Animator.cpp:51-53 | a blended channel is the weighted average from*(1-t) + to*t with its fraction cut off: c <= average < c + 1 |
| Animator.InterpolateColor | src/Animator.cpp:49-55 | the blended color lies channel-wise between from and to; t = 0 yields from and t = 1 yields to exactly |
| Animator.InterpolateIsTruncatedAverage | src/Animator.cpp:49-55 | every channel of the blended color is the truncated weighted average of the two endpoint channels with weight t |
| Animator.FactorMonotone | src/Animator.cpp:30-33 | within one transition a later poll never uses a smaller eased factor |
| Animator.ChannelMonotone | src/Animator.cpp:30-34 | each of the three channels moves monotonically across polls of one transition: never decreasing when it rises from start to target, never increasing when it falls |
| Easing.EaseFixedPoints | src/Animator.cpp:45-47 | e(0) = 0, e(1) = 1, and both branches give 0.5 at t = 0.5 |
| Easing.EaseRange | include/Animator.h:64-70 | e maps [0,1] into [0,1], below one half into below one half, and the rest into [0.5,1] |
| Easing.EaseMonotone | src/utils/color-transition.ts:86-88 | the curve is non-decreasing on [0,1] |
| BorderPath.Half | src/BorderSnakeAnimation.cpp:65 | `width / 2` truncates toward zero for negative widths too |
| BorderPath.GenerateBorderPath | src/BorderSnakeAnimation.cpp:59-95 | the six loops build paths of lengths 2*(W/2)+(H-1) and 2*(W-1-W/2)+(H-1), pixel for pixel equal to the three-run closed form |
| BorderPath.LeftStep | src/BorderSnakeAnimation.cpp:68-80 | on a non-empty display each left-path pixel is on the display and 4-adjacent to the next one |
| BorderPath.RightStep | src/BorderSnakeAnimation.cpp:82-94 | on a non-empty display each right-path pixel is on the display and 4-adjacent to the next one |
| BorderPath.BorderPathsConnected | src/BorderSnakeAnimation.cpp:59-95 | for W, H >= 1 every pixel of both paths is on the display and consecutive pixels are 4-adjacent |
| BorderPath.LeftInjective | src/BorderSnakeAnimation.cpp:68-80 | with H >= 2 no two left-path indices hold the same pixel |
| BorderPath.RightInjective | src/BorderSnakeAnimation.cpp:82-94 | with H >= 2 no two right-path indices hold the same pixel |
| BorderPath.BorderPathsWellFormed | include/BorderSnakeAnimation.h:65-71 | with W >= 1 and H >= 2 both paths stay on the display, never repeat a pixel and move one pixel at a time |
| BorderPath.SingleRowPathRepeats | src/BorderSnakeAnimation.cpp:70-80 | on a one-row display the bottom and top runs share row 0, so the left path repeats a pixel (4x1: indices 0 and 2) |
| BorderPath.BorderPathEnds | include/BorderSnakeAnimation.h:23-27 | for W >= 1 and H >= 2 each path's first pixel is a 4-neighbour of the start pixel (W/2, H-1), and both paths end at the top-centre (W/2, 0) |
| BorderPath.Panel64x32Paths | src/BorderSnakeAnimation.cpp:64-94 | on 64x32 the paths have 95 and 93 pixels, with the first and last pixels of every run as listed |
| BorderSnake.New | src/BorderSnakeAnimation.cpp:5-8 | construction keeps the given width, height and maximum length, computes the paths of that geometry (lengths 2*(W/2)+(H-1) and 2*(W-1-W/2)+(H-1)) and leaves both the snake and its animator idle |
| BorderSnake.Start | src/BorderSnakeAnimation.cpp:10-15 | start forwards the identical (from, to, duration) to the inner animator, sets the snake running from now, and keeps the geometry, maximum length and paths |
| BorderSnake.Cancel | src/BorderSnakeAnimation.cpp:54-57 | cancel clears both the snake's flag and the inner animator's flag, and keeps the geometry, maximum length, paths and target color |
| BorderSnake.TruncToInt | src/BorderSnakeAnimation.cpp:113 | the double-to-int cast equals the floor on non-negative values |
| BorderSnake.Window | src/BorderSnakeAnimation.cpp:112-117 | a side emits path[head-i] for i in [0,L) with head-i on the path: the contiguous stretch of the path ending at the head, walked backwards |
| BorderSnake.WindowBounded | src/BorderSnakeAnimation.cpp:112-125 | a side emits at most L pixels (none when L <= 0), never more than the path has, all taken from the path |
| BorderSnake.WindowIndicesInRange | src/BorderSnakeAnimation.cpp:112-117 | every emitted pixel is path[j] for some j in (head-L, head] |
| BorderSnake.WindowCoversRange | src/BorderSnakeAnimation.cpp:120-125 | every path index in (head-L, head] is emitted |
| BorderSnake.WindowAtHeadZero | src/BorderSnakeAnimation.cpp:98-100 | with the head at index 0 a side emits exactly path[0] |
| BorderSnake.SnakePositions | src/BorderSnakeAnimation.cpp:97-131 | a frame is the left window (left[hL-i], skipping indices off the path), then the right window (right[hR-i]), then the start pixel exactly when progress < 0.3 |
| BorderSnake.BothWindows | src/BorderSnakeAnimation.cpp:111-130 | the frame list holds the left loop's pixels, then the right loop's, then the anchor, each at the path index the loop visits |
| BorderSnake.AnchorRule | src/BorderSnakeAnimation.cpp:127-130 | below 0.3 progress the last pixel is the start pixel (W/2, H-1), and a frame holds at most 2L pixels plus the anchor |
| BorderSnake.Update | src/BorderSnakeAnimation.cpp:17-48 | not running: nothing. Elapsed >= duration: nothing, then idle. Otherwise the positions of `SnakePositions` at linear progress (at most 2L+1 pixels), all in the color from one inner animator poll. The paths never change |
| BorderSnake.FirstFrame | src/BorderSnakeAnimation.cpp:33-45 | the first frame of a positive-length run is left[0], right[0] and the anchor, all in the start color |
| BorderSnake.LockstepColor | src/BorderSnakeAnimation.cpp:36-45 | while the snake runs, the inner animator is still running and every pixel color lies between from and to |
| BorderSnake.CancelledSnakeIsBlank | src/BorderSnakeAnimation.cpp:54-57 | after cancel the snake draws nothing and its animator reports the target |
| BorderSnake.PathsNeverChange | include/BorderSnakeAnimation.h:85-87 | start, cancel and update return the very paths they were given, which remain the paths of the snake's geometry |
| BorderSnake.Panel64x32Halfway | src/BorderSnakeAnimation.cpp:106-109 | at 500 of 1000 ms on 64x32 with L = 16 the heads are 55 and 54 and the frame holds 32 pixels |
| PaletteCycler.New | src/utils/color-transition.ts:12-17 | the constructor starts at index 0, not transitioning, with the index invariant in place |
| PaletteCycler.RoundChannel | src/utils/color-transition.ts:95-97 | the channel is f + (g-f)*t rounded half up: within [v - 0.5, v + 0.5); it lies between the endpoints, and t = 0 and t = 1 give the endpoints |
| PaletteCycler.InterpolateColor | src/utils/color-transition.ts:93-99 | the rounded blend lies channel-wise between the two colors; t = 0 gives the first and t = 1 the second |
| PaletteCycler.Progress | src/utils/color-transition.ts:45-47 | progress lies in [0,1], reaches 1 exactly when elapsed >= transitionMs, and is 0 at elapsed 0 |
| PaletteCycler.Blend | src/utils/color-transition.ts:62-70 | mid-transition each channel is x + (y-x)*e rounded half up, with e the ease-in-out cubic of the linear progress and x, y the current and next palette colors; it lies between them, and progress 0 shows the current color |
| PaletteCycler.TransitionStep | src/utils/color-transition.ts:45-70 | a running transition commits with the next color exactly once it has lasted transitionMs, and otherwise shows the eased rounded `Blend` at min(elapsed / transitionMs, 1) with no state change |
| PaletteCycler.GetCurrentColor | src/utils/color-transition.ts:22-71 | disabled or empty: white. One color: colors[0]. Before the interval: the current color flat. Interval elapsed: start, showing the current color. Mid-transition: the eased rounded `Blend`. Completion: commit current := next, next := next+1 mod n |
| PaletteCycler.Reset | src/utils/color-transition.ts:104-109 | reset sets current to 0, clears transitioning, restarts the interval and re-establishes the index invariant |
| PaletteCycler.PollKeepsIndexInvariant | src/utils/color-transition.ts:50-54 | for n >= 2 polling keeps both indices in [0,n) with next = (current+1) mod n |
| PaletteCycler.StartThenFinish | src/utils/color-transition.ts:35-60 | after the interval, the starting poll and a poll one transition length later land on colors[(current+1) mod n] exactly |
| PaletteCycler.CommitAdvances | src/utils/color-transition.ts:52-53 | one commit advances the current index by one mod n and keeps the invariant |
| PaletteCycler.CommitsWalkPalette | src/utils/color-transition.ts:50-54 | after k commits the current index is (current+k) mod n: the palette is visited in order |
| PaletteCycler.FullCycleReturns | src/utils/color-transition.ts:52-53 | n commits return to the starting color |
| PaletteCycler.ResetMatchesNew | src/utils/color-transition.ts:104-109 | for a non-empty palette, reset gives the constructor's indices. For an empty one, next is 0 after reset but 1 after construction |
| Button.Classify | src/GPIOButton.cpp:48-55 | long exactly when duration >= long_press_ms, short exactly when debounce_ms <= duration < long_press_ms, otherwise nothing |
| Button.DefaultTimingClassifies | include/GPIOButton.h:22 | a button built with the default 80 ms debounce and 1000 ms long press, pressed from t0 to t1, fires nothing below 80 ms, a short press from 80 ms, and a long press from 1000 ms |
| Button.Poll | src/GPIOButton.cpp:35-61 | a negative read changes nothing. A falling edge records the press time. A rising edge after a press fires the classified event and clears the press. Anything else fires nothing. Every good read becomes the last value |
| Button.AtMostOneEventPerPress | src/GPIOButton.cpp:45-57 | over any run of reads, events fired plus a still-pending press never exceed the falling edges plus a press pending at the start |
| Clock.Startup | src/main.cpp:286-288 | at startup the version banner shows in white, and after 3000 ms the clock shows instead |
| Clock.NatDigits | src/main.cpp:339-341 | the brightness text is a run of decimal digits, a single digit exactly for numbers below 10, and beginning with a non-zero digit for every positive number |
| Clock.NatDigitsRoundTrip | src/main.cpp:339-341 | reading the digit text back gives the number |
| Clock.LongPress | src/main.cpp:311-329 | the selection moves to the next index, or from the last index to AUTO. AUTO shows "AUTO" in white and enables transitions. An index shows that entry's name and color and disables transitions. The message lasts 2000 ms and [-1, size) is kept |
| Clock.ShortPress | src/main.cpp:330-346 | brightness rises by 10 and wraps from above 100 to 10, staying in [10,100] from [0,100]. "<b>%" is shown in white for 2000 ms |
| Clock.Step | src/main.cpp:296-373 | a failed read changes nothing. A long press moves the selection to the next index or AUTO, a short press steps the brightness, and either opens a 2000 ms message. The overlay's text and color are drawn exactly while now < until, and otherwise the clock in the display color. Any `fixed_color` is accepted, except that a long press needs it >= -1 |
| Clock.MainPressClassification | src/main.cpp:308-311 | the loop's release handling uses the 100 ms and 1000 ms thresholds and always clears the press |
| Clock.LongPressThenClock | src/main.cpp:367-373 | once the message has expired, the clock shows the selected entry's color, or (255,220,0) in AUTO |
| Clock.LongPresses | src/main.cpp:313-318 | repeated long presses keep the selection at -1 or above and leave the palette unchanged |
| Clock.LongPressesRotate | src/main.cpp:313-324 | after k long presses the selection is (fc+1+k) mod (size+1) - 1 |
| Clock.LongPressCycleReturns | src/main.cpp:319-324 | size+1 long presses return the selection to its original value |
| Clock.ShortPressesRotate | src/main.cpp:332-333 | from brightness 10m, k short presses give 10*((m-1+k) mod 10 + 1) |
| Clock.BrightnessCycleReturns | src/main.cpp:332 | ten short presses return any of the ten brightness steps to itself |

## Left out

- Clock reads (`std::chrono::steady_clock::now`, `clock_gettime`, `Date.now`, `time`/`localtime`) are the `now` parameter. The C++ steady clock is monotonic, and the model assumes the same of the TypeScript clock: polls require a running transition's start stamp to be no later than `now` (`ClockOk`).
- BorderSnake.Update: the source reads the steady clock separately in the snake (`start`, `update`) and in its inner animator (`startTransition`, `update`). The model gives both reads one `now`. So `LockstepColor`'s promise that the inner animator is still running while the snake runs holds in the model only; in the source the animator can finish one poll before the snake.
- PaletteCycler.GetCurrentColor: the poll that starts a transition reads `Date.now()` twice in the source, once in `getCurrentColor` and again inside `startTransition`. The model uses one `now` for both, so the starting poll shows `colors[current]` exactly and completion comes exactly `transitionMs` after it (`StartThenFinish`). In the source the start stamp can be a little later than the first read, so the starting poll sees a small negative progress. After easing and `Math.round` that differs from `colors[current]` only when `transitionMs` is a few milliseconds. Completion comes up to that gap later.
- IEEE doubles, `std::pow` and `Math.round` are modelled over exact reals. Floating-point drift is not modelled.
- Integer widths are not modelled: the 32-bit `int` duration, brightness and `fixed_color` are unbounded here. The millisecond counts are C `long`, and a 64-bit `long` is assumed. On a build where `long` is 32 bits, `tv_sec * 1000` wraps after about 24.9 days of uptime, and the model does not cover that.
- PaletteCycler.GetCurrentColor: requires `transitionDurationSeconds > 0`. With zero the source divides by zero (NaN or Infinity progress). With a negative value the ratio `elapsed / transitionMs` stays <= 0, so the transition never commits, and the negative eased factor pushes the blended channels outside [0, 255]. Neither behaviour is modelled.
- Clock.LongPress: requires `fixed_color >= -1`, and so does `Clock.Step` for a pass whose poll fires a long press. The default configuration and every long press keep it there. A configuration file holding a smaller value would make the source index the palette at a negative position.
- `gpio_setup`/`gpio_read` and `GPIOButton::setup`/`read` shell out to `pinctrl`. The pin level is a parameter instead.
- The header's `onPress`/`onRelease`/`onTap` callbacks and `long_press_triggered_` have no implementation in `src/GPIOButton.cpp`, which also uses an undeclared `short_press_callback_`. Only `poll` is modelled, with the two callbacks as the returned `Button.Event`.
- `loadConfig`/`saveConfig` in `src/main.cpp` and all of `src/Config.cpp` (file I/O and JSON scraping) are left out. The fallback configuration is `Clock.DefaultSettings`.
- Drawing and hardware are left out: `DrawText`, fonts, `RGBMatrix`, `SetBrightness`, canvas swapping, `usleep`, signal handling, date and time formatting, and `console.log`/`printf`.
- `src/apps/analog-clock.ts`, `src/apps/letter-clock.ts`, the locale tables, `sync.ts` and `src/config.ts` are not part of this model.
