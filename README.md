# Echocardiography training simulator — verified model

A Dafny model of the core of a browser-based echocardiography training
simulator. The application holds the acquisition settings (preset view,
imaging mode, gain, depth, heart rate), a freeze flag, the selected
measurement tool and a newest-first list of measurement records. A viewport
draws one animated frame per host animation callback: a depth graticule,
pseudo-random speckle from a seeded linear congruential generator, the
chamber outlines driven by a sinusoidal contraction, and a mode overlay
(the scrolling M-mode trace or the Doppler sweep line). The viewport also
turns two clicks into a distance record. A measurement panel derives a heart
rate and a mock fractional shortening from the list.

Modules, one per concern of the source:

- `EchoTypes` (`types.dfy`): the enumerations with their string ids, points,
  the parameter snapshot and the measurement record. The record's `type`
  field is called `kind`, because `type` is a Dafny keyword.
- `Lcg` (`lcg.dfy`): the `prng` closure as a class `Generator` whose field is
  the closure's state, and the state sequence it walks.
- `Speckle` (`speckle.dfy`): `drawUltrasoundNoise` as a loop method, proved
  against the function `Specks`.
- `Graticule` (`graticule.dfy`): `getScale` and `drawGraticule` as a loop method.
- `Motion` (`motion.dfy`): `heartMotion` and the chamber geometry.
- `Overlays` (`overlays.dfy`): the M-mode trace update and the Doppler
  envelope, with the host's truncating `%`.
- `RealOrder` (`order.dfy`): the one order fact about real multiplication
  that the drawing bounds share.
- `Metrics` (`metrics.dfy`): the measurement panel's `derived` block.
- `Viewport` (`viewport.dfy`): the viewport component as a class. Its fields
  are the props, the click buffer, the M-mode trace, the frame handle and
  the frame closure's captured copies of the buffer and the trace. The
  host's animation-frame queue is modelled as a set of live handles plus the
  next handle to issue.
- `AppState` (`app.dfy`): the application component as a class with its
  eight state variables and their setters, wired to the viewport's callback.

The host's `Math.sin` is not modelled. Every frame takes `s`, the sine of
the cardiac phase, as a parameter in [-1, 1]. The chamber motion, the M-mode
sample and the Doppler envelope all read that one value, because the source
computes the same phase for each. `Math.hypot` becomes a parameter `px`. It
is constrained by the Euclidean norm's bounds: at least each absolute
offset, at most their sum. Times, canvas sizes and the first frame handle
are parameters too. Numbers are modelled as exact reals and integers.

Behaviour of the code that a reader may not expect, all of it modelled as written:

- The M-mode trace is never cleared. A mode change or any other prop change
  keeps it, so leaving M-mode and returning resumes the old trace.
- The trace does not grow by one sample per frame. The scheduled `render`
  closure keeps the trace and the click buffer of the render in which the
  animation effect last ran. Every frame of that effect run sets the trace to
  that captured trace plus the frame's own sample. So the trace gains at most
  one sample per effect run, and the markers drawn are the clicks held when
  the effect ran. The model keeps this captured view in two fields.
- A narrowed canvas never trims a longer trace to the new width. Each update
  drops at most the one oldest sample, so the trace keeps its length.
- The connecting line between two markers is never drawn. The click handler
  empties the pair in the same call that completes it, so no frame ever
  sees two held clicks.
- The graticule draws `floor(depth) + 1` horizontal lines: marks 0 to
  `depth` inclusive. The last one lands on row `h`, one row below the last
  row of the canvas.
- The click scale is `canvas.height / depth`, where `canvas.height` is the
  backing-store height in device pixels. The click coordinates are CSS
  pixels. The frame itself is drawn with that device-pixel height under the
  device-pixel-ratio transform, so a click is measured against the
  graticule as drawn.
- A frame that finds no canvas returns without requesting another frame, so
  the animation stops until an effect dependency changes.
- Changing the measurement tool is not an effect dependency: it neither
  clears a pending click nor reschedules the animation.

## Model

| member | source | states |
|---|---|---|
| EchoTypes.ParsePreset | src/components/ControlPanel.jsx:3-8 | the preset ids are distinct: a string names at most one preset, and parsing returns exactly the preset with that id |
| EchoTypes.ParseMode | src/components/ControlPanel.jsx:10-14 | the mode ids are distinct, and parsing inverts `ModeId` |
| EchoTypes.ParseTool | src/components/ControlPanel.jsx:16-20 | the tool ids are distinct, and parsing inverts `ToolId` |
| Lcg.ToUint32 | src/components/EchoViewport.jsx:53 | `seed >>> 0` lands in [0, 2^32) and is congruent to the seed modulo 2^32 |
| Lcg.Step | src/components/EchoViewport.jsx:54 | one generator step stays inside the 32-bit state space |
| Lcg.ToUnit | src/components/EchoViewport.jsx:54 | every draw from a 32-bit state lies in [0, 1) |
| Lcg.StateAfter | src/components/EchoViewport.jsx:52-55 | zero steps leave the state alone; after one or more steps the state is a 32-bit value |
| Lcg.StepIsExact | src/components/EchoViewport.jsx:54 | the product-plus-increment stays below 2^53, so the host forms it without rounding |
| Lcg.StateAfterAdd | src/components/EchoViewport.jsx:52-55 | m steps then n steps equal m + n steps |
| Lcg.CongruentSeedsAgree | src/components/EchoViewport.jsx:53 | seeds equal modulo 2^32 give the same state and therefore the same draws |
| Lcg.Generator.constructor | src/components/EchoViewport.jsx:52-53 | a new generator holds `seed >>> 0` |
| Lcg.Generator.Next | src/components/EchoViewport.jsx:54 | each call advances the state by one step and returns the new state over 2^32, which lies in [0, 1) |
| Lcg.SameSeedSameDraws | src/components/EchoViewport.jsx:52-55 | for every n, two generators with the same seed return the same n draws, and draw k is the draw of state k + 1 of the sequence from that seed |
| Speckle.Count | src/components/EchoViewport.jsx:59-60 | the loop bound is 0 on a canvas with no width or no height, and never negative for a non-negative gain |
| Speckle.Mark | src/components/EchoViewport.jsx:62-64 | no contract of its own: the mark's x, y and opacity from three draws; `Speckle.MarkBounds` proves it lies on the canvas |
| Speckle.Drawn | src/components/EchoViewport.jsx:60-61 | the loop runs `floor(w*h*density*0.002)` times when that is positive and otherwise not at all |
| Speckle.Specks | src/components/EchoViewport.jsx:61-67 | the reference sequence of marks has exactly `n` entries |
| Speckle.SpeckAt | src/components/EchoViewport.jsx:61-64 | mark k is made from the generator state after 3k draws |
| Speckle.SpecksSnoc | src/components/EchoViewport.jsx:61-67 | the first n + 1 marks extend the first n |
| Speckle.CountNeedsArea | src/components/EchoViewport.jsx:60 | a positive mark count implies a canvas at least one pixel wide and high |
| Speckle.CountMonotoneInGain | src/components/EchoViewport.jsx:59-60 | raising the gain never lowers the mark count |
| Speckle.MarkBounds | src/components/EchoViewport.jsx:62-64 | a mark from draws in [0, 1) is a pixel of the canvas, and for gain >= 0 its opacity lies in [0.05, 0.05 + 0.6·gain/100] |
| Speckle.DrawUltrasoundNoise | src/components/EchoViewport.jsx:57-68 | the marks drawn are exactly the reference marks of the generator seeded with `floor(t*1000)`, as many as the loop bound says, each on the canvas with its opacity in range |
| Graticule.Scale | src/components/EchoViewport.jsx:22 | `getScale`: pixels per centimetre are non-negative at a positive depth, and positive on a canvas with height |
| Graticule.Row | src/components/EchoViewport.jsx:36 | the row of mark i, `floor(i·scale)`, is never negative at a positive depth |
| Graticule.ScaleSpansHeight | src/components/EchoViewport.jsx:22 | `depth` centimetres at `getScale` pixels each span the canvas height |
| Graticule.RowCount | src/components/EchoViewport.jsx:34-35 | the horizontal loop runs `depth + 1` times, and not at all for a negative depth |
| Graticule.ColumnCount | src/components/EchoViewport.jsx:42 | the vertical loop runs ceil(w/40) times: its last x is below w and the next would not be |
| Graticule.DrawGraticule | src/components/EchoViewport.jsx:29-50 | row i is stroked at `floor(i*scale) + 0.5`, and there are depth + 1 rows; column k is at `40k + 0.5`, inside the canvas, and there are ceil(w/40) columns |
| Graticule.RowsAscending | src/components/EchoViewport.jsx:36 | deeper marks sit on the same or a lower row |
| Graticule.RowPlacement | src/components/EchoViewport.jsx:34-40 | mark 0 is on row 0; mark `depth` is on row h, just off the canvas; every mark in between is on the canvas |
| Motion.Contraction | src/components/EchoViewport.jsx:74 | the contraction lies in [0, 1], is 0 at sine −1 and 1 at sine 1 |
| Motion.ContractionMonotone | src/components/EchoViewport.jsx:74 | a higher sine never means a weaker contraction |
| Motion.LvScale | src/components/EchoViewport.jsx:86 | the LV size factor stays in [0.85, 1] over a cycle |
| Motion.RvScale | src/components/EchoViewport.jsx:95 | the RV size factor stays in [0.9, 1] over a cycle |
| Motion.MvOpen | src/components/EchoViewport.jsx:101 | the valve opening stays in [0.2, 0.7] over a cycle |
| Motion.SystoleShrinksAndCloses | src/components/EchoViewport.jsx:86-101 | a stronger contraction never enlarges either ventricle or opens the valve more |
| Motion.CenterX | src/components/EchoViewport.jsx:82 | the LV's horizontal centre is between 40% and 50% of the width for every preset |
| Motion.CenterY | src/components/EchoViewport.jsx:83 | the LV's vertical centre is between 45% and 55% of the height for every preset |
| Motion.PresetFraming | src/components/EchoViewport.jsx:82-83 | PLAX and PSAX each have their own centre, and the apical and subcostal views share one |
| Motion.DrawChambers | src/components/EchoViewport.jsx:78-109 | the geometry: the RV offset from the LV by (90, 10), the radii bounds over a cycle, and the valve curve spanning 40 px each side of the centre with its apex 4 to 14 px above it |
| Overlays.SampleY | src/components/EchoViewport.jsx:113-114 | the M-mode sample lies between 30% and 55% of the height |
| Overlays.TraceUpdate | src/components/EchoViewport.jsx:115-118 | the trace grows by one until it holds w samples, and keeps its length after that |
| Overlays.TraceUpdateShape | src/components/EchoViewport.jsx:115-118 | an update appends the sample and drops exactly the oldest one when over width; the newest entry is the new sample |
| Overlays.TraceUpdateBounded | src/components/EchoViewport.jsx:115-117 | a trace that fits the canvas keeps fitting, and an update never shortens the trace, so a trace longer than a narrowed canvas keeps its length for good |
| Overlays.FeedIsWindow | src/components/EchoViewport.jsx:111-118 | repeated updates keep exactly the newest w samples seen, oldest first: a sliding window |
| Overlays.FirstSampleEvicted | src/components/EchoViewport.jsx:115-117 | after more than w samples the trace is the last w of them, so the first one is gone |
| Overlays.DopplerVelocity | src/components/EchoViewport.jsx:138 | the envelope is never negative, is positive exactly when the sine is, and is at most 0.9 |
| Overlays.Baseline | src/components/EchoViewport.jsx:139 | the spectral baseline lies on the canvas |
| Overlays.Peak | src/components/EchoViewport.jsx:139-140 | the spectral line rises from the baseline by at most 40.5% of the height |
| Overlays.FlowDuringSystole | src/components/EchoViewport.jsx:136-138 | forward flow is shown exactly while the contraction is past its midpoint |
| Overlays.Trunc | src/components/EchoViewport.jsx:143 | truncation toward zero is within one of its argument, on the side of zero |
| Overlays.Remainder | src/components/EchoViewport.jsx:143 | the host's `%` takes the dividend's sign and is smaller than the divisor in magnitude |
| Overlays.SweepColumn | src/components/EchoViewport.jsx:143 | the sweep column is undefined on a zero-width canvas; for non-negative time it is a column of the canvas |
| Metrics.FindFirst | src/components/MeasurementPanel.jsx:9-10 | `Array.find` as an index: the first element satisfying the test, or none when no element does |
| Metrics.LastDistance | src/components/MeasurementPanel.jsx:9 | a distance is found iff the list has one, and it is the first (most recent) one |
| Metrics.HeartRate | src/components/MeasurementPanel.jsx:10 | the rate of the first record with a snapshot, or 120 when there is none or that rate is 0; never 0 |
| Metrics.Lvesd | src/components/MeasurementPanel.jsx:14 | the mock systolic dimension is the larger of 0.1 and 0.7·lvedd |
| Metrics.FsOf | src/components/MeasurementPanel.jsx:13-15 | the formula divides by zero exactly when the diastolic dimension is 0 |
| Metrics.FractionalShortening | src/components/MeasurementPanel.jsx:11-16 | there is no value exactly when the list holds no distance |
| Metrics.FsCases | src/components/MeasurementPanel.jsx:14-15 | 30% for lvedd >= 1/7; below 30% under 1/7; 0 at 0.1; negative below 0.1 |
| Metrics.FsDashWhen | src/components/MeasurementPanel.jsx:59 | the panel shows a dash exactly when there is no distance or the newest one is 0.1 cm |
| Metrics.FsShown | src/components/MeasurementPanel.jsx:59 | the percentage is shown exactly when there is a value and it is not 0 (`-Infinity` is shown) |
| Metrics.Derive | src/components/MeasurementPanel.jsx:7-18 | no fractional shortening iff no distance; an empty list derives 120 bpm and none |
| Viewport.LastTwo | src/components/EchoViewport.jsx:234 | `slice(-2)` keeps the last min(n, 2) points |
| Viewport.SameDependencies | src/components/EchoViewport.jsx:225 | two prop sets leave the animation effect alone exactly when preset, mode, gain, depth, heart rate and freeze flag all agree |
| Viewport.DistanceCm | src/components/EchoViewport.jsx:239-241 | `px / getScale(h)`: the centimetre value times the scale gives the pixel distance back; depth 0 gives 0 |
| Viewport.DistanceZeroIffSamePoint | src/components/EchoViewport.jsx:236-241 | at a positive depth a distance is non-negative, and zero iff the two clicks coincide |
| Viewport.ScaleIsOneCentimetre | src/components/EchoViewport.jsx:240-241 | a click pair one scale length apart measures 1 cm |
| Viewport.DepthEightExample | src/components/EchoViewport.jsx:236-241 | clicks at (100, 100) and (100, 152.5) on a 420-pixel canvas at depth 8 measure exactly 1 cm |
| Viewport.DistanceRecord | src/components/EchoViewport.jsx:242-248 | the emitted record is a Distance in cm with the click's value, the click time, and the snapshot of preset, mode, gain, depth and heart rate |
| Viewport.Render | src/components/EchoViewport.jsx:161-195 | one frame draws the graticule, speckle, chambers and mode overlay for the canvas size, advances the trace only in M-mode, and marks the buffered clicks |
| Viewport.Viewport.constructor | src/components/EchoViewport.jsx:218-222 | on mount the buffers are empty and one frame is requested unless frozen, so the next handle to issue is the first handle, or the one after it when a frame was requested |
| Viewport.Viewport.RequestFrame | src/components/EchoViewport.jsx:220 | a fresh handle joins the live set and is remembered |
| Viewport.Viewport.CancelPending | src/components/EchoViewport.jsx:219 | the remembered frame leaves the live set |
| Viewport.Viewport.UpdateProps | src/components/EchoViewport.jsx:218-225 | unchanged dependencies change no frame and no closure; otherwise the old frame is cancelled, exactly one new one is live unless frozen, and the new closure sees the current buffers; clicks and trace are kept |
| Viewport.Viewport.Unmount | src/components/EchoViewport.jsx:223 | no frame stays live after unmount |
| Viewport.Viewport.Frame | src/components/EchoViewport.jsx:154-200 | a callback without a canvas consumes its handle and stops; otherwise it draws from the closure's view, sets an M-mode trace to the captured trace plus one sample, never joins the markers, and leaves exactly one new frame live; at most one frame is ever live and none while frozen |
| Viewport.Viewport.Click | src/components/EchoViewport.jsx:227-251 | frozen or another tool: nothing happens; a first click is buffered; a second emits one distance record and empties the buffer |
| Viewport.ClickKeepsAll | src/components/EchoViewport.jsx:234 | with at most one buffered click, `slice(-2)` drops nothing |
| Viewport.AtMostOnePending | src/components/EchoViewport.jsx:218-225 | a valid viewport has at most one live frame callback |
| Viewport.TwoFramesKeepOneSample | src/components/EchoViewport.jsx:116-118 | two M-mode frames in one effect run leave the captured trace plus only the second frame's sample |
| AppState.Initial | src/App.jsx:8-15 | the mount state is Apical 4C, 2D, gain 55, depth 8, 120 bpm, not frozen, no tool, no measurements |
| AppState.App.ViewportProps | src/App.jsx:43-50 | the viewport receives the seven settings as they are |
| AppState.App.constructor | src/App.jsx:8-15 | the application starts in the mount state |
| AppState.App.SetPreset | src/App.jsx:26 | only the preset changes |
| AppState.App.SetMode | src/App.jsx:28 | only the mode changes |
| AppState.App.SetGain | src/App.jsx:30 | only the gain changes |
| AppState.App.SetDepth | src/App.jsx:32 | only the depth changes |
| AppState.App.SetHeartRate | src/App.jsx:34 | only the heart rate changes |
| AppState.App.SetTool | src/App.jsx:38 | only the tool changes |
| AppState.App.ToggleFreeze | src/App.jsx:36 | only the freeze flag changes, to its negation |
| AppState.App.AddMeasurement | src/App.jsx:51 | the record goes to the front of the list; nothing else changes |
| AppState.App.ClearMeasurements | src/App.jsx:59 | the list empties; nothing else changes |
| AppState.FreezeTwice | src/App.jsx:36 | toggling freeze twice restores the whole state |
| AppState.ClickThrough | src/App.jsx:51 | a viewport click adds at most one record, a Distance, to the front of the list, and changes nothing else in the application |
| AppState.NewestDistanceWins | src/components/MeasurementPanel.jsx:9-16 | a newly added distance is the one the panel uses |
| AppState.OtherKindKeepsDistance | src/components/MeasurementPanel.jsx:9 | adding a record of another kind leaves the panel's distance and fractional shortening unchanged |
| AppState.NewestSnapshotSetsHeartRate | src/components/MeasurementPanel.jsx:10 | a newly added record with a snapshot sets the panel's heart rate unless its rate is 0 |
| AppState.DistanceRecordDerives | src/components/MeasurementPanel.jsx:7-18 | after a distance is emitted, the panel shows its snapshot's heart rate and its fractional shortening |
| AppState.SamePointDividesByZero | src/components/MeasurementPanel.jsx:13-15 | two clicks on one point record 0 cm, for which the fractional-shortening formula divides by zero |

## Left out

- The host's `Math.sin` and the phase `(t * hr/60 * 2π) % 2π`. Frames take
  the sine value as a parameter in [-1, 1]. The heart rate therefore never
  reaches the drawn frame. It reaches the model as an effect dependency and
  as the `heartRate` of the measurement snapshot.
- Viewport.Viewport.Click: `Math.hypot` is a parameter constrained by the
  Euclidean norm's bounds, not the exact square root.
- Viewport.DistanceCm: for depth 0 the host divides by an infinite scale and
  gets 0, which the model returns directly. Floating-point rounding is not
  modelled anywhere; numbers are exact.
- Viewport.Viewport.Click: requires a canvas height above 0. The host
  divides by a zero scale there and records NaN or Infinity.
- Viewport.Viewport.Frame and Graticule.DrawGraticule: require a non-zero
  depth. At depth 0 the host's graticule loop runs once, for mark 0, and
  draws one horizontal line at y = NaN, because `0 * (h / 0)` is NaN (the
  scale is infinite on a canvas of positive height and NaN on one of height
  0). That line is not modelled. The control panel's depth slider only
  offers 4 to 12.
- React's rendering machinery: state updates are modelled as immediate
  field writes, and a re-render as the moment the effect's dependencies are
  compared. The frame closure's captured view of `points` and `mTrace` is
  modelled, as described above. Batching of several updates into one
  render is not modelled.
- Drawing calls, colours, line widths, `toFixed` and the record list's
  formatting and time display (`formatValue`, `toLocaleTimeString`).
- `Date.now` is a parameter of the click, and frame times are parameters of
  the frame.
- The resize effect: the canvas's backing-store size and the device pixel
  ratio are given per frame as a canvas size.
- The hero cover, layout markup and the control panel's widgets: the slider
  ranges (gain 20 to 90, depth 4 to 12, heart rate 60 to 180) are not
  imposed. Every operation is modelled for all integer values, except depth 0
  for the graticule and the frame and a canvas height of 0 for the click
  (see above).
- The "M-Trace" tool exists as a value but the viewport ignores clicks for it,
  as the source does; no M-mode trace measurement exists in the source.
