/** The echo viewport: the per-frame render, its frame scheduling, the
    M-mode trace it keeps and the two-click distance tool.

    The host's animation-frame service is modelled by two fields: the set of
    callback handles that are requested and have neither run nor been
    cancelled, and the next handle it will hand out. */
module Viewport {
  import opened EchoTypes
  import Graticule
  import Speckle
  import Lcg
  import opened Motion
  import opened Overlays

  /** The props the application passes down. */
  datatype Props = Props(preset: Preset, mode: Mode, gain: int, depth: int, heartRate: int,
                         frozen: bool, tool: Tool)

  /** The animation effect re-runs when one of its dependencies changes:
      every prop except the measurement tool. */
  predicate SameDependencies(a: Props, b: Props): (r: bool)
    ensures r <==> && a.preset == b.preset && a.mode == b.mode && a.gain == b.gain
                   && a.depth == b.depth && a.heartRate == b.heartRate && a.frozen == b.frozen
  {
    a.(tool := b.tool) == b
  }

  /** The canvas element's backing-store size in device pixels. */
  datatype Canvas = Canvas(width: nat, height: nat)

  /** What the mode overlay draws. */
  datatype Overlay =
    | NoOverlay
    | TraceLine(samples: seq<real>)
    | SweepLine(column: Option<int>, baseline: real, peak: real)

  /** Everything one frame computes for the canvas, in drawing order:
      graticule rows and columns, speckle, chambers, the mode overlay, the
      measurement markers and whether the two markers are joined. */
  datatype Picture = Picture(rows: seq<real>, cols: seq<real>, specks: seq<Speckle.Speck>,
                             chambers: Chambers, overlay: Overlay, markers: seq<Point>, joined: bool)

  /** `slice(-2)`: the last two elements (all of them if there are fewer). */
  function LastTwo<T>(s: seq<T>): (r: seq<T>)
    ensures |r| == if |s| < 2 then |s| else 2
    ensures r == s[|s| - |r|..]
  {
    if |s| <= 2 then s else s[|s| - 2..]
  }

  function Abs(x: real): real
  {
    if x < 0.0 then -x else x
  }

  /** `px` may be `Math.hypot(dx, dy)`: the Euclidean length of (dx, dy)
      lies between the larger and the sum of the two absolute offsets. */
  predicate IsHypot(px: real, dx: real, dy: real)
  {
    Abs(dx) <= px && Abs(dy) <= px && px <= Abs(dx) + Abs(dy)
  }

  /** A pixel distance in centimetres, `px / getScale(height)`. For depth 0
      the host's scale is infinite and the quotient 0. */
  function DistanceCm(px: real, depth: int, height: nat): (cm: real)
    requires height > 0
    ensures depth != 0 ==> cm * Graticule.Scale(height, depth) == px
    ensures depth == 0 ==> cm == 0.0
  {
    if depth == 0 then 0.0 else px / Graticule.Scale(height, depth)
  }

  /** For a positive depth a distance is never negative, and it is zero
      exactly when the two points coincide. */
  lemma DistanceZeroIffSamePoint(px: real, dx: real, dy: real, depth: int, height: nat)
    requires IsHypot(px, dx, dy)
    requires depth > 0 && height > 0
    ensures DistanceCm(px, depth, height) >= 0.0
    ensures DistanceCm(px, depth, height) == 0.0 <==> dx == 0.0 && dy == 0.0
  {
    var scale := Graticule.Scale(height, depth);
    assert scale > 0.0;
    if px > 0.0 {
      assert px / scale > 0.0;
    }
  }

  /** One scale length measures one centimetre. */
  lemma ScaleIsOneCentimetre(depth: int, height: nat)
    requires depth > 0 && height > 0
    ensures DistanceCm(Graticule.Scale(height, depth), depth, height) == 1.0
  {
  }

  /** Two clicks at (100, 100) and (100, 152.5) on a canvas 420 pixels
      high at depth 8 are one scale length apart and measure exactly 1 cm. */
  lemma DepthEightExample(px: real)
    requires IsHypot(px, 100.0 - 100.0, 152.5 - 100.0)
    ensures Graticule.Scale(420, 8) == 52.5
    ensures px == 52.5
    ensures DistanceCm(px, 8, 420) == 1.0
  {
  }

  /** The record a completed distance emits, with its parameter snapshot. */
  function DistanceRecord(value: real, p: Props, now: int): (m: Measurement)
    ensures IsDistance(m) && m.unit == "cm" && m.value == value && m.timestamp == now
    ensures m.meta == Some(Meta(p.preset, p.mode, p.gain, p.depth, p.heartRate))
  {
    Measurement("Distance", value, "cm", Some(Meta(p.preset, p.mode, p.gain, p.depth, p.heartRate)), now)
  }

  /** What `render` draws on a `canvas` at `time` (milliseconds) for sine
      `s`, holding the clicks `points`, and how it advances the M-mode
      trace from `trace` to `trace'`. */
  ghost predicate FrameContents(pic: Picture, p: Props, canvas: Canvas, time: real, s: real,
                                points: seq<Point>, trace: seq<real>, trace': seq<real>)
    requires p.depth != 0
  {
    var w, h, c := canvas.width, canvas.height, Contraction(s);
    && |pic.rows| == Graticule.RowCount(p.depth)
    && (forall i :: 0 <= i < |pic.rows| ==> pic.rows[i] == Graticule.Row(i, h, p.depth) as real + 0.5)
    && |pic.cols| == Graticule.ColumnCount(w)
    && (forall k :: 0 <= k < |pic.cols| ==> pic.cols[k] == (40 * k) as real + 0.5)
    && pic.specks == Speckle.Specks(Lcg.ToUint32(time.Floor), Speckle.Drawn(w, h, p.gain), w, h, p.gain)
    && pic.chambers == DrawChambers(p.preset, w, h, c)
    && trace' == (if p.mode == MMode then TraceUpdate(trace, SampleY(h, c), w) else trace)
    && pic.overlay == (match p.mode
                       case TwoD => NoOverlay
                       case MMode => TraceLine(trace')
                       case Doppler => SweepLine(SweepColumn(time / 1000.0, w), Baseline(h),
                                                 Peak(h, DopplerVelocity(s))))
    && pic.markers == points && pic.joined == (|points| == 2)
  }

  /** `render`'s drawing, for one frame on a present canvas. */
  method Render(p: Props, canvas: Canvas, time: real, s: real, points: seq<Point>, trace: seq<real>)
    returns (pic: Picture, trace': seq<real>)
    requires p.depth != 0
    ensures FrameContents(pic, p, canvas, time, s, points, trace, trace')
  {
    var w, h := canvas.width, canvas.height;
    var t := time / 1000.0;
    var rows, cols := Graticule.DrawGraticule(w, h, p.depth);
    assert t * 1000.0 == time;
    var specks := Speckle.DrawUltrasoundNoise(w, h, p.gain, t);
    var c := Contraction(s);
    var chambers := DrawChambers(p.preset, w, h, c);
    trace' := trace;
    var overlay := NoOverlay;
    if p.mode == MMode {
      trace' := TraceUpdate(trace, SampleY(h, c), w);
      overlay := TraceLine(trace');
    }
    if p.mode == Doppler {
      overlay := SweepLine(SweepColumn(t, w), Baseline(h), Peak(h, DopplerVelocity(s)));
    }
    pic := Picture(rows, cols, specks, chambers, overlay, points, |points| == 2);
  }

  class Viewport {
    var props: Props
    /** `points`: the clicks of an unfinished distance. */
    var points: seq<Point>
    /** `mTrace`: the M-mode samples, oldest first. */
    var mTrace: seq<real>
    /** `rafRef.current`: the handle most recently requested. */
    var rafId: Option<nat>
    /** The host's live frame callbacks. */
    var scheduled: set<nat>
    /** The host's next callback handle. */
    var nextHandle: nat
    /** The click buffer and the trace as the scheduled `render` closure
        sees them: the values of the render in which the animation effect
        last ran. Later state updates re-render the component but do not
        re-run the effect, so the running frame loop keeps these. */
    var seenPoints: seq<Point>
    var seenTrace: seq<real>

    /** The frame the viewport believes is pending, as a set. */
    function Pending(): set<nat>
      reads this
    {
      if rafId.Some? then {rafId.value} else {}
    }

    /** At most the remembered frame is live, none while frozen, handles are
        issued in increasing order, and no more than one click is held
        between clicks. */
    ghost predicate Valid()
      reads this
    {
      && scheduled <= Pending()
      && (props.frozen ==> scheduled == {})
      && (rafId.Some? ==> rafId.value < nextHandle)
      && |points| <= 1
      && |seenPoints| <= 1
    }

    /** Mounting: empty buffers, then the animation effect's first run. */
    constructor (p: Props, firstHandle: nat)
      ensures Valid()
      ensures props == p && points == [] && mTrace == [] && seenPoints == [] && seenTrace == []
      ensures p.frozen ==> scheduled == {} && rafId == None
      ensures !p.frozen ==> scheduled == {firstHandle} && rafId == Some(firstHandle)
      ensures nextHandle == if p.frozen then firstHandle else firstHandle + 1
    {
      props := p;
      points := [];
      mTrace := [];
      rafId := None;
      scheduled := {};
      nextHandle := firstHandle;
      seenPoints := [];
      seenTrace := [];
      new;
      CancelPending();
      if !props.frozen {
        RequestFrame();
      }
    }

    /** `rafRef.current = requestAnimationFrame(render)`. */
    method RequestFrame()
      modifies this
      ensures rafId == Some(old(nextHandle)) && nextHandle == old(nextHandle) + 1
      ensures scheduled == old(scheduled) + {old(nextHandle)}
      ensures props == old(props) && points == old(points) && mTrace == old(mTrace)
      ensures seenPoints == old(seenPoints) && seenTrace == old(seenTrace)
    {
      scheduled := scheduled + {nextHandle};
      rafId := Some(nextHandle);
      nextHandle := nextHandle + 1;
    }

    /** `cancelAnimationFrame(rafRef.current)`; the handle itself is kept. */
    method CancelPending()
      modifies this`scheduled
      ensures scheduled == old(scheduled) - Pending()
    {
      if rafId.Some? {
        scheduled := scheduled - {rafId.value};
      }
    }

    /** A re-render with new props. When a dependency changed, the effect's
        cleanup and its new run each cancel the remembered frame, a new frame
        is requested unless frozen, and the new `render` closure sees the
        current buffers. Neither buffer is cleared. */
    method UpdateProps(p: Props)
      requires Valid()
      modifies this
      ensures Valid()
      ensures props == p && points == old(points) && mTrace == old(mTrace)
      ensures SameDependencies(old(props), p) ==>
                && scheduled == old(scheduled) && rafId == old(rafId) && nextHandle == old(nextHandle)
                && seenPoints == old(seenPoints) && seenTrace == old(seenTrace)
      ensures !SameDependencies(old(props), p) ==> seenPoints == points && seenTrace == mTrace
      ensures !SameDependencies(old(props), p) && p.frozen ==>
                scheduled == {} && rafId == old(rafId) && nextHandle == old(nextHandle)
      ensures !SameDependencies(old(props), p) && !p.frozen ==>
                && scheduled == old(scheduled) - old(Pending()) + {old(nextHandle)}
                && scheduled == {old(nextHandle)}
                && rafId == Some(old(nextHandle)) && nextHandle == old(nextHandle) + 1
    {
      var changed := !SameDependencies(props, p);
      props := p;
      if changed {
        seenPoints := points;
        seenTrace := mTrace;
        CancelPending();
        CancelPending();
        if !props.frozen {
          RequestFrame();
        }
      }
    }

    /** Unmounting: the effect's cleanup cancels the remembered frame. */
    method Unmount()
      requires Valid()
      modifies this`scheduled
      ensures scheduled == {}
    {
      CancelPending();
    }

    /** The host runs frame callback `id` at time `time` (milliseconds);
        `s` is the sine of the cardiac phase at that time. Without a canvas
        the frame draws nothing and does not reschedule. Otherwise it draws
        from the closure's view of the buffers; in M-mode it sets the trace
        to that view's trace advanced by one sample. It requests the next
        frame unless frozen (a live callback implies not frozen). The held
        clicks are never a pair, so the connecting line is never drawn. */
    method Frame(id: nat, canvas: Option<Canvas>, time: real, s: real) returns (pic: Option<Picture>)
      requires Valid()
      requires id in scheduled
      requires -1.0 <= s <= 1.0
      requires props.depth != 0
      modifies this
      ensures Valid()
      ensures props == old(props) && points == old(points)
      ensures seenPoints == old(seenPoints) && seenTrace == old(seenTrace)
      ensures canvas.None? ==>
                && pic.None? && mTrace == old(mTrace)
                && scheduled == old(scheduled) - {id} && rafId == old(rafId) && nextHandle == old(nextHandle)
      ensures canvas.Some? ==>
                && pic.Some?
                && !pic.value.joined
                && (props.mode == MMode ==>
                      FrameContents(pic.value, props, canvas.value, time, s, seenPoints, seenTrace, mTrace))
                && (props.mode != MMode ==>
                      && FrameContents(pic.value, props, canvas.value, time, s, seenPoints, seenTrace, seenTrace)
                      && mTrace == old(mTrace))
                && scheduled == {old(nextHandle)} && rafId == Some(old(nextHandle))
                && nextHandle == old(nextHandle) + 1
    {
      scheduled := scheduled - {id};
      if canvas.None? {
        return None;
      }
      var picture, trace := Render(props, canvas.value, time, s, seenPoints, seenTrace);
      if props.mode == MMode {
        mTrace := trace;
      }
      pic := Some(picture);
      if !props.frozen {
        RequestFrame();
      }
    }

    /** A click at canvas-local (x, y) on a canvas `height` device pixels
        high, at host time `now`. `px` is the host's `Math.hypot` of the two
        points' offset when the click completes a pair. Ignored while frozen
        or when the distance tool is not selected; otherwise the click is
        buffered, and a second click emits one distance record and empties
        the buffer. */
    method Click(x: real, y: real, height: nat, px: real, now: int) returns (emitted: Option<Measurement>)
      requires Valid()
      requires height > 0
      requires !props.frozen && props.tool == Distance ==>
                 var next := LastTwo(points + [Point(x, y)]);
                 |next| == 2 ==> IsHypot(px, next[1].x - next[0].x, next[1].y - next[0].y)
      modifies this`points
      ensures Valid()
      ensures props.frozen || props.tool != Distance ==> emitted == None && points == old(points)
      ensures !props.frozen && props.tool == Distance ==>
                var next := LastTwo(old(points) + [Point(x, y)]);
                && (|next| == 2 ==>
                      emitted == Some(DistanceRecord(DistanceCm(px, props.depth, height), props, now))
                      && points == [])
                && (|next| < 2 ==> emitted == None && points == next)
    {
      if props.frozen {
        return None;
      }
      if props.tool != Distance {
        return None;
      }
      var next := LastTwo(points + [Point(x, y)]);
      points := next;
      emitted := None;
      if |next| == 2 {
        var cm := DistanceCm(px, props.depth, height);
        emitted := Some(DistanceRecord(cm, props, now));
        points := [];
      }
    }
  }

  /** While no more than one click is held, a click never pushes an earlier
      one out: `slice(-2)` keeps everything. */
  lemma ClickKeepsAll(points: seq<Point>, p: Point)
    requires |points| <= 1
    ensures LastTwo(points + [p]) == points + [p]
  {
  }

  /** A viewport allows at most one live frame callback. */
  lemma AtMostOnePending(v: Viewport)
    requires v.Valid()
    ensures |v.scheduled| <= 1
  {
    if v.rafId.Some? {
      if v.scheduled != {} {
        assert v.scheduled == {v.rafId.value};
      }
    } else {
      assert v.scheduled == {};
    }
  }

  /** Within one run of the animation effect, M-mode frames do not
      accumulate: after two frames the trace is the closure's trace with
      only the second frame's sample, and the first frame's sample is lost. */
  method TwoFramesKeepOneSample(v: Viewport, c: Canvas, t1: real, s1: real, t2: real, s2: real)
    requires v.Valid() && v.rafId.Some? && v.rafId.value in v.scheduled
    requires v.props.depth != 0 && v.props.mode == MMode
    requires -1.0 <= s1 <= 1.0 && -1.0 <= s2 <= 1.0
    modifies v
    ensures v.mTrace == TraceUpdate(old(v.seenTrace), SampleY(c.height, Contraction(s2)), c.width)
  {
    var first := v.Frame(v.rafId.value, Some(c), t1, s1);
    var second := v.Frame(v.rafId.value, Some(c), t2, s2);
  }
}
