/** The two mode overlays: the scrolling M-mode trace and the Doppler
    sweep line. As in the motion model, `s` is the sine of the cardiac phase
    and `c` the contraction derived from it. */
module Overlays {
  import opened EchoTypes
  import opened Motion
  import RealOrder

  // ---------------------------------------------------------------- M-mode

  /** The sample the M-mode trace records: a wall position between 30% and
      55% of the canvas height. */
  function SampleY(h: nat, c: real): (y: real)
    ensures 0.0 <= c <= 1.0 ==> 0.3 * h as real <= y <= 0.55 * h as real
  {
    RealOrder.ScaleKeepsOrder(h as real, 0.3, 0.3 + 0.25 * c);
    RealOrder.ScaleKeepsOrder(h as real, 0.3 + 0.25 * c, 0.55);
    h as real * (0.3 + 0.25 * c)
  }

  /** The trace after one frame on a canvas `w` pixels wide: the new sample
      is appended and, if the trace is then longer than `w`, the oldest
      sample is dropped. */
  function TraceUpdate(trace: seq<real>, y: real, w: nat): (r: seq<real>)
    ensures |r| == if |trace| + 1 > w then |trace| else |trace| + 1
  {
    var next := trace + [y];
    if |next| > w then next[1..] else next
  }

  /** The last `n` elements of `s` (all of them if there are fewer). */
  function Suffix<T>(s: seq<T>, n: nat): (r: seq<T>)
    ensures |r| == if |s| <= n then |s| else n
  {
    if |s| <= n then s else s[|s| - n..]
  }

  /** One update keeps everything but at most the oldest sample, in order,
      and ends with the new sample unless a zero-width canvas drops it. */
  lemma TraceUpdateShape(trace: seq<real>, y: real, w: nat)
    ensures var r := TraceUpdate(trace, y, w);
      && (|trace| + 1 > w ==> (trace != [] && r == trace[1..] + [y]) || (trace == [] && r == []))
      && (|trace| + 1 <= w ==> r == trace + [y])
      && (|trace| > 0 || w > 0 ==> |r| > 0 && r[|r| - 1] == y)
  {
    var r := TraceUpdate(trace, y, w);
    if |trace| + 1 > w && trace != [] {
      assert (trace + [y])[1..] == trace[1..] + [y];
    }
  }

  /** A trace that fits the canvas still fits after an update, and an update
      never shortens the trace. A trace longer than a narrowed canvas
      therefore keeps its length for good: it is never trimmed to the new
      width. */
  lemma TraceUpdateBounded(trace: seq<real>, y: real, w: nat)
    ensures |trace| <= w ==> |TraceUpdate(trace, y, w)| <= w
    ensures |trace| <= |TraceUpdate(trace, y, w)| <= |trace| + 1
  {
  }

  /** The trace after one update per sample of `ys`, oldest sample first. */
  function Feed(trace: seq<real>, ys: seq<real>, w: nat): seq<real>
    decreases |ys|
  {
    if ys == [] then trace else Feed(TraceUpdate(trace, ys[0], w), ys[1..], w)
  }

  /** The trace is a sliding window: starting from one that fits the canvas,
      it always holds the newest `w` samples seen, oldest first. */
  lemma {:induction false} FeedIsWindow(trace: seq<real>, ys: seq<real>, w: nat)
    requires |trace| <= w
    ensures Feed(trace, ys, w) == Suffix(trace + ys, w)
    decreases |ys|
  {
    if ys != [] {
      var next := TraceUpdate(trace, ys[0], w);
      assert next == Suffix(trace + [ys[0]], w);
      FeedIsWindow(next, ys[1..], w);
      assert trace + ys == (trace + [ys[0]]) + ys[1..];
      SuffixOfSuffix(trace + [ys[0]], ys[1..], w);
    }
  }

  lemma SuffixOfSuffix(s: seq<real>, t: seq<real>, n: nat)
    ensures Suffix(Suffix(s, n) + t, n) == Suffix(s + t, n)
  {
    var a := Suffix(s, n);
    if |s| > n {
      assert s + t == s[..|s| - n] + (a + t);
      if |a + t| > n {
        assert (s + t)[|s + t| - n..] == (a + t)[|a + t| - n..];
      }
    }
  }

  /** FIFO eviction: once more than `w` samples have been fed into an empty
      trace, the trace is exactly the newest `w` of them, so the first one
      is gone. */
  lemma FirstSampleEvicted(ys: seq<real>, w: nat)
    requires |ys| > w
    ensures Feed([], ys, w) == ys[|ys| - w..]
    ensures |Feed([], ys, w)| == w
  {
    FeedIsWindow([], ys, w);
    assert [] + ys == ys;
  }

  // --------------------------------------------------------------- Doppler

  /** The forward-flow velocity envelope: the positive half of the sine,
      scaled by 0.9. */
  function DopplerVelocity(s: real): (v: real)
    ensures v >= 0.0
    ensures v > 0.0 <==> s > 0.0
    ensures s <= 1.0 ==> v <= 0.9
  {
    if 0.0 < s * 0.9 then s * 0.9 else 0.0
  }

  /** The spectral baseline, at 60% of the canvas height. */
  function Baseline(h: nat): (b: real)
    ensures 0.0 <= b <= h as real
    ensures h > 0 ==> b < h as real
  {
    h as real * 0.6
  }

  /** The top of the spectral line for velocity `v`. */
  function Peak(h: nat, v: real): (y: real)
    ensures 0.0 <= v <= 0.9 ==> Baseline(h) - 0.405 * h as real <= y <= Baseline(h)
  {
    var k := h as real * 0.45;
    RealOrder.ScaleKeepsOrder(k, 0.0, v);
    RealOrder.ScaleKeepsOrder(k, v, 0.9);
    assert k * 0.9 == 0.405 * h as real;
    Baseline(h) - v * k
  }

  /** The envelope and the chamber motion are phase-locked: forward flow is
      shown exactly in the contracting half of the cycle. */
  lemma FlowDuringSystole(s: real)
    ensures DopplerVelocity(s) > 0.0 <==> Contraction(s) > 0.5
  {
  }

  /** `Math.trunc`. */
  function Trunc(x: real): (n: int)
    ensures x >= 0.0 ==> n as real <= x < n as real + 1.0
    ensures x < 0.0 ==> n as real - 1.0 < x <= n as real
  {
    if x >= 0.0 then x.Floor else -((-x).Floor)
  }

  /** The host's `%` on numbers: the remainder of truncated division, which
      takes the sign of the dividend. */
  function Remainder(a: real, b: real): (r: real)
    requires b > 0.0
    ensures a >= 0.0 ==> 0.0 <= r < b
    ensures a < 0.0 ==> -b < r <= 0.0
  {
    var q := Trunc(a / b);
    RemainderBounds(a, b, q);
    a - b * q as real
  }

  /** The remainder `a - b * q` of a quotient `q` within one of `a / b`. */
  lemma RemainderBounds(a: real, b: real, q: int)
    requires b > 0.0
    requires q == Trunc(a / b)
    ensures a >= 0.0 ==> 0.0 <= a - b * q as real < b
    ensures a < 0.0 ==> -b < a - b * q as real <= 0.0
  {
    QuotientSign(a, b);
    if a >= 0.0 {
      FractionBelow(a, b, q as real);
    } else {
      FractionAbove(a, b, q as real);
    }
  }

  lemma QuotientSign(a: real, b: real)
    requires b > 0.0
    ensures a >= 0.0 <==> a / b >= 0.0
  {
  }

  lemma FractionBelow(a: real, b: real, qr: real)
    requires b > 0.0
    requires qr <= a / b < qr + 1.0
    ensures 0.0 <= a - b * qr < b
  {
    var f := a / b - qr;
    assert 0.0 <= f < 1.0;
    assert b * f == a - b * qr;
    RealOrder.ScaleKeepsOrder(b, f, 1.0);
    assert b * f >= 0.0;
  }

  lemma FractionAbove(a: real, b: real, qr: real)
    requires b > 0.0
    requires qr - 1.0 < a / b <= qr
    ensures -b < a - b * qr <= 0.0
  {
    var f := a / b - qr;
    assert -1.0 < f <= 0.0;
    assert b * f == a - b * qr;
    RealOrder.ScaleKeepsOrder(b, -1.0, f);
    assert b * f <= 0.0;
  }

  /** The sweep column `floor((t * 120) % w)`: undefined (the host's NaN) on
      a canvas of width zero, and a column of the canvas for any time
      `t >= 0`. */
  function SweepColumn(t: real, w: nat): (x: Option<int>)
    ensures x.None? <==> w == 0
    ensures x.Some? && t >= 0.0 ==> 0 <= x.value < w
    ensures x.Some? && t < 0.0 ==> -(w as int) <= x.value <= 0
  {
    if w == 0 then None else Some(Remainder(t * 120.0, w as real).Floor)
  }
}
