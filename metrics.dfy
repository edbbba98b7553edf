/** The measurement panel's derived metrics, computed from the measurement
    list, which the application keeps newest first. */
module Metrics {
  import opened EchoTypes

  /** The first index whose element satisfies `p`: the array `find`. */
  function FindFirst<T>(s: seq<T>, p: T -> bool): (r: Option<nat>)
    ensures r.Some? ==> r.value < |s| && p(s[r.value]) && forall j :: 0 <= j < r.value ==> !p(s[j])
    ensures r.None? ==> forall j :: 0 <= j < |s| ==> !p(s[j])
  {
    if s == [] then None
    else if p(s[0]) then Some(0)
    else match FindFirst(s[1..], p)
      case None => None
      case Some(i) => Some(i + 1)
  }

  /** The first Distance record in the list: the most recent one. */
  function LastDistance(ms: seq<Measurement>): (r: Option<Measurement>)
    ensures r.Some? <==> exists i :: 0 <= i < |ms| && IsDistance(ms[i])
    ensures r.Some? ==>
              && IsDistance(r.value)
              && exists i :: 0 <= i < |ms| && ms[i] == r.value && forall j :: 0 <= j < i ==> !IsDistance(ms[j])
  {
    match FindFirst(ms, IsDistance)
    case None => None
    case Some(i) => Some(ms[i])
  }

  /** The heart rate shown when the list gives none. */
  const DEFAULT_HEART_RATE: int := 120

  /** `measurements.find(m => m.meta)?.meta?.heartRate || 120`: the heart
      rate of the first record that carries a parameter snapshot, unless
      there is none or that rate is zero (falsy). */
  function HeartRate(ms: seq<Measurement>): (hr: int)
    ensures hr != 0
    ensures (forall j :: 0 <= j < |ms| ==> !HasMeta(ms[j])) ==> hr == DEFAULT_HEART_RATE
    ensures forall i :: 0 <= i < |ms| && HasMeta(ms[i]) && (forall j :: 0 <= j < i ==> !HasMeta(ms[j])) ==>
              hr == if ms[i].meta.value.heartRate != 0 then ms[i].meta.value.heartRate else DEFAULT_HEART_RATE
  {
    match FindFirst(ms, HasMeta)
    case None => DEFAULT_HEART_RATE
    case Some(i) =>
      var rate := ms[i].meta.value.heartRate;
      if rate != 0 then rate else DEFAULT_HEART_RATE
  }

  /** The mock systolic dimension `max(0.1, 0.7 * lvedd)`. */
  function Lvesd(lvedd: real): (r: real)
    ensures r >= 0.1 && r >= 0.7 * lvedd
    ensures r == 0.1 || r == 0.7 * lvedd
  {
    if 0.1 < lvedd * 0.7 then lvedd * 0.7 else 0.1
  }

  /** The fractional-shortening result. `NoDistance` is the panel's `null`;
      `DivideByZero` is the case `lvedd == 0`, for which the host computes
      `-Infinity`. */
  datatype Fs = NoDistance | DivideByZero | Percent(value: real)

  /** `((lvedd - lvesd) / lvedd) * 100` for a measured diastolic dimension. */
  function FsOf(lvedd: real): (r: Fs)
    ensures !r.NoDistance?
    ensures r == DivideByZero <==> lvedd == 0.0
  {
    if lvedd == 0.0 then DivideByZero else Percent((lvedd - Lvesd(lvedd)) / lvedd * 100.0)
  }

  /** The panel's fractional shortening, from the most recent distance. */
  function FractionalShortening(ms: seq<Measurement>): (r: Fs)
    ensures r == NoDistance <==> forall j :: 0 <= j < |ms| ==> !IsDistance(ms[j])
  {
    match LastDistance(ms)
    case None => NoDistance
    case Some(m) => FsOf(m.value)
  }

  /** The shape of the formula: 30% once `0.7 * lvedd` exceeds the 0.1
      floor, below 30% under `1/7`, zero at 0.1 and negative below it. */
  lemma FsCases(lvedd: real)
    ensures lvedd >= 1.0 / 7.0 ==> FsOf(lvedd) == Percent(30.0)
    ensures 0.0 < lvedd < 1.0 / 7.0 ==> FsOf(lvedd).Percent? && FsOf(lvedd).value < 30.0
    ensures lvedd == 0.1 ==> FsOf(lvedd) == Percent(0.0)
    ensures 0.0 < lvedd < 0.1 ==> FsOf(lvedd).Percent? && FsOf(lvedd).value < 0.0
  {
    if lvedd >= 1.0 / 7.0 {
      assert Lvesd(lvedd) == 0.7 * lvedd;
      assert (lvedd - 0.7 * lvedd) / lvedd == 0.3;
    } else if 0.0 < lvedd {
      assert Lvesd(lvedd) == 0.1;
      var q := (lvedd - 0.1) / lvedd;
      assert q == 1.0 - 0.1 / lvedd;
      assert 0.1 / lvedd > 0.7;
      if lvedd < 0.1 {
        assert 0.1 / lvedd > 1.0;
      }
    }
  }

  /** The panel shows the percentage only when `fs` is truthy. */
  function FsShown(fs: Fs): (shown: bool)
    ensures shown <==> fs != NoDistance && fs != Percent(0.0)
  {
    match fs
    case NoDistance => false
    case DivideByZero => true
    case Percent(p) => p != 0.0
  }

  /** The panel shows a dash instead of a percentage exactly when there is
      no distance or the newest distance is 0.1 cm; a zero distance shows
      the host's `-Infinity %`. */
  lemma FsDashWhen(ms: seq<Measurement>)
    ensures !FsShown(FractionalShortening(ms)) <==>
              LastDistance(ms).None? || LastDistance(ms).value.value == 0.1
  {
    match LastDistance(ms)
    case None =>
    case Some(m) =>
      var d := m.value;
      if d != 0.0 && (d - Lvesd(d)) / d * 100.0 == 0.0 {
        assert d - Lvesd(d) == 0.0;
      }
  }

  /** What the panel derives. */
  datatype Derived = Derived(hr: int, fs: Fs)

  function Derive(ms: seq<Measurement>): (d: Derived)
    ensures d.fs.NoDistance? <==> LastDistance(ms).None?
    ensures ms == [] ==> d == Derived(DEFAULT_HEART_RATE, NoDistance)
  {
    Derived(HeartRate(ms), FractionalShortening(ms))
  }
}
