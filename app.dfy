/** The application's state: the acquisition settings the control panel
    edits, the freeze flag, the selected tool and the measurement list, which
    it keeps newest first and hands to the viewport and the panel. */
module AppState {
  import opened EchoTypes
  import opened Metrics
  import Viewport

  /** A snapshot of every state variable. */
  datatype Settings = Settings(preset: Preset, mode: Mode, gain: int, depth: int, heartRate: int,
                               frozen: bool, tool: Tool, measurements: seq<Measurement>)

  /** The state on mount. */
  function Initial(): (s: Settings)
    ensures PresetId(s.preset) == "Apical 4C" && ModeId(s.mode) == "2D" && ToolId(s.tool) == "None"
    ensures s.gain == 55 && s.depth == 8 && s.heartRate == 120 && !s.frozen && s.measurements == []
  {
    Settings(Apical4C, TwoD, 55, 8, 120, false, NoTool, [])
  }

  class App {
    var preset: Preset
    var mode: Mode
    var gain: int
    var depth: int
    var heartRate: int
    var frozen: bool
    var tool: Tool
    /** Newest first. */
    var measurements: seq<Measurement>

    function State(): Settings
      reads this
    {
      Settings(preset, mode, gain, depth, heartRate, frozen, tool, measurements)
    }

    /** The props the viewport receives. */
    function ViewportProps(): (p: Viewport.Props)
      reads this
      ensures p.preset == preset && p.mode == mode && p.gain == gain && p.depth == depth
      ensures p.heartRate == heartRate && p.frozen == frozen && p.tool == tool
    {
      Viewport.Props(preset, mode, gain, depth, heartRate, frozen, tool)
    }

    constructor ()
      ensures State() == Initial()
    {
      preset := Apical4C;
      mode := TwoD;
      gain := 55;
      depth := 8;
      heartRate := 120;
      frozen := false;
      tool := NoTool;
      measurements := [];
    }

    method SetPreset(p: Preset)
      modifies this
      ensures State() == old(State()).(preset := p)
    {
      preset := p;
    }

    method SetMode(m: Mode)
      modifies this
      ensures State() == old(State()).(mode := m)
    {
      mode := m;
    }

    method SetGain(g: int)
      modifies this
      ensures State() == old(State()).(gain := g)
    {
      gain := g;
    }

    method SetDepth(d: int)
      modifies this
      ensures State() == old(State()).(depth := d)
    {
      depth := d;
    }

    method SetHeartRate(hr: int)
      modifies this
      ensures State() == old(State()).(heartRate := hr)
    {
      heartRate := hr;
    }

    method SetTool(t: Tool)
      modifies this
      ensures State() == old(State()).(tool := t)
    {
      tool := t;
    }

    /** The freeze button flips the flag. */
    method ToggleFreeze()
      modifies this
      ensures State() == old(State()).(frozen := !old(frozen))
    {
      frozen := !frozen;
    }

    /** A record from the viewport goes to the front of the list. */
    method AddMeasurement(m: Measurement)
      modifies this
      ensures State() == old(State()).(measurements := [m] + old(measurements))
    {
      measurements := [m] + measurements;
    }

    /** The panel's clear button empties the list. */
    method ClearMeasurements()
      modifies this
      ensures State() == old(State()).(measurements := [])
    {
      measurements := [];
    }
  }

  /** Pressing freeze twice restores every setting. */
  method FreezeTwice(app: App)
    modifies app
    ensures app.State() == old(app.State())
  {
    app.ToggleFreeze();
    app.ToggleFreeze();
  }

  /** A click on the viewport, wired to the application as the viewport's
      `onAddMeasurement` callback: an emitted record is prepended, and
      nothing else in the application changes. */
  method ClickThrough(app: App, vp: Viewport.Viewport, x: real, y: real, height: nat, px: real, now: int)
    returns (emitted: Option<Measurement>)
    requires vp.Valid() && vp.props == app.ViewportProps()
    requires height > 0
    requires !vp.props.frozen && vp.props.tool == Distance ==>
               var next := Viewport.LastTwo(vp.points + [Point(x, y)]);
               |next| == 2 ==> Viewport.IsHypot(px, next[1].x - next[0].x, next[1].y - next[0].y)
    modifies app, vp`points
    ensures vp.Valid() && vp.props == app.ViewportProps()
    ensures emitted.None? ==> app.State() == old(app.State())
    ensures emitted.Some? ==>
              && IsDistance(emitted.value)
              && app.State() == old(app.State()).(measurements := [emitted.value] + old(app.measurements))
  {
    emitted := vp.Click(x, y, height, px, now);
    if emitted.Some? {
      app.AddMeasurement(emitted.value);
    }
  }

  /** A new distance becomes the one the panel derives its numbers from. */
  lemma NewestDistanceWins(m: Measurement, ms: seq<Measurement>)
    requires IsDistance(m)
    ensures LastDistance([m] + ms) == Some(m)
    ensures FractionalShortening([m] + ms) == FsOf(m.value)
  {
    assert ([m] + ms)[0] == m;
  }

  /** A record of another kind leaves the panel's distance unchanged. */
  lemma OtherKindKeepsDistance(m: Measurement, ms: seq<Measurement>)
    requires !IsDistance(m)
    ensures LastDistance([m] + ms) == LastDistance(ms)
    ensures FractionalShortening([m] + ms) == FractionalShortening(ms)
  {
    assert ([m] + ms)[1..] == ms;
  }

  /** A record carrying a parameter snapshot sets the panel's heart rate,
      unless that rate is zero. */
  lemma NewestSnapshotSetsHeartRate(m: Measurement, ms: seq<Measurement>)
    requires HasMeta(m)
    ensures HeartRate([m] + ms) == if m.meta.value.heartRate != 0 then m.meta.value.heartRate else DEFAULT_HEART_RATE
  {
    assert ([m] + ms)[0] == m;
  }

  /** After the viewport emits a distance for props `p`, the panel shows
      that distance's heart rate and fractional shortening. */
  lemma DistanceRecordDerives(value: real, p: Viewport.Props, now: int, ms: seq<Measurement>)
    ensures Derive([Viewport.DistanceRecord(value, p, now)] + ms)
              == Derived(if p.heartRate != 0 then p.heartRate else DEFAULT_HEART_RATE, FsOf(value))
  {
    var m := Viewport.DistanceRecord(value, p, now);
    NewestDistanceWins(m, ms);
    NewestSnapshotSetsHeartRate(m, ms);
  }

  /** Two clicks on the same point at a positive depth record 0 cm, for
      which the fractional-shortening formula divides by zero. */
  lemma SamePointDividesByZero(px: real, depth: int, height: nat, p: Viewport.Props, now: int,
                               ms: seq<Measurement>)
    requires Viewport.IsHypot(px, 0.0, 0.0)
    requires depth > 0 && height > 0
    ensures FractionalShortening([Viewport.DistanceRecord(Viewport.DistanceCm(px, depth, height), p, now)] + ms)
              == DivideByZero
  {
    Viewport.DistanceZeroIffSamePoint(px, 0.0, 0.0, depth, height);
    NewestDistanceWins(Viewport.DistanceRecord(Viewport.DistanceCm(px, depth, height), p, now), ms);
  }
}
