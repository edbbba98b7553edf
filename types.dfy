/** Values shared by the viewport, the measurement panel and the application
    state: the control identifiers, a clicked point and a measurement record. */
module EchoTypes {

  datatype Option<+T> = None | Some(value: T)

  /** Imaging presets, in the order the control panel lists them. */
  datatype Preset = Apical4C | PLAX | PSAX | Subcostal

  /** Imaging modes. */
  datatype Mode = TwoD | MMode | Doppler

  /** Measurement tools. `NoTool` is the control panel's 'None'. */
  datatype Tool = NoTool | Distance | MTrace

  /** The identifier the control panel hands to the application for a preset. */
  function PresetId(p: Preset): string
  {
    match p
    case Apical4C => "Apical 4C"
    case PLAX => "PLAX"
    case PSAX => "PSAX"
    case Subcostal => "Subcostal"
  }

  function ModeId(m: Mode): string
  {
    match m
    case TwoD => "2D"
    case MMode => "M-mode"
    case Doppler => "Doppler"
  }

  function ToolId(t: Tool): string
  {
    match t
    case NoTool => "None"
    case Distance => "Distance"
    case MTrace => "M-Trace"
  }

  /** Reading an identifier back: exactly the listed identifiers are recognised. */
  function ParsePreset(s: string): (r: Option<Preset>)
    ensures r.Some? ==> PresetId(r.value) == s
    ensures forall p: Preset :: PresetId(p) == s ==> r == Some(p)
  {
    if s == "Apical 4C" then Some(Apical4C)
    else if s == "PLAX" then Some(PLAX)
    else if s == "PSAX" then Some(PSAX)
    else if s == "Subcostal" then Some(Subcostal)
    else None
  }

  function ParseMode(s: string): (r: Option<Mode>)
    ensures r.Some? ==> ModeId(r.value) == s
    ensures forall m: Mode :: ModeId(m) == s ==> r == Some(m)
  {
    if s == "2D" then Some(TwoD)
    else if s == "M-mode" then Some(MMode)
    else if s == "Doppler" then Some(Doppler)
    else None
  }

  function ParseTool(s: string): (r: Option<Tool>)
    ensures r.Some? ==> ToolId(r.value) == s
    ensures forall t: Tool :: ToolId(t) == s ==> r == Some(t)
  {
    if s == "None" then Some(NoTool)
    else if s == "Distance" then Some(Distance)
    else if s == "M-Trace" then Some(MTrace)
    else None
  }

  /** A click position in canvas-local CSS pixels. */
  datatype Point = Point(x: real, y: real)

  /** The parameter snapshot a distance record carries. */
  datatype Meta = Meta(preset: Preset, mode: Mode, gain: int, depth: int, heartRate: int)

  /** A measurement record as the application stores it. `kind` and `unit`
      are the record's `type` and `unit` strings; `meta` is absent for a
      record that carries none; `timestamp` is the host clock in milliseconds. */
  datatype Measurement = Measurement(kind: string, value: real, unit: string, meta: Option<Meta>, timestamp: int)

  predicate IsDistance(m: Measurement)
  {
    m.kind == "Distance"
  }

  predicate HasMeta(m: Measurement)
  {
    m.meta.Some?
  }
}
