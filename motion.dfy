/** The cardiac motion model and the chamber outlines it drives. The host's
    sine is not modelled: every function here takes `s`, the sine of the
    cardiac phase, and states its promises for `s` in [-1, 1]. */
module Motion {
  import opened EchoTypes

  /** `heartMotion`: the contraction phase, 0 at end-diastole and 1 at peak
      systole. */
  function Contraction(s: real): (c: real)
    ensures -1.0 <= s <= 1.0 ==> 0.0 <= c <= 1.0
    ensures s == -1.0 ==> c == 0.0
    ensures s == 1.0 ==> c == 1.0
  {
    (s + 1.0) / 2.0
  }

  /** A higher sine is a stronger contraction. */
  lemma ContractionMonotone(s1: real, s2: real)
    requires s1 <= s2
    ensures Contraction(s1) <= Contraction(s2)
  {
  }

  /** The left ventricle's size factor: it shrinks by up to 15% in systole. */
  function LvScale(c: real): (r: real)
    ensures 0.0 <= c <= 1.0 ==> 0.85 <= r <= 1.0
  {
    1.0 - c * 0.15
  }

  /** The right ventricle's size factor: it shrinks by up to 10% in systole. */
  function RvScale(c: real): (r: real)
    ensures 0.0 <= c <= 1.0 ==> 0.9 <= r <= 1.0
  {
    1.0 - c * 0.1
  }

  /** The mitral valve's opening: widest in diastole. */
  function MvOpen(c: real): (r: real)
    ensures 0.0 <= c <= 1.0 ==> 0.2 <= r <= 0.7
  {
    0.2 + 0.5 * (1.0 - c)
  }

  /** The ventricles shrink and the valve closes as contraction grows. */
  lemma SystoleShrinksAndCloses(c1: real, c2: real)
    requires c1 <= c2
    ensures LvScale(c2) <= LvScale(c1)
    ensures RvScale(c2) <= RvScale(c1)
    ensures MvOpen(c2) <= MvOpen(c1)
  {
  }

  /** The horizontal centre of the left ventricle for a preset. */
  function CenterX(p: Preset, w: nat): (x: real)
    ensures 0.4 * w as real <= x <= 0.5 * w as real
  {
    match p
    case PLAX => w as real * 0.45
    case PSAX => w as real * 0.5
    case _ => w as real * 0.4
  }

  /** The vertical centre of the left ventricle for a preset. */
  function CenterY(p: Preset, h: nat): (y: real)
    ensures 0.45 * h as real <= y <= 0.55 * h as real
  {
    if p == PSAX then h as real * 0.45 else h as real * 0.55
  }

  /** Three distinct framings: the two parasternal views have their own
      centres, and the apical and subcostal views share the default one. */
  lemma PresetFraming(w: nat, h: nat)
    requires w > 0 && h > 0
    ensures CenterX(Apical4C, w) == CenterX(Subcostal, w) && CenterY(Apical4C, h) == CenterY(Subcostal, h)
    ensures CenterX(PLAX, w) != CenterX(Apical4C, w)
    ensures CenterX(PSAX, w) != CenterX(Apical4C, w)
    ensures CenterX(PLAX, w) != CenterX(PSAX, w)
    ensures CenterY(PSAX, h) < CenterY(PLAX, h) == CenterY(Apical4C, h)
  {
  }

  datatype Ellipse = Ellipse(cx: real, cy: real, rx: real, ry: real, rotation: real)

  /** A quadratic curve from (x0, y0) to (x1, y1) with control point (qx, qy). */
  datatype Curve = Curve(x0: real, y0: real, qx: real, qy: real, x1: real, y1: real)

  datatype Chambers = Chambers(lv: Ellipse, rv: Ellipse, valve: Curve)

  /** The geometry `drawChambers` strokes for contraction `c`. */
  function DrawChambers(p: Preset, w: nat, h: nat, c: real): (ch: Chambers)
    ensures ch.lv.cx == CenterX(p, w) && ch.lv.cy == CenterY(p, h)
    ensures ch.rv.cx == ch.lv.cx + 90.0 && ch.rv.cy == ch.lv.cy + 10.0
    ensures 0.0 <= c <= 1.0 ==>
              && 68.0 <= ch.lv.rx <= 80.0 && 102.0 <= ch.lv.ry <= 120.0
              && 54.0 <= ch.rv.rx <= 60.0 && 90.0 <= ch.rv.ry <= 100.0
    ensures ch.valve.x0 == ch.lv.cx - 40.0 && ch.valve.x1 == ch.lv.cx + 40.0
    ensures ch.valve.y0 == ch.valve.y1 == ch.lv.cy && ch.valve.qx == ch.lv.cx
    ensures 0.0 <= c <= 1.0 ==> ch.lv.cy - 14.0 <= ch.valve.qy <= ch.lv.cy - 4.0
  {
    var cx := CenterX(p, w);
    var cy := CenterY(p, h);
    var lv := LvScale(c);
    var rv := RvScale(c);
    var mv := MvOpen(c);
    Chambers(Ellipse(cx, cy, 80.0 * lv, 120.0 * lv, -0.2),
             Ellipse(cx + 90.0, cy + 10.0, 60.0 * rv, 100.0 * rv, -0.1),
             Curve(cx - 40.0, cy, cx, cy - 20.0 * mv, cx + 40.0, cy))
  }
}
