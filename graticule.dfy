/** The depth graticule: one horizontal line per whole centimetre of depth,
    counting the zero mark, and vertical sweep lines every 40 pixels. */
module Graticule {
  import RealOrder

  /** `getScale`: pixels per centimetre for a canvas `h` pixels high. */
  function Scale(h: nat, depth: int): (s: real)
    requires depth != 0
    ensures depth > 0 ==> s >= 0.0
    ensures depth > 0 && h > 0 ==> s > 0.0
  {
    h as real / depth as real
  }

  /** `depth` centimetres at this scale span the canvas height exactly. */
  lemma ScaleSpansHeight(h: nat, depth: int)
    requires depth != 0
    ensures Scale(h, depth) * depth as real == h as real
  {
  }

  /** The pixel row of the mark for centimetre `i`; its line is stroked
      half a pixel below, at `Row(i) + 0.5`. */
  function Row(i: nat, h: nat, depth: int): (r: int)
    requires depth != 0
    ensures depth > 0 ==> r >= 0
  {
    var y := i as real * Scale(h, depth);
    RealOrder.ScaleKeepsOrder(i as real, 0.0, Scale(h, depth));
    y.Floor
  }

  /** The horizontal loop runs `i = 0 .. floor(depth)`, which is empty for a
      negative depth. */
  function RowCount(depth: int): (n: nat)
    ensures depth >= 0 ==> n == depth + 1
    ensures depth < 0 ==> n == 0
  {
    if depth >= 0 then depth + 1 else 0
  }

  /** The number of x values `0, 40, 80, ...` below `w`: the ceiling of `w / 40`. */
  function ColumnCount(w: nat): (n: nat)
    ensures w == 0 ==> n == 0
    ensures w > 0 ==> 40 * (n - 1) < w <= 40 * n
  {
    (w + 39) / 40
  }

  /** `drawGraticule`: the y positions of the horizontal lines and the x
      positions of the vertical lines, in drawing order. */
  method DrawGraticule(w: nat, h: nat, depth: int) returns (rows: seq<real>, cols: seq<real>)
    requires depth != 0
    ensures |rows| == RowCount(depth)
    ensures forall i :: 0 <= i < |rows| ==> rows[i] == Row(i, h, depth) as real + 0.5
    ensures |cols| == ColumnCount(w)
    ensures forall k :: 0 <= k < |cols| ==> cols[k] == (40 * k) as real + 0.5 && cols[k] < w as real
  {
    var scale := Scale(h, depth);
    var cm := depth;
    rows := [];
    var i := 0;
    while i <= cm
      invariant 0 <= i <= RowCount(depth)
      invariant |rows| == i
      invariant forall j :: 0 <= j < i ==> rows[j] == Row(j, h, depth) as real + 0.5
    {
      var y := (i as real * scale).Floor as real + 0.5;
      assert (i as real * scale).Floor == Row(i, h, depth);
      rows := rows + [y];
      i := i + 1;
    }
    cols := [];
    var x := 0;
    while x < w
      invariant x == 40 * |cols|
      invariant |cols| > 0 ==> x - 40 < w
      invariant forall k :: 0 <= k < |cols| ==> cols[k] == (40 * k) as real + 0.5 && cols[k] < w as real
      decreases w - x
    {
      cols := cols + [x as real + 0.5];
      x := x + 40;
    }
  }

  lemma FloorMonotone(a: real, b: real)
    requires a <= b
    ensures a.Floor <= b.Floor
  {
    assert a.Floor as real <= a;
    assert b < b.Floor as real + 1.0;
  }

  /** Deeper marks are drawn lower. */
  lemma RowsAscending(i: nat, j: nat, h: nat, depth: int)
    requires depth > 0
    requires i <= j
    ensures Row(i, h, depth) <= Row(j, h, depth)
  {
    var s := Scale(h, depth);
    RealOrder.ScaleKeepsOrder(s, i as real, j as real);
    FloorMonotone(i as real * s, j as real * s);
  }

  /** The zero mark sits on the top row and the mark for the full depth on
      row `h`, just below a canvas of rows `0 .. h - 1`; every other mark is
      on the canvas. So `depth + 1` lines are drawn and `depth` of them are visible. */
  lemma RowPlacement(i: nat, h: nat, depth: int)
    requires depth > 0 && h > 0
    requires i <= depth
    ensures Row(0, h, depth) == 0
    ensures Row(depth, h, depth) == h
    ensures i < depth ==> Row(i, h, depth) < h
  {
    var s := Scale(h, depth);
    ScaleSpansHeight(h, depth);
    if i < depth {
      assert i as real * s < depth as real * s;
      var f := (i as real * s).Floor;
      assert f as real <= i as real * s;
      assert f < h;
    }
  }
}
