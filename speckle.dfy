/** The ultrasound speckle layer: a gain-dependent number of single-pixel
    marks at pseudo-random positions, drawn from a generator seeded with the
    frame's millisecond time. */
module Speckle {
  import opened Lcg

  /** One mark: its pixel and its opacity. */
  datatype Speck = Speck(x: int, y: int, alpha: real)

  /** Marks per pixel before the 0.002 thinning factor. */
  function Density(gain: int): real
  {
    0.08 + (gain as real / 100.0) * 0.25
  }

  /** The loop bound `floor(w * h * density * 0.002)`. */
  function Count(w: nat, h: nat, gain: int): (c: int)
    ensures w == 0 || h == 0 ==> c == 0
    ensures gain >= 0 ==> c >= 0
  {
    (w as real * h as real * Density(gain) * 0.002).Floor
  }

  /** The number of marks actually drawn: the loop runs zero times for a
      bound below one. */
  function Drawn(w: nat, h: nat, gain: int): (n: nat)
    ensures n >= Count(w, h, gain)
    ensures n > 0 ==> n == Count(w, h, gain)
  {
    if Count(w, h, gain) > 0 then Count(w, h, gain) else 0
  }

  /** The mark made from three draws: x, y and the opacity, in that order. */
  function Mark(u1: real, u2: real, u3: real, w: nat, h: nat, gain: int): Speck
  {
    Speck((u1 * w as real).Floor, (u2 * h as real).Floor, 0.05 + u3 * (gain as real / 100.0) * 0.6)
  }

  /** The mark produced from generator state `s`: the next three draws. */
  function SpeckFrom(s: nat, w: nat, h: nat, gain: int): Speck
  {
    Mark(ToUnit(StateAfter(s, 1)), ToUnit(StateAfter(s, 2)), ToUnit(StateAfter(s, 3)), w, h, gain)
  }

  /** The first `n` marks of a generator started in state `s`. */
  function Specks(s: nat, n: nat, w: nat, h: nat, gain: int): (r: seq<Speck>)
    ensures |r| == n
    decreases n
  {
    if n == 0 then [] else [SpeckFrom(s, w, h, gain)] + Specks(StateAfter(s, 3), n - 1, w, h, gain)
  }

  /** Mark `k` is made from the generator state after `3 * k` draws: each
      mark consumes exactly three draws. */
  lemma {:induction false} SpeckAt(s: nat, n: nat, w: nat, h: nat, gain: int, k: nat)
    requires k < n
    ensures Specks(s, n, w, h, gain)[k] == SpeckFrom(StateAfter(s, 3 * k), w, h, gain)
    decreases k
  {
    if k > 0 {
      SpeckAt(StateAfter(s, 3), n - 1, w, h, gain, k - 1);
      StateAfterAdd(s, 3, 3 * (k - 1));
    }
  }

  /** Marks are generated in order, so the first `n + 1` extend the first `n`. */
  lemma {:induction false} SpecksSnoc(s: nat, n: nat, w: nat, h: nat, gain: int)
    ensures Specks(s, n + 1, w, h, gain) == Specks(s, n, w, h, gain) + [SpeckFrom(StateAfter(s, 3 * n), w, h, gain)]
    decreases n
  {
    if n > 0 {
      SpecksSnoc(StateAfter(s, 3), n - 1, w, h, gain);
      StateAfterAdd(s, 3, 3 * (n - 1));
    }
  }

  /** `floor(u * n)` is a valid index below `n` for a draw `u` in [0, 1). */
  lemma ScaledFloor(u: real, n: nat)
    requires 0.0 <= u < 1.0
    requires n > 0
    ensures 0 <= (u * n as real).Floor < n
  {
    assert u * n as real < n as real;
  }

  /** A positive count needs a canvas that is at least one pixel each way. */
  lemma CountNeedsArea(w: nat, h: nat, gain: int)
    requires Count(w, h, gain) > 0
    ensures w > 0 && h > 0
  {
  }

  /** More gain never means fewer marks. */
  lemma CountMonotoneInGain(w: nat, h: nat, g1: int, g2: int)
    requires g1 <= g2
    ensures Count(w, h, g1) <= Count(w, h, g2)
  {
    var area := w as real * h as real;
    assert area >= 0.0;
    assert Density(g1) <= Density(g2);
    assert area * Density(g1) <= area * Density(g2);
  }

  /** The mark lies on a `w` by `h` canvas, and for a non-negative gain its
      opacity lies in [0.05, 0.05 + 0.6 * gain / 100]. */
  predicate InBounds(m: Speck, w: nat, h: nat, gain: int)
  {
    && 0 <= m.x < w
    && 0 <= m.y < h
    && (gain >= 0 ==> 0.05 <= m.alpha <= 0.05 + 0.6 * (gain as real / 100.0))
  }

  /** A mark made from draws in [0, 1) lies on the canvas, and for a
      non-negative gain its opacity lies in [0.05, 0.05 + 0.6 * gain / 100]. */
  lemma MarkBounds(u1: real, u2: real, u3: real, w: nat, h: nat, gain: int)
    requires 0.0 <= u1 < 1.0 && 0.0 <= u2 < 1.0 && 0.0 <= u3 < 1.0
    requires w > 0 && h > 0
    ensures InBounds(Mark(u1, u2, u3, w, h, gain), w, h, gain)
  {
    ScaledFloor(u1, w);
    ScaledFloor(u2, h);
    var g := gain as real / 100.0;
    if gain >= 0 {
      assert 0.0 <= u3 * g <= g;
    }
  }

  /** `drawUltrasoundNoise`: seed a generator with `floor(t * 1000)` and draw
      the marks one by one. Returns the marks in drawing order. */
  method DrawUltrasoundNoise(w: nat, h: nat, gain: int, t: real) returns (marks: seq<Speck>)
    ensures marks == Specks(ToUint32((t * 1000.0).Floor), Drawn(w, h, gain), w, h, gain)
    ensures |marks| == Drawn(w, h, gain)
    ensures forall k :: 0 <= k < |marks| ==> InBounds(marks[k], w, h, gain)
  {
    var rng := new Generator((t * 1000.0).Floor);
    ghost var s0 := rng.state;
    var count := Count(w, h, gain);
    if count > 0 {
      CountNeedsArea(w, h, gain);
    }
    marks := [];
    var i := 0;
    while i < count
      invariant 0 <= i <= Drawn(w, h, gain)
      invariant rng.Valid()
      invariant rng.state == StateAfter(s0, 3 * i)
      invariant marks == Specks(s0, i, w, h, gain)
      invariant forall k :: 0 <= k < |marks| ==> InBounds(marks[k], w, h, gain)
    {
      ghost var before := rng.state;
      var u1 := rng.Next();
      var u2 := rng.Next();
      var u3 := rng.Next();
      var mark := Mark(u1, u2, u3, w, h, gain);
      assert u1 == ToUnit(StateAfter(before, 1));
      assert u2 == ToUnit(StateAfter(before, 2));
      assert u3 == ToUnit(StateAfter(before, 3));
      assert mark == SpeckFrom(before, w, h, gain);
      MarkBounds(u1, u2, u3, w, h, gain);
      SpecksSnoc(s0, i, w, h, gain);
      StateAfterAdd(s0, 3 * i, 3);
      marks := marks + [mark];
      i := i + 1;
    }
  }
}
