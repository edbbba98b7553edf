/** Order facts about real multiplication that the drawing bounds rely on. */
module RealOrder {

  /** Multiplying by a non-negative factor keeps order, and multiplying by a
      positive factor keeps strict order. */
  lemma ScaleKeepsOrder(k: real, a: real, b: real)
    ensures k >= 0.0 && a <= b ==> k * a <= k * b
    ensures k > 0.0 && a < b ==> k * a < k * b
  {
    if k >= 0.0 && a <= b {
      assert k * (b - a) >= 0.0;
    }
    if k > 0.0 && a < b {
      assert k * (b - a) > 0.0;
    }
  }
}
