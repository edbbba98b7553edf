/** The speckle generator's pseudo-random source: a 32-bit linear-congruential
    generator. Every product it forms stays below 2^53, so the host's
    floating-point arithmetic computes it exactly; the model uses integers. */
module Lcg {

  const MODULUS: nat := 0x1_0000_0000
  const MULTIPLIER: nat := 1664525
  const INCREMENT: nat := 1013904223

  /** 2^53: the first integer the host's numbers cannot all represent. */
  const EXACT_LIMIT: nat := 0x20_0000_0000_0000

  /** `seed >>> 0` for an integer seed: the residue of the seed modulo 2^32. */
  function ToUint32(seed: int): (s: nat)
    ensures s < MODULUS
    ensures (seed - s) % MODULUS == 0
  {
    seed % MODULUS
  }

  /** One generator step on a 32-bit state. */
  function Step(s: nat): (r: nat)
    ensures r < MODULUS
  {
    (s * MULTIPLIER + INCREMENT) % MODULUS
  }

  /** The value a draw returns for the state it has just produced. */
  function ToUnit(s: nat): (u: real)
    ensures s < MODULUS ==> 0.0 <= u < 1.0
  {
    s as real / MODULUS as real
  }

  /** The state after `n` steps. */
  function StateAfter(s: nat, n: nat): (r: nat)
    ensures n > 0 ==> r < MODULUS
    ensures n == 0 ==> r == s
  {
    if n == 0 then s else Step(StateAfter(s, n - 1))
  }

  /** The intermediate value of a step is an integer below 2^53, so the
      host's double arithmetic forms it without rounding. */
  lemma StepIsExact(s: nat)
    requires s < MODULUS
    ensures s * MULTIPLIER + INCREMENT < EXACT_LIMIT
  {
  }

  /** Running `m` steps and then `n` more is running `m + n` steps. */
  lemma {:induction false} StateAfterAdd(s: nat, m: nat, n: nat)
    ensures StateAfter(StateAfter(s, m), n) == StateAfter(s, m + n)
  {
    if n > 0 {
      StateAfterAdd(s, m, n - 1);
    }
  }

  /** Seeds that agree modulo 2^32 start the generator in the same state, and
      therefore produce the same sequence of states and draws. */
  lemma CongruentSeedsAgree(a: int, b: int, n: nat)
    requires (a - b) % MODULUS == 0
    ensures ToUint32(a) == ToUint32(b)
    ensures StateAfter(ToUint32(a), n) == StateAfter(ToUint32(b), n)
  {
    var k := (a - b) / MODULUS;
    assert a == b + k * MODULUS;
    ModuloShift(b, k);
  }

  lemma ModuloShift(b: int, k: int)
    ensures (b + k * MODULUS) % MODULUS == b % MODULUS
  {
  }

  /** The generator `prng(seed)` returns: a closure over its state `s`. */
  class Generator {
    var state: nat

    ghost predicate Valid()
      reads this
    {
      state < MODULUS
    }

    constructor (seed: int)
      ensures Valid()
      ensures state == ToUint32(seed)
    {
      state := ToUint32(seed);
    }

    /** One call of the closure: advance the state, return it scaled to [0, 1). */
    method Next() returns (u: real)
      requires Valid()
      modifies this
      ensures Valid()
      ensures state == Step(old(state))
      ensures u == ToUnit(state)
      ensures 0.0 <= u < 1.0
    {
      state := Step(state);
      u := ToUnit(state);
    }
  }

  /** Two generators made from the same seed return the same `n` draws,
      namely the draws of the state sequence from that seed. */
  method SameSeedSameDraws(seed: int, n: nat) returns (us: seq<real>, vs: seq<real>)
    ensures |us| == n && us == vs
    ensures forall k :: 0 <= k < n ==> us[k] == ToUnit(StateAfter(ToUint32(seed), k + 1))
  {
    var g := new Generator(seed);
    var h := new Generator(seed);
    us, vs := [], [];
    var k := 0;
    while k < n
      invariant 0 <= k <= n
      invariant g.Valid() && h.Valid()
      invariant g.state == h.state == StateAfter(ToUint32(seed), k)
      invariant |us| == k && us == vs
      invariant forall j :: 0 <= j < k ==> us[j] == ToUnit(StateAfter(ToUint32(seed), j + 1))
    {
      var u := g.Next();
      var v := h.Next();
      us, vs := us + [u], vs + [v];
      k := k + 1;
    }
  }
}
