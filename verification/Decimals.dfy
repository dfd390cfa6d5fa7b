/** Exact decimal arithmetic with the two operations that round: a quotient and an explicit
    Round, both to sixteen places, half away from zero. */
module Decimals {

  const SCALE := 10_000_000_000_000_000.0
  const UNIT := 0.0000000000000001

  function Abs(x: real): real {
    if x < 0.0 then -x else x
  }

  /** The value to sixteen places, half away from zero. */
  function Round16(x: real): (r: real)
    ensures Abs(r - x) <= UNIT / 2.0
    ensures OnGrid(r)
  {
    if x >= 0.0 then RoundUp(x) else
      (assert OnGrid(RoundUp(-x)); NegationOnGrid(RoundUp(-x)); -RoundUp(-x))
  }

  function RoundUp(x: real): (r: real)
    ensures Abs(r - x) <= UNIT / 2.0
    ensures OnGrid(r)
  {
    var n := (x * SCALE + 0.5).Floor;
    assert (n as real / SCALE) * SCALE == n as real;
    n as real / SCALE
  }

  /** The decimals of at most sixteen places. */
  predicate OnGrid(x: real) {
    (x * SCALE).Floor as real == x * SCALE
  }

  lemma NegationOnGrid(x: real)
    requires OnGrid(x)
    ensures OnGrid(-x)
  {
    var n := (x * SCALE).Floor;
    assert -x * SCALE == (-n) as real;
  }

  /** Rounding leaves a value of at most sixteen places alone. */
  lemma RoundKeepsGrid(x: real)
    requires OnGrid(x)
    ensures Round16(x) == x
  {
    var n := (x * SCALE).Floor;
    if x >= 0.0 {
      assert (n as real + 0.5).Floor == n;
    } else {
      assert ((-n) as real + 0.5).Floor == -n;
      assert -x * SCALE + 0.5 == (-n) as real + 0.5;
    }
  }

  lemma RoundMonotone(x: real, y: real)
    requires x <= y
    ensures Round16(x) <= Round16(y)
  {
    if x >= 0.0 {
      FloorMonotone(x * SCALE + 0.5, y * SCALE + 0.5);
    } else if y < 0.0 {
      FloorMonotone(-y * SCALE + 0.5, -x * SCALE + 0.5);
    } else {
      FloorMonotone(0.5, -x * SCALE + 0.5);
      FloorMonotone(0.5, y * SCALE + 0.5);
      assert (0.5).Floor == 0;
    }
  }

  lemma FloorMonotone(x: real, y: real)
    requires x <= y
    ensures x.Floor <= y.Floor
  {
  }

  function Times(x: real, y: real): real {
    x * y
  }

  lemma TimesMinus(x: real, y: real, z: real)
    ensures Times(x, y - z) == Times(x, y) - Times(x, z)
    ensures Times(y - z, x) == Times(y, x) - Times(z, x)
  {
  }

  /** A factor has its product's sign when the other is positive. */
  lemma SignOfFactor(x: real, y: real)
    requires y > 0.0 && Times(x, y) >= 0.0
    ensures x >= 0.0
  {
  }

  lemma NonNegativeProduct(x: real, y: real)
    requires x >= 0.0 && y >= 0.0
    ensures Times(x, y) >= 0.0
  {
  }

  /** A quotient lies where its dividend does. */
  lemma QuotientBetween(low: real, x: real, high: real, y: real)
    requires y > 0.0
    ensures Times(low, y) <= x ==> low <= x / y
    ensures x <= Times(high, y) ==> x / y <= high
  {
    var q := x / y;
    assert Times(q, y) == x;
    TimesMinus(y, q, low);
    TimesMinus(y, high, q);
    if Times(low, y) <= x {
      SignOfFactor(q - low, y);
    }
    if x <= Times(high, y) {
      SignOfFactor(high - q, y);
    }
  }

  function Div(x: real, y: real): real
    requires y != 0.0
  {
    Round16(x / y)
  }

  predicate Whole(x: real) {
    x.Floor as real == x
  }

  function Sum(xs: seq<real>): real {
    if xs == [] then 0.0 else Sum(xs[..|xs| - 1]) + xs[|xs| - 1]
  }

  lemma SumSnoc(xs: seq<real>, x: real)
    ensures Sum(xs + [x]) == Sum(xs) + x
  {
    assert (xs + [x])[..|xs|] == xs;
  }

  lemma {:induction false} SumPrefix(xs: seq<real>, i: nat)
    requires i <= |xs| && forall k :: 0 <= k < |xs| ==> xs[k] > 0.0
    ensures Sum(xs[..i]) <= Sum(xs)
    ensures i < |xs| ==> Sum(xs[..i]) < Sum(xs)
    ensures i > 0 ==> Sum(xs[..i]) > 0.0
  {
    if i < |xs| {
      SumPrefix(xs[..|xs| - 1], i);
      assert xs[..|xs| - 1][..i] == xs[..i];
    } else if xs != [] {
      assert xs[..i] == xs;
      SumPrefix(xs[..i - 1], i - 1);
      assert xs[..i - 1][..i - 1] == xs[..i - 1];
      if i == 1 {
        assert xs[..0] == [];
      }
    } else {
      assert xs[..i] == xs;
    }
  }

  /** Taking one more of a sequence of positive parts. */
  lemma NextPart(xs: seq<real>, i: nat)
    requires i < |xs| && forall k :: 0 <= k < |xs| ==> xs[k] > 0.0
    ensures Sum(xs[..i + 1]) == Sum(xs[..i]) + xs[i]
    ensures 0.0 < Sum(xs[..i + 1])
    ensures if i + 1 == |xs| then Sum(xs[..i + 1]) == Sum(xs) else Sum(xs[..i + 1]) < Sum(xs)
  {
    assert xs[..i + 1] == xs[..i] + [xs[i]];
    SumSnoc(xs[..i], xs[i]);
    SumPrefix(xs, i + 1);
    if i + 1 == |xs| {
      assert xs[..i + 1] == xs;
    }
  }
}
