/** The fill model of internal/fix/fill.go: what is marketable, at what price a slice
    prints, and how an order is cut into the fills it will print. */
module FillModel {
  import opened Decimals

  datatype Side = Buy | Sell

  datatype Book = Book(ts: int, bid: real, ask: real)

  predicate Marketable(side: Side, limitPx: real, b: Book) {
    if side.Buy? then b.ask <= limitPx else b.bid >= limitPx
  }

  function ExecPx(side: Side, limitPx: real, b: Book, slippageBps: real): real {
    var slip := slippageBps / 10000.0;
    if side.Buy? then
      var px := b.ask * (1.0 + slip);
      if px > limitPx then limitPx else px
    else
      var px := b.bid * (1.0 - slip);
      if px < limitPx then limitPx else px
  }

  /** No print is worse than the order's limit, whatever the book and the slippage. */
  predicate Protected(side: Side, limitPx: real, px: real) {
    if side.Buy? then px <= limitPx else px >= limitPx
  }

  lemma PrintsRespectTheLimit(side: Side, limitPx: real, b: Book, slippageBps: real)
    ensures Protected(side, limitPx, ExecPx(side, limitPx, b, slippageBps))
  {
  }

  /** The price is the touch moved against the order by the slippage, in hundredths of a percent,
      or the order's limit when that comes first. */
  predicate Slipped(side: Side, limitPx: real, b: Book, slippageBps: real, px: real) {
    if side.Buy? then
      Times(px - b.ask, 10000.0) == Times(b.ask, slippageBps) ||
      (px == limitPx && Times(px - b.ask, 10000.0) <= Times(b.ask, slippageBps))
    else
      Times(b.bid - px, 10000.0) == Times(b.bid, slippageBps) ||
      (px == limitPx && Times(b.bid - px, 10000.0) <= Times(b.bid, slippageBps))
  }

  lemma PrintsSlip(side: Side, limitPx: real, b: Book, slippageBps: real)
    ensures Slipped(side, limitPx, b, slippageBps, ExecPx(side, limitPx, b, slippageBps))
  {
    var slip := slippageBps / 10000.0;
    assert b.ask * (1.0 + slip) == b.ask + b.ask * slip && b.bid * (1.0 - slip) == b.bid - b.bid * slip;
    TenThousandth(b.ask, slippageBps);
    TenThousandth(b.bid, slippageBps);
  }

  lemma TenThousandth(x: real, bps: real)
    ensures Times(x * (bps / 10000.0), 10000.0) == Times(x, bps)
  {
  }

  /** Slippage is adverse: a print lies between the touch it was priced on and the limit. */
  lemma PrintsBetweenTouchAndLimit(side: Side, limitPx: real, b: Book, slippageBps: real)
    requires Marketable(side, limitPx, b) && slippageBps >= 0.0 && b.bid >= 0.0 && b.ask >= 0.0
    ensures var px := ExecPx(side, limitPx, b, slippageBps);
            if side.Buy? then b.ask <= px <= limitPx else limitPx <= px <= b.bid
  {
    var slip := slippageBps / 10000.0;
    assert b.ask * (1.0 + slip) == b.ask + b.ask * slip && b.bid * (1.0 - slip) == b.bid - b.bid * slip;
    assert b.ask * slip >= 0.0 && b.bid * slip >= 0.0;
  }

  /** All slices but the last are alike, and the last takes the few contracts that would not
      divide: fewer than there are slices. */
  predicate Even(slices: seq<real>) {
    && (forall i :: 0 <= i < |slices| - 1 ==> slices[i] == slices[0] && Whole(slices[i]))
    && (slices != [] ==> 0.0 <= slices[|slices| - 1] - slices[0] < |slices| as real)
  }

  /** Whole contracts, the remainder on the last slice. */
  function SliceSizes(qty: real, threshold: real, n: int): (slices: seq<real>)
    ensures slices != []
  {
    if n <= 1 || qty <= threshold || !Whole(qty) then [qty]
    else
      var q := qty.Floor;
      var k := if n > q then q else n;
      if k <= 1 then [qty]
      else seq(k, i => if i < k - 1 then (q / k) as real else (q - q / k * (k - 1)) as real)
  }

  method CutSlices(qty: real, threshold: real, n: int) returns (out: array<real>)
    ensures out[..] == SliceSizes(qty, threshold, n)
  {
    if n <= 1 || qty <= threshold || !Whole(qty) {
      return new real[] [qty];
    }
    var q := qty.Floor;
    var k := n;
    if k > q {
      k := q;
    }
    if k <= 1 {
      return new real[] [qty];
    }
    var base := q / k;
    out := new real[k];
    for i := 0 to k - 1
      invariant forall j :: 0 <= j < i ==> out[j] == base as real
    {
      out[i] := base as real;
    }
    out[k - 1] := (q - base * (k - 1)) as real;
  }

  lemma {:induction false} SumEqual(xs: seq<real>, x: real)
    requires forall i :: 0 <= i < |xs| ==> xs[i] == x
    ensures Sum(xs) == |xs| as real * x
  {
    if xs != [] {
      SumEqual(xs[..|xs| - 1], x);
    }
  }

  /** The slices are fills of something, they sum to the order exactly, and an order over
      the threshold is cut into as many as was asked for unless it has too few contracts. */
  lemma SlicesSumToTheOrder(qty: real, threshold: real, n: int)
    requires qty > 0.0
    ensures var s := SliceSizes(qty, threshold, n);
            Sum(s) == qty && Even(s) && forall i :: 0 <= i < |s| ==> s[i] > 0.0
    ensures |SliceSizes(qty, threshold, n)| ==
            if Whole(qty) && qty > threshold && n > 1 then (if n > qty.Floor then qty.Floor else n) else 1
  {
    var s := SliceSizes(qty, threshold, n);
    if |s| == 1 {
      assert s[..0] == [];
      assert s == [qty];
    } else {
      var q := qty.Floor;
      var k := if n > q then q else n;
      EvenSlicesSum(q, k, s);
    }
  }

  lemma EvenSlicesSum(q: int, k: int, s: seq<real>)
    requires 1 < k <= q && |s| == k && s[k - 1] == (q - q / k * (k - 1)) as real
    requires forall i :: 0 <= i < k - 1 ==> s[i] == (q / k) as real
    ensures Sum(s) == q as real && Even(s) && forall i :: 0 <= i < k ==> s[i] > 0.0
  {
    SlicesPositive(q, k);
    assert s[0] == (q / k) as real && Whole((q / k) as real);
    SumEqual(s[..k - 1], (q / k) as real);
    MulCast(k - 1, q / k);
  }

  lemma MulCast(a: int, b: int)
    ensures (a as real) * (b as real) == (a * b) as real
  {
  }

  lemma PositiveFactor(a: int, k: int)
    requires k > 0 && a * k > 0
    ensures a >= 1
  {
  }

  lemma SlicesPositive(q: int, k: int)
    requires 1 < k <= q
    ensures q / k >= 1 && 0 <= q - q / k * (k - 1) - q / k < k
  {
    assert q == q / k * k + q % k;
    PositiveFactor(q / k, k);
    assert q / k * k == q / k * (k - 1) + q / k;
  }
}
