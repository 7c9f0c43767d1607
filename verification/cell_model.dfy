/**
  Value-level model of one output cell of the single-layer MNIST classifier.

  A cell holds a binarised copy of the last image (`input`), one weight per
  input position (`weight`) and its normalised output (`output`).  The C
  `double` is modelled by `real`; nothing here depends on rounding.
 */
module CellModel {

  /** The three fields of a cell, as values. */
  datatype CellState = CellState(input: seq<int>, weight: seq<real>, output: real)

  /** Both buffers of the cell have the layer's input count `n`. */
  predicate WellFormed(c: CellState, n: nat) {
    |c.input| == n && |c.weight| == n
  }

  /** Every weight lies in [0,1], as the random initialisation leaves them. */
  predicate UnitWeights(weight: seq<real>) {
    forall j :: 0 <= j < |weight| ==> 0.0 <= weight[j] <= 1.0
  }

  /** A buffer of `n` zeros. */
  function Zeros(n: nat): (z: seq<int>)
    ensures |z| == n && forall j :: 0 <= j < n ==> z[j] == 0
  {
    seq(n, _ => 0)
  }

  /** Binarisation of the image: a non-zero pixel becomes 1, a zero pixel 0. */
  function Binarize(pixel: seq<int>): (bits: seq<int>)
    ensures |bits| == |pixel|
    ensures forall j :: 0 <= j < |pixel| ==>
      (bits[j] == 1 <==> pixel[j] != 0) && (bits[j] == 0 <==> pixel[j] == 0)
  {
    seq(|pixel|, j requires 0 <= j < |pixel| => if pixel[j] != 0 then 1 else 0)
  }

  /** Sum of the weights among the first `k` positions whose input is non-zero. */
  function ActiveSum(input: seq<int>, weight: seq<real>, k: nat): real
    requires k <= |input| && k <= |weight|
  {
    if k == 0 then 0.0
    else ActiveSum(input, weight, k - 1) + (if input[k - 1] != 0 then weight[k - 1] else 0.0)
  }

  /** Number of positions among the first `k` whose input is non-zero. */
  function ActiveCount(input: seq<int>, k: nat): (count: nat)
    requires k <= |input|
    ensures count <= k
  {
    if k == 0 then 0
    else ActiveCount(input, k - 1) + (if input[k - 1] != 0 then 1 else 0)
  }

  /** The cell output: the active weights summed and divided by the input count, so
      that the output times the input count is the active sum. */
  function CellOutput(input: seq<int>, weight: seq<real>): (out: real)
    requires |input| == |weight| > 0
    ensures out * (|weight| as real) == ActiveSum(input, weight, |weight|)
  {
    ActiveSum(input, weight, |weight|) / (|weight| as real)
  }

  /** The compute step of one cell on one image.  It keeps the cell well formed and
      its weights as they are, and stores the 0/1 mask of the image as input. */
  function ComputeCell(c: CellState, pixel: seq<int>): (r: CellState)
    requires |pixel| == |c.weight| > 0
    ensures WellFormed(r, |pixel|) && r.weight == c.weight
    ensures forall j :: 0 <= j < |pixel| ==>
      (r.input[j] == 1 <==> pixel[j] != 0) && (r.input[j] == 0 <==> pixel[j] == 0)
  {
    var bits := Binarize(pixel);
    CellState(bits, c.weight, CellOutput(bits, c.weight))
  }

  /** `weight` with `delta` added at every position whose input is non-zero. */
  function Shifted(weight: seq<real>, input: seq<int>, delta: real): seq<real>
    requires |input| == |weight|
  {
    seq(|weight|, j requires 0 <= j < |weight| => if input[j] != 0 then weight[j] + delta else weight[j])
  }

  /** The error of the cell against its target value: err = target - output. */
  function Error(c: CellState, target: real): real {
    target - c.output
  }

  /** The amount added to each active weight: err * rate. */
  function Increment(c: CellState, target: real, rate: real): real {
    Error(c, target) * rate
  }

  /** The update step of one cell.  It adds the same amount, err * rate, to every
      active weight and leaves every inactive weight, the input and the output alone. */
  function UpdateCell(c: CellState, target: real, rate: real): (u: CellState)
    requires |c.input| == |c.weight|
    ensures u.input == c.input && u.output == c.output && |u.weight| == |c.weight|
    ensures forall j :: 0 <= j < |c.weight| ==>
      if c.input[j] != 0 then u.weight[j] - c.weight[j] == (target - c.output) * rate
      else u.weight[j] == c.weight[j]
  {
    c.(weight := Shifted(c.weight, c.input, Increment(c, target, rate)))
  }

  /** One training iteration of one cell: compute, then update.  The output is the one
      the old weights give on the image, and each weight at a non-zero pixel moves by
      (target - output) * rate while the others stay. */
  function TrainCell(c: CellState, pixel: seq<int>, target: real, rate: real): (r: CellState)
    requires |pixel| == |c.weight| > 0
    ensures WellFormed(r, |pixel|)
    ensures r.output * (|pixel| as real) == ActiveSum(r.input, c.weight, |pixel|)
    ensures forall j :: 0 <= j < |pixel| ==>
      (r.input[j] != 0 <==> pixel[j] != 0) &&
      r.weight[j] == if pixel[j] != 0 then c.weight[j] + (target - r.output) * rate else c.weight[j]
    ensures r.input == Binarize(pixel)
  {
    UpdateCell(ComputeCell(c, pixel), target, rate)
  }

  /** With weights in [0,1] the active sum lies between 0 and the number of active positions. */
  lemma {:induction false} ActiveSumBounds(input: seq<int>, weight: seq<real>, k: nat)
    requires k <= |input| && k <= |weight|
    requires UnitWeights(weight)
    ensures 0.0 <= ActiveSum(input, weight, k) <= ActiveCount(input, k) as real
  {
    if k > 0 {
      ActiveSumBounds(input, weight, k - 1);
    }
  }

  /** "normalize output (0-1)": with weights in [0,1] the computed output lies in [0,1]. */
  lemma OutputInUnitInterval(c: CellState, pixel: seq<int>)
    requires |pixel| == |c.weight| > 0
    requires UnitWeights(c.weight)
    ensures 0.0 <= ComputeCell(c, pixel).output <= 1.0
  {
    var bits, n := Binarize(pixel), |pixel|;
    ActiveSumBounds(bits, c.weight, n);
    UnitQuotient(ActiveSum(bits, c.weight, n), n as real);
  }

  /** A quotient s / n with 0 <= s <= n lies in [0,1]. */
  lemma UnitQuotient(s: real, n: real)
    requires 0.0 <= s <= n && n > 0.0
    ensures 0.0 <= s / n <= 1.0
  {
  }

  /** Computing twice on the same image gives what computing once gives. */
  lemma ComputeIdempotent(c: CellState, pixel: seq<int>)
    requires |pixel| == |c.weight| > 0
    ensures ComputeCell(ComputeCell(c, pixel), pixel) == ComputeCell(c, pixel)
  {
  }

  /** The compute step overwrites input and output: only the weights matter. */
  lemma ComputeDependsOnlyOnWeights(c: CellState, d: CellState, pixel: seq<int>)
    requires |pixel| == |c.weight| > 0
    requires c.weight == d.weight
    ensures ComputeCell(c, pixel) == ComputeCell(d, pixel)
  {
  }

  /** With a positive rate an active weight rises when the target exceeds the output,
      falls when it is below, and stays put when they are equal. */
  lemma LearningDirection(c: CellState, target: real, rate: real, j: int)
    requires |c.input| == |c.weight|
    requires 0 <= j < |c.weight| && c.input[j] != 0
    requires rate > 0.0
    ensures var w := UpdateCell(c, target, rate).weight[j];
      (target > c.output ==> w > c.weight[j]) &&
      (target < c.output ==> w < c.weight[j]) &&
      (target == c.output ==> w == c.weight[j])
  {
    SignOfProduct(Error(c, target), rate);
  }

  /** The product with a positive factor keeps the sign of the other factor. */
  lemma SignOfProduct(e: real, r: real)
    requires r > 0.0
    ensures (e > 0.0 ==> e * r > 0.0) && (e < 0.0 ==> e * r < 0.0) && (e == 0.0 ==> e * r == 0.0)
  {
  }

  /** A zero rate changes nothing: the update is then the identity. */
  lemma ZeroRateUpdateIsIdentity(c: CellState, target: real)
    requires |c.input| == |c.weight|
    ensures UpdateCell(c, target, 0.0) == c
  {
    assert Increment(c, target, 0.0) == 0.0;
    assert Shifted(c.weight, c.input, 0.0) == c.weight;
  }

  /** Shifting every active weight by `delta` raises the active sum by `delta` per active position. */
  lemma {:induction false} ActiveSumShift(input: seq<int>, weight: seq<real>, delta: real, k: nat)
    requires |input| == |weight| && k <= |weight|
    ensures ActiveSum(input, Shifted(weight, input, delta), k)
         == ActiveSum(input, weight, k) + (ActiveCount(input, k) as real) * delta
  {
    if k > 0 {
      ActiveSumShift(input, weight, delta, k - 1);
    }
  }

  /** The share of the `n` input positions that are active. */
  function ActiveShare(input: seq<int>, n: nat): (share: real)
    requires 0 < n <= |input|
    ensures 0.0 <= share <= 1.0
  {
    (ActiveCount(input, n) as real) / (n as real)
  }

  /** Shifting the active weights by `delta` raises the cell output by `delta` times
      the share of active positions. */
  lemma ShiftedOutput(input: seq<int>, weight: seq<real>, delta: real, n: nat)
    requires |input| == |weight| == n > 0
    ensures CellOutput(input, Shifted(weight, input, delta)) == CellOutput(input, weight) + delta * ActiveShare(input, n)
  {
    var shifted := Shifted(weight, input, delta);
    assert |shifted| == n;
    var after, before := CellOutput(input, shifted), CellOutput(input, weight);
    assert after * (n as real) == ActiveSum(input, shifted, n);
    assert before * (n as real) == ActiveSum(input, weight, n);
    ActiveSumShift(input, weight, delta, n);
    assert ActiveSum(input, shifted, n) == ActiveSum(input, weight, n) + (ActiveCount(input, n) as real) * delta;
    assert n as real > 0.0;
    ScaledRelation(after, before, ActiveSum(input, shifted, n),
                   ActiveSum(input, weight, n), ActiveCount(input, n) as real, delta, n as real);
  }

  /** From o' * n == a', o * n == a and a' == a + k * d follows o' == o + d * (k / n). */
  lemma ScaledRelation(o': real, o: real, a': real, a: real, k: real, d: real, n: real)
    requires n > 0.0 && o' * n == a' && o * n == a && a' == a + k * d
    ensures o' == o + d * (k / n)
  {
    assert o' * n == (o + d * (k / n)) * n;
  }

  /** Training a cell on an image and computing it again on that image moves the output
      by the increment times the share of active positions. */
  lemma RetrainedOutput(c: CellState, pixel: seq<int>, target: real, rate: real)
    requires |pixel| == |c.weight| > 0
    ensures
      var before := ComputeCell(c, pixel);
      var after := ComputeCell(UpdateCell(before, target, rate), pixel);
      after.output == before.output + Increment(before, target, rate) * ActiveShare(before.input, |pixel|)
  {
    var before := ComputeCell(c, pixel);
    ShiftedOutput(before.input, c.weight, Increment(before, target, rate), |pixel|);
  }

  /** With r in (0,1] and s in [0,1] the factor 1 - r * s lies in [0,1]. */
  lemma ShrinkFactor(r: real, s: real)
    requires 0.0 < r <= 1.0 && 0.0 <= s <= 1.0
    ensures 0.0 <= 1.0 - r * s <= 1.0
  {
    assert 0.0 <= r * s;
    assert r * (1.0 - s) >= 0.0;
    assert r * s <= r;
  }

  /** (t - (o + e * r * s)) == (t - o) * (1 - r * s) when e == t - o. */
  lemma RemainingError(t: real, o: real, e: real, r: real, inc: real, s: real)
    requires e == t - o && inc == e * r
    ensures t - (o + inc * s) == e * (1.0 - r * s)
  {
  }

  /** For a rate in (0,1], retraining on the same image and computing again multiplies
      the error by a factor in [0,1]: the output moves toward the target and never
      overshoots it. */
  lemma RetrainMovesTowardTarget(c: CellState, pixel: seq<int>, target: real, rate: real)
    requires |pixel| == |c.weight| > 0
    requires 0.0 < rate <= 1.0
    ensures
      var before := ComputeCell(c, pixel);
      var after := ComputeCell(UpdateCell(before, target, rate), pixel);
      var factor := 1.0 - rate * ActiveShare(before.input, |pixel|);
      0.0 <= factor <= 1.0 && Error(after, target) == Error(before, target) * factor
  {
    var before := ComputeCell(c, pixel);
    RetrainedOutput(c, pixel, target, rate);
    ShrinkFactor(rate, ActiveShare(before.input, |pixel|));
    RemainingError(target, before.output, Error(before, target), rate, Increment(before, target, rate), ActiveShare(before.input, |pixel|));
  }
}
