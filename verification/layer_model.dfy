/**
  Value-level model of the layer: the per-image cell loop of training and of
  testing, the passes over a whole image set, the error counter and the
  success rate.

  NUMBER_OF_INPUT_CELLS is `n`, NUMBER_OF_OUTPUT_CELLS is the number of cells,
  LEARNING_RATE is `rate`.  getTargetOutput and getLayerPrediction are the
  function parameters `targetOf` and `predict`; nothing is assumed about them
  beyond the length of the target vector.
 */
module LayerModel {
  import opened CellModel

  /** Every cell of the layer has `n` input and weight positions, and `n` is positive. */
  predicate Shaped(cells: seq<CellState>, n: nat) {
    n > 0 && forall i :: 0 <= i < |cells| ==> WellFormed(cells[i], n)
  }

  /** Every image has exactly `n` pixels. */
  predicate ImagesFit(images: seq<seq<int>>, n: nat) {
    forall k :: 0 <= k < |images| ==> |images[k]| == n
  }

  /** The target vector of every label has one value per cell. */
  predicate TargetsFit(labels: seq<int>, targetOf: int -> seq<real>, m: nat) {
    forall k :: 0 <= k < |labels| ==> |targetOf(labels[k])| == m
  }

  /** The output of every cell, in cell order: what getLayerPrediction looks at. */
  function Outputs(cells: seq<CellState>): (outs: seq<real>)
    ensures |outs| == |cells| && forall i :: 0 <= i < |cells| ==> outs[i] == cells[i].output
  {
    seq(|cells|, i requires 0 <= i < |cells| => cells[i].output)
  }

  /** The weight vector of every cell, in cell order. */
  function Weights(cells: seq<CellState>): seq<seq<real>> {
    seq(|cells|, i requires 0 <= i < |cells| => cells[i].weight)
  }

  /** The cell loop of testing: every cell computes its output on the image.  Every
      cell then holds the same 0/1 mask of the image, keeps its weights, and has as
      output its active sum divided by the input count. */
  function ComputeStep(cells: seq<CellState>, pixel: seq<int>): (next: seq<CellState>)
    requires Shaped(cells, |pixel|)
    ensures Shaped(next, |pixel|) && |next| == |cells|
    ensures forall i :: 0 <= i < |cells| ==>
      next[i].input == Binarize(pixel) && next[i].weight == cells[i].weight &&
      next[i].output * (|pixel| as real) == ActiveSum(Binarize(pixel), cells[i].weight, |pixel|)
  {
    seq(|cells|, i requires 0 <= i < |cells| => ComputeCell(cells[i], pixel))
  }

  /** The cell loop of training: every cell computes its output and then updates its
      weights.  The outputs the prediction then sees are those of the testing cell loop,
      since the update writes weights only, and each cell's active weights move by its
      own error times the rate. */
  function TrainStep(cells: seq<CellState>, pixel: seq<int>, target: seq<real>, rate: real): (next: seq<CellState>)
    requires Shaped(cells, |pixel|) && |target| == |cells|
    ensures Shaped(next, |pixel|) && |next| == |cells|
    ensures Outputs(next) == Outputs(ComputeStep(cells, pixel))
    ensures forall i :: 0 <= i < |cells| ==> next[i].input == Binarize(pixel)
    ensures forall i, j :: 0 <= i < |cells| && 0 <= j < |pixel| ==>
      next[i].weight[j] == if pixel[j] != 0 then cells[i].weight[j] + (target[i] - next[i].output) * rate
                           else cells[i].weight[j]
  {
    seq(|cells|, i requires 0 <= i < |cells| => TrainCell(cells[i], pixel, target[i], rate))
  }

  /** One iteration of the training cell loop, for cell `i` alone. It touches cell `i`
      and no other cell. */
  function StepCell(cells: seq<CellState>, i: nat, pixel: seq<int>, target: seq<real>, rate: real): (next: seq<CellState>)
    requires Shaped(cells, |pixel|) && |target| == |cells| && i < |cells|
    ensures Shaped(next, |pixel|) && |next| == |cells|
    ensures forall k :: 0 <= k < |cells| && k != i ==> next[k] == cells[k]
  {
    cells[i := TrainCell(cells[i], pixel, target[i], rate)]
  }

  /** The iterations of the training cell loop run one after the other in the order `order`. */
  function ApplyInOrder(cells: seq<CellState>, order: seq<nat>, pixel: seq<int>, target: seq<real>, rate: real): (next: seq<CellState>)
    requires Shaped(cells, |pixel|) && |target| == |cells|
    requires forall k :: 0 <= k < |order| ==> order[k] < |cells|
    ensures Shaped(next, |pixel|) && |next| == |cells|
    decreases |order|
  {
    if |order| == 0 then cells
    else ApplyInOrder(StepCell(cells, order[0], pixel, target, rate), order[1..], pixel, target, rate)
  }

  /** No index occurs twice in `order`. */
  predicate Distinct(order: seq<nat>) {
    forall a, b :: 0 <= a < b < |order| ==> order[a] != order[b]
  }

  /** Running the iterations of distinct cells in any order trains exactly the cells
      named in `order` and leaves every other cell as it was. */
  lemma {:induction false} ApplyInOrderAt(cells: seq<CellState>, order: seq<nat>, pixel: seq<int>, target: seq<real>, rate: real, i: nat)
    requires Shaped(cells, |pixel|) && |target| == |cells|
    requires forall k :: 0 <= k < |order| ==> order[k] < |cells|
    requires Distinct(order) && i < |cells|
    ensures ApplyInOrder(cells, order, pixel, target, rate)[i]
         == if i in order then TrainCell(cells[i], pixel, target[i], rate) else cells[i]
    decreases |order|
  {
    if |order| > 0 {
      var first := StepCell(cells, order[0], pixel, target, rate);
      assert forall k :: 0 <= k < |order[1..]| ==> order[1..][k] == order[k + 1];
      ApplyInOrderAt(first, order[1..], pixel, target, rate, i);
      assert i in order <==> i == order[0] || i in order[1..] by {
        if i in order {
          var k :| 0 <= k < |order| && order[k] == i;
          if k > 0 { assert order[1..][k - 1] == i; }
        }
      }
      if i == order[0] {
        forall k | 0 <= k < |order[1..]|
          ensures order[1..][k] != order[0]
        {
          assert order[1..][k] == order[k + 1];
        }
      }
    }
  }

  /** The cells of the layer may be run in any order, for instance in parallel: a loop
      that visits every cell exactly once gives the same layer as the cell loop. */
  lemma CellOrderIrrelevant(cells: seq<CellState>, order: seq<nat>, pixel: seq<int>, target: seq<real>, rate: real)
    requires Shaped(cells, |pixel|) && |target| == |cells|
    requires Distinct(order)
    requires forall k :: 0 <= k < |order| ==> order[k] < |cells|
    requires forall i: nat :: i < |cells| ==> i in order
    ensures ApplyInOrder(cells, order, pixel, target, rate) == TrainStep(cells, pixel, target, rate)
  {
    var next := ApplyInOrder(cells, order, pixel, target, rate);
    forall i | 0 <= i < |cells|
      ensures next[i] == TrainStep(cells, pixel, target, rate)[i]
    {
      ApplyInOrderAt(cells, order, pixel, target, rate, i);
    }
  }

  /** The testing cell loop runs under the same parallel schedule: any order that
      visits every cell exactly once, with no update, gives the testing cell loop. */
  lemma ComputeOrderIrrelevant(cells: seq<CellState>, order: seq<nat>, pixel: seq<int>, target: seq<real>)
    requires Shaped(cells, |pixel|) && |target| == |cells|
    requires Distinct(order)
    requires forall k :: 0 <= k < |order| ==> order[k] < |cells|
    requires forall i: nat :: i < |cells| ==> i in order
    ensures ApplyInOrder(cells, order, pixel, target, 0.0) == ComputeStep(cells, pixel)
  {
    CellOrderIrrelevant(cells, order, pixel, target, 0.0);
    TrainStepAtRateZero(cells, pixel, target);
  }

  /** Training at rate 0 is the cell loop of testing: with no learning the two loops agree. */
  lemma TrainStepAtRateZero(cells: seq<CellState>, pixel: seq<int>, target: seq<real>)
    requires Shaped(cells, |pixel|) && |target| == |cells|
    ensures TrainStep(cells, pixel, target, 0.0) == ComputeStep(cells, pixel)
  {
    forall i | 0 <= i < |cells|
      ensures TrainStep(cells, pixel, target, 0.0)[i] == ComputeStep(cells, pixel)[i]
    {
      ZeroRateUpdateIsIdentity(ComputeCell(cells[i], pixel), target[i]);
    }
  }

  /** The testing cell loop never changes a weight, its result depends on the weights
      alone, and running it twice on the same image is running it once. */
  lemma ComputeStepFacts(cells: seq<CellState>, other: seq<CellState>, pixel: seq<int>)
    requires Shaped(cells, |pixel|) && Shaped(other, |pixel|)
    ensures Weights(ComputeStep(cells, pixel)) == Weights(cells)
    ensures ComputeStep(ComputeStep(cells, pixel), pixel) == ComputeStep(cells, pixel)
    ensures Weights(other) == Weights(cells) ==> ComputeStep(other, pixel) == ComputeStep(cells, pixel)
  {
    if Weights(other) == Weights(cells) {
      forall i | 0 <= i < |cells|
        ensures ComputeStep(other, pixel)[i] == ComputeStep(cells, pixel)[i]
      {
        assert other[i].weight == Weights(other)[i];
      }
    }
  }

  /** With every weight in [0,1] every output of the cell loop lies in [0,1]. */
  lemma ComputeStepOutputsInUnitInterval(cells: seq<CellState>, pixel: seq<int>)
    requires Shaped(cells, |pixel|)
    requires forall i :: 0 <= i < |cells| ==> UnitWeights(cells[i].weight)
    ensures forall i :: 0 <= i < |cells| ==> 0.0 <= Outputs(ComputeStep(cells, pixel))[i] <= 1.0
  {
    forall i | 0 <= i < |cells|
      ensures 0.0 <= Outputs(ComputeStep(cells, pixel))[i] <= 1.0
    {
      OutputInUnitInterval(cells[i], pixel);
    }
  }

  /** The layer as initialised: every cell holds its weight vector, every input and
      output is 0. */
  function InitialCells(weights: seq<seq<real>>, n: nat): (cells: seq<CellState>)
    requires n > 0 && forall i :: 0 <= i < |weights| ==> |weights[i]| == n
    ensures Shaped(cells, n) && Weights(cells) == weights
    ensures forall i :: 0 <= i < |cells| ==> cells[i].input == Zeros(n) && cells[i].output == 0.0
  {
    var cells := seq(|weights|, i requires 0 <= i < |weights| => CellState(Zeros(n), weights[i], 0.0));
    assert forall i :: 0 <= i < |cells| ==> cells[i] == CellState(Zeros(n), weights[i], 0.0);
    cells
  }

  /** The layer and the predictions after a pass over some images. */
  datatype Run = Run(cells: seq<CellState>, predictions: seq<int>)

  /** The training pass over the first `count` images: for each image in turn, the
      training cell loop with the target vector of its label, then a prediction from
      the outputs. */
  function TrainRun(cells: seq<CellState>, n: nat, images: seq<seq<int>>, labels: seq<int>,
                    targetOf: int -> seq<real>, rate: real, predict: seq<real> -> int, count: nat): (run: Run)
    requires Shaped(cells, n) && ImagesFit(images, n)
    requires |labels| == |images| && TargetsFit(labels, targetOf, |cells|) && count <= |images|
    ensures Shaped(run.cells, n) && |run.cells| == |cells| && |run.predictions| == count
    ensures count > 0 ==> run.predictions[count - 1] == predict(Outputs(run.cells))
  {
    if count == 0 then Run(cells, [])
    else
      var prev := TrainRun(cells, n, images, labels, targetOf, rate, predict, count - 1);
      var next := TrainStep(prev.cells, images[count - 1], targetOf(labels[count - 1]), rate);
      Run(next, prev.predictions + [predict(Outputs(next))])
  }

  /** The testing pass over the first `count` images: for each image in turn, the testing
      cell loop, then a prediction from the outputs. */
  function TestRun(cells: seq<CellState>, n: nat, images: seq<seq<int>>, predict: seq<real> -> int, count: nat): (run: Run)
    requires Shaped(cells, n) && ImagesFit(images, n) && count <= |images|
    ensures Shaped(run.cells, n) && |run.cells| == |cells| && |run.predictions| == count
    ensures count > 0 ==> run.predictions[count - 1] == predict(Outputs(run.cells))
  {
    if count == 0 then Run(cells, [])
    else
      var prev := TestRun(cells, n, images, predict, count - 1);
      var next := ComputeStep(prev.cells, images[count - 1]);
      Run(next, prev.predictions + [predict(Outputs(next))])
  }

  /** The error counter: the number of predictions that differ from the label at the
      same position.  It is at most the number of predictions, and zero exactly when
      every prediction matches its label. */
  function Mismatches(predictions: seq<int>, labels: seq<int>): (errors: nat)
    requires |predictions| <= |labels|
    ensures errors <= |predictions|
    ensures errors == 0 <==> forall k :: 0 <= k < |predictions| ==> predictions[k] == labels[k]
  {
    if |predictions| == 0 then 0
    else
      var last := |predictions| - 1;
      var front := Mismatches(predictions[..last], labels);
      assert forall k :: 0 <= k < last ==> predictions[..last][k] == predictions[k];
      front + (if predictions[last] != labels[last] then 1 else 0)
  }

  /** The success rate in percent, 100 - errors / total * 100.  It is the share of
      correct predictions in percent: in [0,100] when the errors are at most the total,
      and 100 exactly when there is no error. */
  function SuccessRate(errors: nat, total: nat): (percent: real)
    requires total > 0
    ensures percent * (total as real) == 100.0 * ((total - errors) as real)
    ensures errors <= total ==> 0.0 <= percent <= 100.0
    ensures percent == 100.0 <==> errors == 0
  {
    100.0 - (errors as real) / (total as real) * 100.0
  }

  /** The error counter after one more prediction grows by one exactly when that
      prediction differs from its label. */
  lemma MismatchesExtend(predictions: seq<int>, labels: seq<int>, predicted: int)
    requires |predictions| < |labels|
    ensures Mismatches(predictions + [predicted], labels)
         == Mismatches(predictions, labels) + (if predicted != labels[|predictions|] then 1 else 0)
  {
    assert (predictions + [predicted])[..|predictions|] == predictions;
  }

  /** "Exactly the same as TrainLayer() but WITHOUT LEARNING": the testing pass is the
      training pass at rate 0, whatever the target vectors. */
  lemma {:induction false} TestIsTrainWithoutLearning(cells: seq<CellState>, n: nat, images: seq<seq<int>>,
                                                      labels: seq<int>, targetOf: int -> seq<real>,
                                                      predict: seq<real> -> int, count: nat)
    requires Shaped(cells, n) && ImagesFit(images, n)
    requires |labels| == |images| && TargetsFit(labels, targetOf, |cells|) && count <= |images|
    ensures TestRun(cells, n, images, predict, count) == TrainRun(cells, n, images, labels, targetOf, 0.0, predict, count)
  {
    if count > 0 {
      TestIsTrainWithoutLearning(cells, n, images, labels, targetOf, predict, count - 1);
      var prev := TestRun(cells, n, images, predict, count - 1);
      TrainStepAtRateZero(prev.cells, images[count - 1], targetOf(labels[count - 1]));
    }
  }

  /** The testing pass leaves every weight as it found it. */
  lemma {:induction false} TestRunKeepsWeights(cells: seq<CellState>, n: nat, images: seq<seq<int>>,
                                               predict: seq<real> -> int, count: nat)
    requires Shaped(cells, n) && ImagesFit(images, n) && count <= |images|
    ensures Weights(TestRun(cells, n, images, predict, count).cells) == Weights(cells)
  {
    if count > 0 {
      TestRunKeepsWeights(cells, n, images, predict, count - 1);
      var prev := TestRun(cells, n, images, predict, count - 1);
      ComputeStepFacts(prev.cells, prev.cells, images[count - 1]);
    }
  }

  /** Every prediction of the testing pass is the one the initial weights give on that
      image alone: the images before it leave no trace. */
  lemma {:induction false} TestPredictionsUseInitialWeights(cells: seq<CellState>, n: nat, images: seq<seq<int>>,
                                                            predict: seq<real> -> int, count: nat, k: nat)
    requires Shaped(cells, n) && ImagesFit(images, n) && k < count <= |images|
    ensures TestRun(cells, n, images, predict, count).predictions[k] == predict(Outputs(ComputeStep(cells, images[k])))
  {
    var prev := TestRun(cells, n, images, predict, count - 1);
    var last := predict(Outputs(ComputeStep(prev.cells, images[count - 1])));
    assert TestRun(cells, n, images, predict, count).predictions == prev.predictions + [last];
    if k < count - 1 {
      TestPredictionsUseInitialWeights(cells, n, images, predict, count - 1, k);
    } else {
      TestRunKeepsWeights(cells, n, images, predict, count - 1);
      ComputeStepFacts(cells, prev.cells, images[count - 1]);
    }
  }

  /** A worked example: four inputs, two cells, image [1,0,1,0], target [0,1], rate 1.
      The outputs are 0.25 and 0.1, and the active weights move to 0.25 and 1.1. */
  lemma WorkedExample()
    ensures var cells := [CellState([0, 0, 0, 0], [0.5, 0.5, 0.5, 0.5], 0.0),
                          CellState([0, 0, 0, 0], [0.2, 0.2, 0.2, 0.2], 0.0)];
      var pixel := [1, 0, 1, 0];
      Outputs(TrainStep(cells, pixel, [0.0, 1.0], 1.0)) == [0.25, 0.1] &&
      Weights(TrainStep(cells, pixel, [0.0, 1.0], 1.0)) == [[0.25, 0.5, 0.25, 0.5], [1.1, 0.2, 1.1, 0.2]]
  {
    var w0, w1 := [0.5, 0.5, 0.5, 0.5], [0.2, 0.2, 0.2, 0.2];
    var cells := [CellState([0, 0, 0, 0], w0, 0.0), CellState([0, 0, 0, 0], w1, 0.0)];
    var pixel := [1, 0, 1, 0];
    var bits := Binarize(pixel);
    assert bits == [1, 0, 1, 0];
    assert ActiveSum(bits, w0, 2) == 0.5;
    assert ActiveSum(bits, w0, 4) == 1.0;
    assert ActiveSum(bits, w1, 2) == 0.2;
    assert ActiveSum(bits, w1, 4) == 0.4;
    var next := TrainStep(cells, pixel, [0.0, 1.0], 1.0);
    assert next[0].output == 0.25 && next[1].output == 0.1;
    assert Outputs(next) == [0.25, 0.1];
    assert next[0].weight == [0.25, 0.5, 0.25, 0.5] by {
      assert forall j :: 0 <= j < 4 ==> next[0].weight[j] == [0.25, 0.5, 0.25, 0.5][j];
    }
    assert next[1].weight == [1.1, 0.2, 1.1, 0.2] by {
      assert forall j :: 0 <= j < 4 ==> next[1].weight[j] == [1.1, 0.2, 1.1, 0.2][j];
    }
  }

  /** The output bound needs weights in [0,1], and training does not keep them there:
      one training step on a cell with unit weights leaves an output above 1 on the next image. */
  lemma TrainingCanPushOutputAboveOne()
    ensures var c := CellState([0, 0], [1.0, 1.0], 0.0);
      UnitWeights(c.weight) &&
      ComputeCell(TrainCell(c, [1, 0], 1.0, 0.05), [1, 1]).output > 1.0
  {
    var c := CellState([0, 0], [1.0, 1.0], 0.0);
    var once := ComputeCell(c, [1, 0]);
    assert once.input == [1, 0];
    assert ActiveSum(once.input, c.weight, 2) == 1.0;
    var trained := TrainCell(c, [1, 0], 1.0, 0.05);
    assert trained.weight == [1.025, 1.0];
    assert ActiveSum([1, 1], trained.weight, 2) == 2.025;
  }
}
