/**
  The layer as the C program holds it: an array of cells, each with an `input`
  buffer, a `weight` buffer and an `output`, updated in place by the training
  and testing passes.  Every method is proved against the value-level model of
  CellModel and LayerModel.
 */
module Network {
  import opened CellModel
  import opened LayerModel

  /** One output cell: NUMBER_OF_INPUT_CELLS inputs and weights, and one output. */
  class Cell {
    const input: array<int>
    const weight: array<real>
    var output: real

    /** The cell's fields as a value. */
    ghost function View(): CellState
      reads this, input, weight
    {
      CellState(input[..], weight[..], output)
    }

    /** A cell holding the weights `w`, with every input and the output at 0. */
    constructor (w: seq<real>)
      ensures fresh(input) && fresh(weight) && input.Length == weight.Length == |w|
      ensures View() == CellState(Zeros(|w|), w, 0.0)
    {
      input := new int[|w|](_ => 0);
      weight := new real[|w|](j requires 0 <= j < |w| => w[j]);
      output := 0.0;
    }

    /** The compute step: binarise the image into `input`, sum the weights at active
        positions and divide by the input count. */
    method Compute(pixel: seq<int>)
      requires |pixel| == input.Length == weight.Length > 0
      modifies this, input
      ensures View() == ComputeCell(old(View()), pixel)
    {
      var bits := Binarize(pixel);
      var sum := 0.0;
      var j := 0;
      while j < input.Length
        invariant 0 <= j <= input.Length
        invariant input[..j] == bits[..j]
        invariant sum == ActiveSum(bits, weight[..], j)
      {
        input[j] := if pixel[j] != 0 then 1 else 0;
        if input[j] != 0 {
          sum := sum + weight[j];
        }
        j := j + 1;
      }
      assert input[..] == input[..j];
      output := sum / (input.Length as real);
    }

    /** The update step: every weight whose input is active gains (target - output) * rate. */
    method Update(target: real, rate: real)
      requires input.Length == weight.Length
      modifies weight
      ensures View() == UpdateCell(old(View()), target, rate)
    {
      var temp := (target - output) * rate;
      ghost var shifted := Shifted(weight[..], input[..], temp);
      var j := 0;
      while j < weight.Length
        invariant 0 <= j <= weight.Length
        invariant weight[..j] == shifted[..j]
        invariant forall k :: j <= k < weight.Length ==> weight[k] == old(weight[k])
      {
        if input[j] != 0 {
          weight[j] := weight[j] + temp;
        }
        j := j + 1;
      }
      assert weight[..] == weight[..j];
      assert temp == Increment(old(View()), target, rate);
    }
  }

  /** Replacing element `i` of a sequence that agrees with `after` below `i` and with
      `before` from `i` on by `after[i]` moves the boundary one place. */
  lemma AdvancePrefix<T>(after: seq<T>, before: seq<T>, i: nat)
    requires |after| == |before| && i < |before|
    ensures (after[..i] + before[i..])[i := after[i]] == after[..i + 1] + before[i + 1..]
  {
    var s := (after[..i] + before[i..])[i := after[i]];
    assert forall k :: 0 <= k < |before| ==> s[k] == (after[..i + 1] + before[i + 1..])[k];
  }

  /** At the start of the cell loop nothing is done yet; at its end everything is. */
  lemma PrefixEnds<T>(after: seq<T>, before: seq<T>)
    requires |after| == |before|
    ensures after[..0] + before[0..] == before
    ensures after[..|after|] + before[|before|..] == after
  {
  }

  /** The layer: NUMBER_OF_OUTPUT_CELLS cells over NUMBER_OF_INPUT_CELLS = `n` inputs. */
  class Layer {
    const cell: array<Cell>
    const n: nat
    /** The cells and their buffers: everything the passes may write. */
    ghost const Repr: set<object>

    /** Every cell has `n` inputs and weights, belongs to `Repr` with its buffers, and
        no two cells share a cell object or a buffer. */
    ghost predicate Valid()
      reads this, cell
    {
      n > 0 &&
      (forall i :: 0 <= i < cell.Length ==>
         cell[i].input.Length == n && cell[i].weight.Length == n &&
         cell[i] in Repr && cell[i].input in Repr && cell[i].weight in Repr) &&
      (forall i, j :: 0 <= i < cell.Length && 0 <= j < cell.Length && i != j ==>
         cell[i] != cell[j] && cell[i].input != cell[j].input && cell[i].weight != cell[j].weight)
    }

    /** The cells as values, in cell order. */
    ghost function State(): (cells: seq<CellState>)
      requires Valid()
      reads this, cell, Repr
      ensures |cells| == cell.Length
    {
      seq(cell.Length, i requires 0 <= i < cell.Length && Valid() reads this, cell, Repr => cell[i].View())
    }

    /** A layer whose cells hold the given weight vectors, with every input and
        output at 0, built from objects no one else holds. */
    constructor (weights: seq<seq<real>>, n: nat)
      requires n > 0 && forall i :: 0 <= i < |weights| ==> |weights[i]| == n
      ensures Valid() && this.n == n && fresh(Repr)
      ensures Weights(State()) == weights
      ensures forall i :: 0 <= i < |weights| ==> State()[i] == CellState(Zeros(n), weights[i], 0.0)
    {
      var cs, objects := NewCells(weights, n);
      cell := new Cell[|weights|](k requires 0 <= k < |weights| => cs[k]);
      this.n := n;
      Repr := objects;
      new;
      assert cell[..] == cs;
      assert Valid();
      ghost var cells := State();
      forall k | 0 <= k < |weights|
        ensures cells[k] == CellState(Zeros(n), weights[k], 0.0)
      {
        assert cells[k] == cs[k].View();
      }
    }

    /** Fresh cells, one per weight vector, each with its own buffers. */
    static method NewCells(weights: seq<seq<real>>, n: nat) returns (cs: seq<Cell>, ghost objects: set<object>)
      requires forall i :: 0 <= i < |weights| ==> |weights[i]| == n
      ensures |cs| == |weights| && fresh(objects)
      ensures forall k :: 0 <= k < |cs| ==> fresh(cs[k]) && fresh(cs[k].input) && fresh(cs[k].weight)
      ensures forall k :: 0 <= k < |cs| ==>
        cs[k].input.Length == n && cs[k].View() == CellState(Zeros(n), weights[k], 0.0) &&
        cs[k] in objects && cs[k].input in objects && cs[k].weight in objects
      ensures forall a, b :: 0 <= a < |cs| && 0 <= b < |cs| && a != b ==>
        cs[a] != cs[b] && cs[a].input != cs[b].input && cs[a].weight != cs[b].weight
    {
      cs := [];
      objects := {};
      var i := 0;
      while i < |weights|
        invariant 0 <= i <= |weights| && |cs| == i && fresh(objects)
        invariant forall k :: 0 <= k < i ==> fresh(cs[k]) && fresh(cs[k].input) && fresh(cs[k].weight)
        invariant forall k :: 0 <= k < i ==>
          cs[k].input.Length == n && cs[k].View() == CellState(Zeros(n), weights[k], 0.0) &&
          cs[k] in objects && cs[k].input in objects && cs[k].weight in objects
        invariant forall a, b :: 0 <= a < i && 0 <= b < i && a != b ==>
          cs[a] != cs[b] && cs[a].input != cs[b].input && cs[a].weight != cs[b].weight
      {
        var c := new Cell(weights[i]);
        cs := cs + [c];
        objects := objects + {c, c.input, c.weight};
        i := i + 1;
      }
    }

    /** One iteration of the training cell loop: cell `i` computes its output and
        updates its weights; no other cell changes. */
    method TrainCellAt(i: nat, pixel: seq<int>, target: real, rate: real)
      requires Valid() && i < cell.Length && |pixel| == n
      modifies cell[i], cell[i].input, cell[i].weight
      ensures Valid()
      ensures State() == old(State())[i := TrainCell(old(State())[i], pixel, target, rate)]
    {
      cell[i].Compute(pixel);
      cell[i].Update(target, rate);
      assert forall k :: 0 <= k < cell.Length && k != i ==> State()[k] == old(State())[k];
    }

    /** One iteration of the testing cell loop: cell `i` computes its output; no other
        cell changes. */
    method ComputeCellAt(i: nat, pixel: seq<int>)
      requires Valid() && i < cell.Length && |pixel| == n
      modifies cell[i], cell[i].input
      ensures Valid()
      ensures State() == old(State())[i := ComputeCell(old(State())[i], pixel)]
    {
      cell[i].Compute(pixel);
      assert forall k :: 0 <= k < cell.Length && k != i ==> State()[k] == old(State())[k];
    }

    /** One image of training: every cell computes its output and updates its weights,
        in cell order; then the layer's prediction is taken from the outputs. */
    method TrainOnImage(pixel: seq<int>, target: seq<real>, rate: real, predict: seq<real> -> int)
      returns (predictedNum: int)
      requires Valid() && |pixel| == n && |target| == cell.Length
      modifies Repr
      ensures Valid()
      ensures State() == TrainStep(old(State()), pixel, target, rate)
      ensures predictedNum == predict(Outputs(State()))
    {
      TrainCells(pixel, target, rate);
      var outs := ReadOutputs();
      predictedNum := predict(outs);
    }

    /** The training cell loop over one image, cell by cell in cell order. */
    method TrainCells(pixel: seq<int>, target: seq<real>, rate: real)
      requires Valid() && |pixel| == n && |target| == cell.Length
      modifies Repr
      ensures Valid()
      ensures State() == TrainStep(old(State()), pixel, target, rate)
    {
      ghost var before := State();
      ghost var after := TrainStep(before, pixel, target, rate);
      PrefixEnds(after, before);
      var i := 0;
      while i < cell.Length
        invariant 0 <= i <= cell.Length && Valid()
        invariant State() == after[..i] + before[i..]
      {
        TrainCellAt(i, pixel, target[i], rate);
        AdvancePrefix(after, before, i);
        i := i + 1;
      }
    }

    /** One image of testing: every cell computes its output, and no weight changes;
        then the layer's prediction is taken from the outputs. */
    method TestOnImage(pixel: seq<int>, predict: seq<real> -> int) returns (predictedNum: int)
      requires Valid() && |pixel| == n
      modifies Repr
      ensures Valid()
      ensures State() == ComputeStep(old(State()), pixel)
      ensures predictedNum == predict(Outputs(State()))
    {
      ComputeCells(pixel);
      var outs := ReadOutputs();
      predictedNum := predict(outs);
    }

    /** The testing cell loop over one image, cell by cell in cell order. */
    method ComputeCells(pixel: seq<int>)
      requires Valid() && |pixel| == n
      modifies Repr
      ensures Valid()
      ensures State() == ComputeStep(old(State()), pixel)
    {
      ghost var before := State();
      ghost var after := ComputeStep(before, pixel);
      PrefixEnds(after, before);
      var i := 0;
      while i < cell.Length
        invariant 0 <= i <= cell.Length && Valid()
        invariant State() == after[..i] + before[i..]
      {
        ComputeCellAt(i, pixel);
        AdvancePrefix(after, before, i);
        i := i + 1;
      }
    }

    /** The outputs of all cells, as getLayerPrediction reads them. */
    method ReadOutputs() returns (outs: seq<real>)
      requires Valid()
      ensures outs == Outputs(State())
    {
      outs := [];
      var i := 0;
      while i < cell.Length
        invariant 0 <= i <= cell.Length
        invariant outs == Outputs(State())[..i]
      {
        outs := outs + [cell[i].output];
        i := i + 1;
      }
    }

    /** The training pass over all images: the counter ends at the number of wrong
        predictions of the training run, and the success rate is computed from it. */
    method TrainLayer(images: seq<seq<int>>, labels: seq<int>, targetOf: int -> seq<real>,
                      rate: real, predict: seq<real> -> int)
      returns (errCount: nat, successRate: real)
      requires Valid() && ImagesFit(images, n)
      requires |labels| == |images| > 0 && TargetsFit(labels, targetOf, cell.Length)
      modifies Repr
      ensures Valid()
      ensures var run := TrainRun(old(State()), n, images, labels, targetOf, rate, predict, |images|);
        State() == run.cells && errCount == Mismatches(run.predictions, labels)
      ensures successRate == SuccessRate(errCount, |images|) && 0.0 <= successRate <= 100.0
    {
      ghost var start := State();
      ghost var run := Run(start, []);
      errCount := 0;
      var imgCount := 0;
      while imgCount < |images|
        invariant 0 <= imgCount <= |images| && Valid()
        invariant run == TrainRun(start, n, images, labels, targetOf, rate, predict, imgCount)
        invariant State() == run.cells && errCount == Mismatches(run.predictions, labels)
      {
        var predictedNum := TrainOnImage(images[imgCount], targetOf(labels[imgCount]), rate, predict);
        if predictedNum != labels[imgCount] {
          errCount := errCount + 1;
        }
        MismatchesExtend(run.predictions, labels, predictedNum);
        run := Run(State(), run.predictions + [predictedNum]);
        imgCount := imgCount + 1;
      }
      successRate := 100.0 - (errCount as real) / (|images| as real) * 100.0;
    }

    /** The testing pass over all images: the same cell loop without the update.  The
        weights are left alone and the counter ends at the number of wrong predictions
        of the testing run. */
    method TestLayer(images: seq<seq<int>>, labels: seq<int>, predict: seq<real> -> int)
      returns (errCount: nat, successRate: real)
      requires Valid() && ImagesFit(images, n) && |labels| == |images| > 0
      modifies Repr
      ensures Valid()
      ensures Weights(State()) == Weights(old(State()))
      ensures var run := TestRun(old(State()), n, images, predict, |images|);
        State() == run.cells && errCount == Mismatches(run.predictions, labels)
      ensures successRate == SuccessRate(errCount, |images|) && 0.0 <= successRate <= 100.0
    {
      ghost var start := State();
      ghost var run := Run(start, []);
      errCount := 0;
      var imgCount := 0;
      while imgCount < |images|
        invariant 0 <= imgCount <= |images| && Valid()
        invariant run == TestRun(start, n, images, predict, imgCount)
        invariant State() == run.cells && errCount == Mismatches(run.predictions, labels)
      {
        var predictedNum := TestOnImage(images[imgCount], predict);
        if predictedNum != labels[imgCount] {
          errCount := errCount + 1;
        }
        MismatchesExtend(run.predictions, labels, predictedNum);
        run := Run(State(), run.predictions + [predictedNum]);
        imgCount := imgCount + 1;
      }
      TestRunKeepsWeights(start, n, images, predict, |images|);
      successRate := 100.0 - (errCount as real) / (|images| as real) * 100.0;
    }
  }

  /** The program's sequence of passes: build the layer from the initial weights, run
      the training pass, then the testing pass on the trained layer.  The testing
      counter is that of the testing run started from the weights training left. */
  method TrainThenTest(weights: seq<seq<real>>, n: nat,
                       trainImages: seq<seq<int>>, trainLabels: seq<int>,
                       testImages: seq<seq<int>>, testLabels: seq<int>,
                       targetOf: int -> seq<real>, rate: real, predict: seq<real> -> int)
    returns (trainErrors: nat, trainRate: real, testErrors: nat, testRate: real)
    requires n > 0 && forall i :: 0 <= i < |weights| ==> |weights[i]| == n
    requires ImagesFit(trainImages, n) && |trainLabels| == |trainImages| > 0
    requires TargetsFit(trainLabels, targetOf, |weights|)
    requires ImagesFit(testImages, n) && |testLabels| == |testImages| > 0
    ensures var start := InitialCells(weights, n);
      var trained := TrainRun(start, n, trainImages, trainLabels, targetOf, rate, predict, |trainImages|);
      trainErrors == Mismatches(trained.predictions, trainLabels) &&
      testErrors == Mismatches(TestRun(trained.cells, n, testImages, predict, |testImages|).predictions, testLabels)
    ensures trainRate == SuccessRate(trainErrors, |trainImages|) && testRate == SuccessRate(testErrors, |testImages|)
  {
    var layer := new Layer(weights, n);
    assert layer.State() == InitialCells(weights, n);
    trainErrors, trainRate := layer.TrainLayer(trainImages, trainLabels, targetOf, rate, predict);
    testErrors, testRate := layer.TestLayer(testImages, testLabels, predict);
  }
}
