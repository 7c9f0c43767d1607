# MNIST 1-layer network: the training and testing passes

This project models the core of MNIST-1LNN. It is a single-layer classifier for
handwritten digits: one output cell per digit, no hidden layer, no activation function
and no back-propagation. The core is the per-image step in `trainLayer` and `testLayer`
of `main.c`:

- **Compute step.** Each cell binarises the image into its `input` buffer: a non-zero
  pixel becomes 1, a zero pixel 0. It then sums the weights at the active positions and
  divides the sum by the input count. The result is the cell's `output`.
- **Update step (training only).** Each cell computes `err = target - output` and adds
  `err * LEARNING_RATE` to every weight whose input is active.
- **Prediction and statistics.** After the cell loop, the layer's prediction is taken
  from the outputs. The error counter grows when the prediction differs from the label.
  At the end of a pass the success rate `100 - errCount / total * 100` is computed.

The project has three modules:

- `CellModel` (`cell_model.dfy`) describes one cell as a value: the compute step, the
  update step and their properties. These properties are:
  - binarisation;
  - the output bound;
  - idempotence of the compute step;
  - the update adds the same amount to every active weight;
  - the direction of learning;
  - the remaining error after a retrain.
- `LayerModel` (`layer_model.dfy`) describes the layer as a sequence of cells. It covers:
  - the training and testing cell loops;
  - the independence of the cells from the order in which they are visited;
  - the passes over an image sequence;
  - the error counter and the success rate;
  - the fact that testing is training without learning and never changes a weight.
- `Network` (`network.dfy`) is the program's own imperative form. The classes are
  `Cell` (an `input` array, a `weight` array and an `output` field) and `Layer` (an
  array of cells). Their methods run the same loops as `main.c` and update the arrays
  in place. Each method is proved to produce exactly the state given by the value-level
  functions of the other two modules.

## Model

| member | source | states |
|---|---|---|
| CellModel.Binarize | main.c:86-88 | the input has one entry per pixel; it is 1 exactly when the pixel is non-zero and 0 exactly when it is zero |
| CellModel.CellOutput | main.c:84-92 | the output times the input count equals the sum of the weights at active positions: the sum is normalised by the full input count, not by the number of active positions |
| CellModel.ComputeCell | main.c:84-92 | the compute step leaves the weights as they are and keeps the buffer lengths; the stored input is 1 exactly at the non-zero pixels and 0 elsewhere |
| CellModel.ActiveSumBounds | main.c:84-90 | with every weight in [0,1], the sum over active positions lies between 0 and the number of active positions |
| CellModel.OutputInUnitInterval | main.c:92 | "normalize output (0-1)": with every weight in [0,1], the output lies in [0,1] |
| CellModel.ComputeIdempotent | main.c:170-177 | computing a cell twice on the same image gives the same cell as computing it once |
| CellModel.ComputeDependsOnlyOnWeights | main.c:170-177 | the compute step overwrites input and output, so two cells with the same weights compute the same cell |
| CellModel.UpdateCell | main.c:94-101 | the update adds exactly (target - output) * rate to every weight whose input is active; it leaves every other weight, the input and the output unchanged |
| CellModel.LearningDirection | main.c:94-101 | with a positive rate, an active weight rises when the target exceeds the output, falls when the target is below it, and stays when they are equal |
| CellModel.TrainCell | main.c:84-101 | one training iteration of a cell, in terms of the image: the output is the old weights' active sum divided by the input count; the input is the 0/1 mask of the image; each weight at a non-zero pixel moves by (target - output) * rate; every other weight stays |
| CellModel.ZeroRateUpdateIsIdentity | main.c:94-101 | an update at rate 0 leaves the cell unchanged |
| CellModel.ActiveSumShift | main.c:86-101 | adding delta to every active weight raises the active sum by delta times the number of active positions |
| CellModel.RetrainedOutput | main.c:84-101 | computing again on the same image after the update raises the output by the increment times the share of active positions |
| CellModel.RetrainMovesTowardTarget | main.c:84-101 | with a rate in (0,1], recomputing after the update multiplies the error by a factor in [0,1]: the output moves toward the target and never overshoots it |
| LayerModel.StepCell | main.c:82-103 | one iteration of the training cell loop changes cell i and no other cell |
| LayerModel.ApplyInOrderAt | main.c:81-103 | running the iterations for distinct cells in any order trains exactly the cells visited and leaves every other cell unchanged |
| LayerModel.CellOrderIrrelevant | main.c:81-103 | any order that visits every cell exactly once, e.g. a parallel schedule, gives the same layer as the cell loop |
| LayerModel.ComputeOrderIrrelevant | main.c:168-178 | the testing cell loop runs under the same parallel schedule: any order that visits every cell exactly once, with no update, gives the testing cell loop |
| LayerModel.TrainStepAtRateZero | main.c:82-103 | the training cell loop at rate 0 is the testing cell loop |
| LayerModel.Outputs | main.c:106 | the outputs getLayerPrediction reads: one per cell, in cell order |
| LayerModel.ComputeStep | main.c:169-178 | after the testing cell loop, every cell holds the same 0/1 mask of the image and keeps its weights; its output times the input count is its active sum |
| LayerModel.TrainStep | main.c:82-103 | after the training cell loop, the outputs the prediction sees are those of the testing cell loop, because the update writes weights only; every cell holds the 0/1 mask of the image; each weight at a non-zero pixel moves by that cell's (target - output) * rate, and every other weight stays |
| LayerModel.InitialCells | main.c:219-221 | the initial layer: every cell holds its weight vector, and every input and output is 0 |
| LayerModel.TrainRun | main.c:62-113 | the training pass over the first count images keeps the layer's shape; it makes one prediction per image, and the last one is taken from the outputs of the final layer |
| LayerModel.TestRun | main.c:152-187 | the testing pass over the first count images keeps the layer's shape; it makes one prediction per image, and the last one is taken from the outputs of the final layer |
| LayerModel.ComputeStepFacts | main.c:168-178 | the testing cell loop changes no weight; it is idempotent; layers with equal weights give equal results |
| LayerModel.ComputeStepOutputsInUnitInterval | main.c:168-178 | with every weight in [0,1], every output of the testing cell loop lies in [0,1] |
| LayerModel.Mismatches | main.c:106-107 | the error counter is at most the number of predictions, and it is 0 exactly when every prediction equals its label |
| LayerModel.MismatchesExtend | main.c:106-107 | one more prediction raises the error counter by one exactly when that prediction differs from its label |
| LayerModel.SuccessRate | main.c:118 | the rate times the total equals 100 times the number of correct predictions; it lies in [0,100] when errors do not exceed the total; it is 100 exactly when there is no error |
| LayerModel.TestIsTrainWithoutLearning | main.c:130-187 | "exactly the same as TrainLayer() but WITHOUT LEARNING": for any target vectors, the testing pass equals the training pass at rate 0 |
| LayerModel.TestRunKeepsWeights | main.c:152-187 | after any number of test images, every weight is what it was before the pass |
| LayerModel.TestPredictionsUseInitialWeights | main.c:152-187 | every prediction of the testing pass is the one the initial weights give on that image alone |
| LayerModel.WorkedExample | main.c:82-103 | four inputs, two cells, image [1,0,1,0], target [0,1], rate 1: the outputs are 0.25 and 0.1, and the active weights become 0.25 and 1.1 |
| LayerModel.TrainingCanPushOutputAboveOne | main.c:92-100 | after one training step, a cell that starts with weights in [0,1] can give an output above 1 on the next image |
| Network.Cell.constructor | main.c:219-221 | a new cell has its own fresh buffers, holds the given weights, and has every input and the output at 0 |
| Network.Cell.Compute | main.c:84-92 | after the input loop and the division, the cell is exactly the compute step applied to the old cell |
| Network.Cell.Update | main.c:94-101 | after the weight loop, the cell is exactly the update step applied to the old cell |
| Network.Layer.constructor | main.c:219-221 | the new layer is valid, and built from fresh objects: distinct cells with n inputs each; cell i holds weight vector i, and every input and output is 0 |
| Network.Layer.TrainCellAt | main.c:82-103 | one iteration of the training cell loop: cell i is trained, and every other cell stays as it was |
| Network.Layer.ComputeCellAt | main.c:169-178 | one iteration of the testing cell loop: cell i is computed, and every other cell stays as it was |
| Network.Layer.TrainCells | main.c:80-103 | the whole training cell loop leaves the layer equal to the training step of the old layer |
| Network.Layer.ComputeCells | main.c:167-178 | the whole testing cell loop leaves the layer equal to the testing step of the old layer |
| Network.Layer.ReadOutputs | main.c:106 | the outputs read for the prediction are the cells' outputs in cell order |
| Network.Layer.TrainOnImage | main.c:77-106 | one training image: the layer becomes the training step of the old layer, and the prediction is taken from the new outputs |
| Network.Layer.TestOnImage | main.c:167-180 | one test image: the layer becomes the testing step of the old layer, and the prediction is taken from the new outputs |
| Network.Layer.TrainLayer | main.c:56-118 | after the pass, the layer is the training run over all images; the counter is the number of mismatched predictions; the success rate is computed from the counter and lies in [0,100] |
| Network.Layer.TestLayer | main.c:147-191 | after the pass, the layer is the testing run; no weight has changed; the counter is the number of mismatched predictions; the success rate is computed from the counter and lies in [0,100] |
| Network.TrainThenTest | main.c:220-225 | the program's sequence of passes: initialise the layer, train it, then test the trained layer; the testing counter is that of the testing run started from the weights the training run left |

## Left out

- File reading: `openMNISTImageFile`, `getImage`, `getLabel` and `fclose` are not modelled. The images and labels of a pass are sequences given as parameters. `mnist-utils.h` is not part of this model.
- Timing, printing and the screen helpers are not modelled. These are `time`, `difftime`, `printf` and the display calls. None of these has a result the core uses. Of `main`, only the sequence `initLayer`, `trainLayer`, `testLayer` is modelled, by `Network.TrainThenTest`.
- Concurrency: `#pragma omp parallel for` is not modelled. The cell loop runs in cell order. `LayerModel.CellOrderIrrelevant` and `LayerModel.ComputeOrderIrrelevant` show that, for the training and for the testing cell loop, any order visiting each cell once gives the same layer. Interleaving within a cell is not modelled, and cells share no state.
- Floating point: `double` is modelled as `real`, with no rounding. Sums, the division by the input count and the success rate are therefore exact.
- `initLayer` draws random weights. Its body is not part of this model. `Network.Layer.constructor` takes the initial weights as a parameter and sets every input and output to 0.
- `getTargetOutput` is not part of this model. It is the parameter `targetOf`, and only the length of its vector is assumed.
- `getLayerPrediction` is not part of this model. It is the parameter `predict`, applied to the outputs in cell order. No tie-breaking rule is assumed.
- Constants: `LEARNING_RATE`, `NUMBER_OF_INPUT_CELLS`, `NUMBER_OF_OUTPUT_CELLS` and `MNIST_MAX_TRAINING_IMAGES`/`MNIST_MAX_TESTING_IMAGES` come from headers that are not part of this model. They are the parameters `rate`, `n`, the number of cells and the number of images.
- Image count: `TrainLayer` and `TestLayer` require at least one image. The program always divides by a fixed positive image count.
- Pixels and labels are modelled as `int`. The binarisation only asks whether a pixel is zero.
- `testLayer` computes a target vector that it never uses. That computation is not modelled.
- CellModel.OutputInUnitInterval requires every weight to be in [0,1], as the random initialisation leaves them. Training does not keep weights in that range, so the bound is not an invariant of the training pass. `LayerModel.TrainingCanPushOutputAboveOne` exhibits an input where it fails.
