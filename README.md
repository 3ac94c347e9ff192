# Dice metric of the segmentation evaluator, in Dafny

This project models the metric pipeline of `segtrain/eval_model.py`, which
scores a segmentation network against ground truth. It has three layers:

- **Score function** (`dice_coefficient`, module `DiceScore` in `dice.dfy`).
  It computes the smoothed Dice score `(2·Σ(pred·gt) + 1) / (Σpred + Σgt + 1)`
  of two masks of the same shape. Masks are `seq<seq<real>>`, row by row.
- **Batch scorer** (`dice_coefficient_batch`, module `BatchScorer` in
  `batch.dfy`). It thresholds each predicted mask with an inclusive `>=` test,
  0.5 by default, and scores it against its label. A `for` loop appends one
  score per sample, in sample order.
- **Multi-class evaluator** (`compute_dice_metric`, module
  `MultiClassEvaluator` in `evaluator.dfy`). It chooses the classes: the
  caller's list in the caller's order, or `0..C-1` when none is given. It runs
  the batch scorer once per class, assembles the N×K score matrix, takes the
  mean of each column, and builds the summary text with one line
  `Class <c> DC=<mean>` per class.

The N×H×W×C prediction and label arrays are a `Tensor`: a shape
`(n, h, w, c)` and an index function. `Text` (`text.dfy`) renders class
indices in decimal the way Python's `str` does for a nonnegative integer. It
also splits a text into lines, which is used to state the line structure of
the summary. `Wrappers` (`wrappers.dfy`) holds the `Option` type that stands
for the `None` default of `eval_class_indices`.

The main properties proved:

- For masks with values in [0,1], the score lies in (0,1], so its denominator
  is never zero.
- The score is symmetric.
- Two binary masks score exactly 1 if and only if they are equal. Two
  consequences follow: a binary mask scores 1 against itself, and two all-zero
  masks score 1.
- Binary masks with no common 1 and a nonempty union score strictly below 1.
- The batch scorer returns one score per sample, in input order.
- Each entry of the score matrix is the score of that sample for the class in
  that column, so the caller's class order is kept.
- Every class mean lies in [0,1].
- The summary splits back into exactly one line per class, in order, and holds
  exactly one newline per class.

## Model

| member | source | states |
|---|---|---|
| `DiceScore.DiceCoefficient` | segtrain/eval_model.py:43-52 | for equal-shaped masks with values in [0,1], the smoothed Dice score lies in (0,1]; the denominator is at least 1, so there is no division by zero |
| `DiceScore.OverlapBound` | segtrain/eval_model.py:50 | for masks in [0,1], Σ(pred·gt) is nonnegative and 2·Σ(pred·gt) ≤ Σpred + Σgt, the inequality behind the bound on the score |
| `DiceScore.DiceSymmetric` | segtrain/eval_model.py:50 | `dice(a, b) == dice(b, a)` |
| `DiceScore.DiceOneIffEqual` | segtrain/eval_model.py:50 | two binary masks of equal shape score exactly 1 if and only if they are equal |
| `DiceScore.DiceSelf` | segtrain/eval_model.py:50 | a binary mask compared with itself scores exactly 1 |
| `DiceScore.DiceEmpty` | segtrain/eval_model.py:50 | two all-zero masks of equal shape score exactly 1, from the smoothing term alone |
| `DiceScore.DiceDisjoint` | segtrain/eval_model.py:50 | binary masks with no common 1 and at least one 1 between them score strictly between 0 and 1 |
| `BatchScorer.Binarize` | segtrain/eval_model.py:59-60 | the thresholded mask has the input's shape and only values 0 and 1; a pixel is 1 exactly when its probability is `>=` the threshold, so a value equal to the threshold becomes 1 and anything below becomes 0 |
| `BatchScorer.ScoreSample` | segtrain/eval_model.py:59-63 | the score of one thresholded sample against its label lies in (0,1] |
| `BatchScorer.DiceCoefficientBatch` | segtrain/eval_model.py:55-66 | returns `pred.shape[0]` scores; element i is the score of sample i thresholded at `eer_thresh` (default 0.5) against label i, and lies in (0,1] |
| `MultiClassEvaluator.ClassSlice` | segtrain/eval_model.py:83 | `t[:,:,:,k]` is N masks of H×W whose pixels are the class-k cells of the tensor |
| `MultiClassEvaluator.ClassIndices` | segtrain/eval_model.py:80-81 | with no class list the classes are exactly `0, 1, …, C-1`; otherwise they are the caller's list unchanged, order included |
| `MultiClassEvaluator.ScoreColumns` | segtrain/eval_model.py:83 | runs the batch scorer once per requested class and returns the per-class columns in the requested order |
| `MultiClassEvaluator.Concatenate` | segtrain/eval_model.py:84-85 | joining the N-long columns gives an N×K matrix whose entry (i, j) is element i of column j, and whose column j is the j-th column given |
| `MultiClassEvaluator.ScoreMatrixEntries` | segtrain/eval_model.py:83-85 | the score matrix has N rows and one column per requested class; entry (i, j) is the score of sample i for class `indices[j]` and lies in (0,1] |
| `MultiClassEvaluator.ColumnMeans` | segtrain/eval_model.py:86 | `np.mean(dices, axis=0)` gives one mean per column, and mean j times N is the sum of column j: the arithmetic mean of that column |
| `MultiClassEvaluator.MeanBounds` | segtrain/eval_model.py:86 | the arithmetic mean of a nonempty sequence lies within any bounds that hold of all its elements |
| `MultiClassEvaluator.ColumnMeansInUnit` | segtrain/eval_model.py:86 | when every score lies in [0,1], every column mean lies in [0,1] |
| `MultiClassEvaluator.RenderSummary` | segtrain/eval_model.py:88-90 | the `res_verbose +=` loop yields the concatenation, in class order, of one line `Class <c> DC=<mean>` plus newline per class |
| `MultiClassEvaluator.SummaryLines` | segtrain/eval_model.py:88-90 | if the float formatter emits no newline, splitting the summary into lines gives exactly the per-class lines, in order, one per requested class |
| `MultiClassEvaluator.SummaryNewlines` | segtrain/eval_model.py:88-90 | if the float formatter emits no newline, the summary holds exactly `len(indices)` newlines |
| `MultiClassEvaluator.ComputeDiceMetric` | segtrain/eval_model.py:71-93 | returns the N×K score matrix, whose entry (i, j) is the score of sample i for the j-th requested class in caller order; the column means, each in [0,1]; and the summary of those classes and means |
| `Text.NatToString` | segtrain/eval_model.py:90 | `str(c)` of a class index is a nonempty string of decimal digits; it starts with `0` only when c is 0, and then it is exactly `"0"` |
| `Text.NatToStringRoundTrip` | segtrain/eval_model.py:90 | reading the decimal rendering of a class index back gives the index |

## Left out

- `evaluate_on`, `evaluate_segmentation_network` (segtrain/eval_model.py:13-39): model loading, draining the data source, `model.predict`, printing and writing the result files are external I/O. `BatchData`, `get_data_source` and `write_text` are not defined in that file and are not part of this model.
- `batch_predict` (segtrain/eval_model.py:97-137): directory creation, `cv2` resizing and writing, the `dataflow` pipeline, `np.argmax` over network outputs and the overlay renderer are external I/O and foreign code.
- The `__main__` block (segtrain/eval_model.py:141-147): a demo on random data.
- Floating point: the model computes with exact reals. IEEE rounding is not modelled, and neither is the `uint8`/`float64` mix of `astype(np.uint8)`, which is exact for the values 0 and 1.
- `str(float)`: the digits Python prints for a mean are not modelled. `ComputeDiceMetric` takes the formatter as its parameter `realToString`, and only the line structure and order of the summary are proved.
- NumPy's shape and index errors: the source checks neither shapes nor class indices itself. Equal shapes of predictions and labels, `0 <= k < C` for every requested class, at least one requested class and at least one sample (`N ≥ 1`) are preconditions. An empty batch makes `np.mean` return NaN, and an empty class list makes `np.concatenate` raise; neither is modelled. Broadcasting between differently shaped arrays is not modelled either. The equal-shape precondition also excludes inputs the source accepts without an error: a label batch longer than the prediction batch (`dice_coefficient_batch` takes `n = pred.shape[0]` at segtrain/eval_model.py:57 and scores only the first n labels) and labels with more class channels than the predictions. `eval_class_indices` is a sequence here. A one-shot iterable would be used up by the comprehension at segtrain/eval_model.py:83, and the `zip` at segtrain/eval_model.py:89 would then produce an empty summary; that behaviour is not modelled.
- DiceScore.DiceCoefficient: requires both masks to lie in [0,1], the range its docstring states. Outside that range the denominator can vanish; the source does not guard against it.
- Immutability of the inputs: the source thresholds into a new array (`astype`), so its inputs are not modified. Here masks and tensors are immutable values, so this holds by construction and is not stated as a separate contract.
- Shape and class-index errors: the code checks neither. A bad shape or index makes NumPy raise or broadcast, so the model states these conditions as preconditions (see above).
