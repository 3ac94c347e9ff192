/**
 * `compute_dice_metric`: per-class Dice scores over a batch of N samples, their
 * column-wise means, and a one-line-per-class text summary.
 */
module MultiClassEvaluator {
  import opened Wrappers
  import opened DiceScore
  import opened BatchScorer
  import opened Text

  /**
   * An N×H×W×C array indexed (sample, row, column, class); only the cells inside
   * the shape are meaningful.
   */
  datatype Tensor = Tensor(n: nat, h: nat, w: nat, c: nat, cell: (nat, nat, nat, nat) -> real)

  predicate SameShape4(a: Tensor, b: Tensor) {
    a.n == b.n && a.h == b.h && a.w == b.w && a.c == b.c
  }

  /** Every cell inside the shape lies in [0,1]. */
  predicate InUnit4(t: Tensor) {
    forall i: nat, y: nat, x: nat, k: nat | i < t.n && y < t.h && x < t.w && k < t.c ::
      0.0 <= t.cell(i, y, x, k) <= 1.0
  }

  /** `t[:, :, :, k]`: the N masks of class k, one H×W mask per sample. */
  function ClassSlice(t: Tensor, k: nat): (masks: seq<Mask>)
    requires k < t.c
    ensures |masks| == t.n
    ensures forall i :: 0 <= i < t.n ==> |masks[i]| == t.h
    ensures forall i, y :: 0 <= i < t.n && 0 <= y < t.h ==> |masks[i][y]| == t.w
    ensures forall i, y, x :: 0 <= i < t.n && 0 <= y < t.h && 0 <= x < t.w ==>
      masks[i][y][x] == t.cell(i, y, x, k)
  {
    seq(t.n, i requires 0 <= i < t.n =>
      seq(t.h, y requires 0 <= y < t.h =>
        seq(t.w, x requires 0 <= x < t.w => t.cell(i, y, x, k))))
  }

  /** The masks of one class of two tensors of the same shape have the same shape sample by sample. */
  lemma SliceShapes(preds: Tensor, labels: Tensor, k: nat)
    requires SameShape4(preds, labels) && InUnit4(labels) && k < preds.c
    ensures forall i :: 0 <= i < preds.n ==>
      SameShape(ClassSlice(preds, k)[i], ClassSlice(labels, k)[i]) && InUnit(ClassSlice(labels, k)[i])
  {
  }

  /**
   * The classes to evaluate: the caller's list, in the caller's order, or
   * `range(C)` when none is given.
   */
  function ClassIndices(evalClassIndices: Option<seq<nat>>, numClasses: nat): (indices: seq<nat>)
    ensures evalClassIndices.None? ==> |indices| == numClasses && forall j :: 0 <= j < numClasses ==> indices[j] == j
    ensures evalClassIndices.Some? ==> indices == evalClassIndices.value
  {
    match evalClassIndices
    case None => seq(numClasses, j requires 0 <= j => j)
    case Some(ks) => ks
  }

  /** At least one class is requested and every requested class exists. */
  predicate ValidIndices(indices: seq<nat>, numClasses: nat) {
    |indices| >= 1 && forall j :: 0 <= j < |indices| ==> indices[j] < numClasses
  }

  /**
   * The score of sample i for class k at the default threshold, as
   * `dice_coefficient_batch(preds[:,:,:,k], labels[:,:,:,k])[i]` computes it.
   */
  function SampleScore(preds: Tensor, labels: Tensor, i: nat, k: nat): (d: real)
    requires SameShape4(preds, labels) && InUnit4(labels)
    requires i < preds.n && k < preds.c
    ensures 0.0 < d <= 1.0
  {
    SliceShapes(preds, labels, k);
    ScoreSample(ClassSlice(preds, k)[i], ClassSlice(labels, k)[i], DefaultEerThresh)
  }

  /** Column j of a matrix given as a sequence of rows. */
  function Column(m: seq<seq<real>>, j: nat): (col: seq<real>)
    requires forall i :: 0 <= i < |m| ==> j < |m[i]|
    ensures |col| == |m|
  {
    seq(|m|, i requires 0 <= i < |m| => m[i][j])
  }

  /**
   * `np.concatenate` of the N×1 columns along axis 1: the N×K matrix whose
   * column j is evals[j].
   */
  function Concatenate(evals: seq<seq<real>>, n: nat): (m: seq<seq<real>>)
    requires forall j :: 0 <= j < |evals| ==> |evals[j]| == n
    ensures |m| == n && forall i :: 0 <= i < n ==> |m[i]| == |evals|
    ensures forall i, j :: 0 <= i < n && 0 <= j < |evals| ==> m[i][j] == evals[j][i]
    ensures forall j :: 0 <= j < |evals| ==> Column(m, j) == evals[j]
  {
    var m := seq(n, i requires 0 <= i < n => seq(|evals|, j requires 0 <= j < |evals| => evals[j][i]));
    assert forall j :: 0 <= j < |evals| ==> Column(m, j) == evals[j] by {
      forall j | 0 <= j < |evals|
        ensures Column(m, j) == evals[j]
      {
        assert forall i :: 0 <= i < n ==> Column(m, j)[i] == evals[j][i];
      }
    }
    m
  }

  /** The arithmetic mean of a nonempty sequence. */
  function Mean(xs: seq<real>): real
    requires |xs| >= 1
  {
    Total(xs) / (|xs| as real)
  }

  lemma {:induction false} TotalBounds(xs: seq<real>, lo: real, hi: real)
    requires forall i :: 0 <= i < |xs| ==> lo <= xs[i] <= hi
    ensures lo * (|xs| as real) <= Total(xs) <= hi * (|xs| as real)
  {
    if xs != [] {
      TotalBounds(xs[1..], lo, hi);
    }
  }

  /** The mean lies within any bounds that hold of every element. */
  lemma MeanBounds(xs: seq<real>, lo: real, hi: real)
    requires |xs| >= 1
    requires forall i :: 0 <= i < |xs| ==> lo <= xs[i] <= hi
    ensures lo <= Mean(xs) <= hi
  {
    TotalBounds(xs, lo, hi);
    var n, q := |xs| as real, Mean(xs);
    assert q * n == Total(xs);
    assert (q - lo) * n == q * n - lo * n;
    assert (hi - q) * n == hi * n - q * n;
    FactorNonnegative(q - lo, n);
    FactorNonnegative(hi - q, n);
  }

  lemma FactorNonnegative(x: real, n: real)
    requires 0.0 < n && 0.0 <= x * n
    ensures 0.0 <= x
  {
  }

  /** `np.mean(dices, axis=0)`: the mean of each of the k columns. */
  function ColumnMeans(m: seq<seq<real>>, k: nat): (means: seq<real>)
    requires |m| >= 1 && forall i :: 0 <= i < |m| ==> |m[i]| == k
    ensures |means| == k
    ensures forall j :: 0 <= j < k ==> means[j] * (|m| as real) == Total(Column(m, j))
  {
    seq(k, j requires 0 <= j < k => Mean(Column(m, j)))
  }

  /** When every score lies in [0,1], so does every column mean. */
  lemma ColumnMeansInUnit(m: seq<seq<real>>, k: nat)
    requires |m| >= 1 && forall i :: 0 <= i < |m| ==> |m[i]| == k
    requires forall i, j :: 0 <= i < |m| && 0 <= j < k ==> 0.0 <= m[i][j] <= 1.0
    ensures forall j :: 0 <= j < k ==> 0.0 <= ColumnMeans(m, k)[j] <= 1.0
  {
    forall j | 0 <= j < k
      ensures 0.0 <= ColumnMeans(m, k)[j] <= 1.0
    {
      MeanBounds(Column(m, j), 0.0, 1.0);
    }
  }

  /** One summary line without its newline: `Class <c> DC=<mean>`. */
  function LineText(c: nat, mean: real, realToString: real -> string): string {
    "Class " + NatToString(c) + " DC=" + realToString(mean)
  }

  /** The summary text: one newline-terminated line per class, in the given order. */
  function Summary(indices: seq<nat>, means: seq<real>, realToString: real -> string): string
    requires |indices| == |means|
  {
    if indices == [] then ""
    else LineText(indices[0], means[0], realToString) + "\n" + Summary(indices[1..], means[1..], realToString)
  }

  /** Appending one class to the summary appends its line at the end. */
  lemma {:induction false} SummaryAppend(indices: seq<nat>, means: seq<real>, c: nat, mean: real, realToString: real -> string)
    requires |indices| == |means|
    ensures Summary(indices + [c], means + [mean], realToString)
         == Summary(indices, means, realToString) + (LineText(c, mean, realToString) + "\n")
  {
    if indices == [] {
      assert indices + [c] == [c] && means + [mean] == [mean];
    } else {
      assert (indices + [c])[1..] == indices[1..] + [c];
      assert (means + [mean])[1..] == means[1..] + [mean];
      SummaryAppend(indices[1..], means[1..], c, mean, realToString);
    }
  }

  lemma LineTextHasNoNewline(c: nat, mean: real, realToString: real -> string)
    requires '\n' !in realToString(mean)
    ensures '\n' !in LineText(c, mean, realToString)
  {
  }

  /**
   * When the number formatter never produces a newline, splitting the summary
   * into lines gives back exactly one line per class, in order.
   */
  lemma {:induction false} SummaryLines(indices: seq<nat>, means: seq<real>, realToString: real -> string)
    requires |indices| == |means|
    requires forall x :: '\n' !in realToString(x)
    ensures SplitLines(Summary(indices, means, realToString))
         == seq(|indices|, j requires 0 <= j < |indices| => LineText(indices[j], means[j], realToString))
  {
    if indices != [] {
      LineTextHasNoNewline(indices[0], means[0], realToString);
      SplitFirstLine(LineText(indices[0], means[0], realToString), Summary(indices[1..], means[1..], realToString));
      SummaryLines(indices[1..], means[1..], realToString);
    }
  }

  /** When the formatter never produces a newline, the summary holds exactly one newline per class. */
  lemma {:induction false} SummaryNewlines(indices: seq<nat>, means: seq<real>, realToString: real -> string)
    requires |indices| == |means|
    requires forall x :: '\n' !in realToString(x)
    ensures Count(Summary(indices, means, realToString), '\n') == |indices|
  {
    if indices != [] {
      var line := LineText(indices[0], means[0], realToString);
      var rest := Summary(indices[1..], means[1..], realToString);
      LineTextHasNoNewline(indices[0], means[0], realToString);
      CountAbsent(line, '\n');
      CountAppend(line, "\n", '\n');
      CountAppend(line + "\n", rest, '\n');
      SummaryNewlines(indices[1..], means[1..], realToString);
    }
  }

  /**
   * The columns the list comprehension of `compute_dice_metric` builds: for each
   * requested class, in the requested order, the scores of all N samples.
   */
  function ClassColumns(preds: Tensor, labels: Tensor, indices: seq<nat>): (evals: seq<seq<real>>)
    requires SameShape4(preds, labels) && InUnit4(labels)
    requires forall j :: 0 <= j < |indices| ==> indices[j] < preds.c
    ensures |evals| == |indices| && forall j :: 0 <= j < |indices| ==> |evals[j]| == preds.n
  {
    seq(|indices|, j requires 0 <= j < |indices| =>
      seq(preds.n, i requires 0 <= i < preds.n => SampleScore(preds, labels, i, indices[j])))
  }

  /** `dices`: the N×K score matrix assembled from the class columns. */
  function ScoreMatrix(preds: Tensor, labels: Tensor, indices: seq<nat>): (m: seq<seq<real>>)
    requires SameShape4(preds, labels) && InUnit4(labels)
    requires forall j :: 0 <= j < |indices| ==> indices[j] < preds.c
  {
    Concatenate(ClassColumns(preds, labels, indices), preds.n)
  }

  /**
   * The score matrix has N rows and one column per requested class; entry (i, j)
   * is the score of sample i for class indices[j], and lies in (0,1].
   */
  lemma ScoreMatrixEntries(preds: Tensor, labels: Tensor, indices: seq<nat>)
    requires SameShape4(preds, labels) && InUnit4(labels)
    requires forall j :: 0 <= j < |indices| ==> indices[j] < preds.c
    ensures |ScoreMatrix(preds, labels, indices)| == preds.n
    ensures forall i :: 0 <= i < preds.n ==> |ScoreMatrix(preds, labels, indices)[i]| == |indices|
    ensures forall i, j :: 0 <= i < preds.n && 0 <= j < |indices| ==>
      ScoreMatrix(preds, labels, indices)[i][j] == SampleScore(preds, labels, i, indices[j])
    ensures forall i, j :: 0 <= i < preds.n && 0 <= j < |indices| ==>
      0.0 < ScoreMatrix(preds, labels, indices)[i][j] <= 1.0
  {
  }

  /**
   * The list comprehension of `compute_dice_metric`: runs the batch scorer once
   * per requested class, in the requested order.
   */
  method ScoreColumns(preds: Tensor, labels: Tensor, indices: seq<nat>) returns (evals: seq<seq<real>>)
    requires SameShape4(preds, labels) && InUnit4(labels)
    requires forall j :: 0 <= j < |indices| ==> indices[j] < preds.c
    ensures evals == ClassColumns(preds, labels, indices)
  {
    ghost var columns := ClassColumns(preds, labels, indices);
    evals := [];
    for j := 0 to |indices|
      invariant evals == columns[..j]
    {
      var k := indices[j];
      SliceShapes(preds, labels, k);
      var column := DiceCoefficientBatch(ClassSlice(preds, k), ClassSlice(labels, k));
      assert column == columns[j] by {
        forall i | 0 <= i < preds.n
          ensures column[i] == columns[j][i]
        {
          assert columns[j][i] == SampleScore(preds, labels, i, k);
        }
      }
      assert columns[..j + 1] == columns[..j] + [columns[j]];
      evals := evals + [column];
    }
    assert columns[..|indices|] == columns;
  }

  /** The `res_verbose +=` loop: appends one line per class, in order. */
  method RenderSummary(indices: seq<nat>, means: seq<real>, realToString: real -> string) returns (resVerbose: string)
    requires |indices| == |means|
    ensures resVerbose == Summary(indices, means, realToString)
  {
    resVerbose := "";
    for j := 0 to |indices|
      invariant resVerbose == Summary(indices[..j], means[..j], realToString)
    {
      var c, ev := indices[j], means[j];
      SummaryAppend(indices[..j], means[..j], c, ev, realToString);
      assert indices[..j + 1] == indices[..j] + [c];
      assert means[..j + 1] == means[..j] + [ev];
      resVerbose := resVerbose + ("Class " + NatToString(c) + " DC=" + realToString(ev) + "\n");
    }
    assert indices[..|indices|] == indices;
    assert means[..|indices|] == means;
  }

  /**
   * `compute_dice_metric(preds, labels, eval_class_indices)`. `realToString`
   * stands for Python's `str` on floats. Returns the per-class means, the N×K
   * score matrix (one column per requested class, in the requested order) and
   * the summary text.
   */
  method ComputeDiceMetric(realToString: real -> string, preds: Tensor, labels: Tensor,
                           evalClassIndices: Option<seq<nat>> := None)
    returns (dicesMean: seq<real>, dices: seq<seq<real>>, resVerbose: string)
    requires SameShape4(preds, labels) && InUnit4(labels)
    requires preds.n >= 1
    requires ValidIndices(ClassIndices(evalClassIndices, preds.c), preds.c)
    ensures dices == ScoreMatrix(preds, labels, ClassIndices(evalClassIndices, preds.c))
    ensures |dices| == preds.n
    ensures forall i :: 0 <= i < preds.n ==> |dices[i]| == |ClassIndices(evalClassIndices, preds.c)|
    ensures forall i, j :: 0 <= i < preds.n && 0 <= j < |ClassIndices(evalClassIndices, preds.c)| ==>
      dices[i][j] == SampleScore(preds, labels, i, ClassIndices(evalClassIndices, preds.c)[j])
    ensures dicesMean == ColumnMeans(dices, |ClassIndices(evalClassIndices, preds.c)|)
    ensures forall j :: 0 <= j < |dicesMean| ==> 0.0 <= dicesMean[j] <= 1.0
    ensures resVerbose == Summary(ClassIndices(evalClassIndices, preds.c), dicesMean, realToString)
  {
    var indices := ClassIndices(evalClassIndices, preds.c);
    var evals := ScoreColumns(preds, labels, indices);
    dices := Concatenate(evals, preds.n);
    ScoreMatrixEntries(preds, labels, indices);
    dicesMean := ColumnMeans(dices, |indices|);
    ColumnMeansInUnit(dices, |indices|);
    resVerbose := RenderSummary(indices, dicesMean, realToString);
  }
}
