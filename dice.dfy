/** The smoothed Dice score between two masks of the same shape. */
module DiceScore {

  /** An H×W mask, row by row: probabilities in [0,1] or binary values {0,1}. */
  type Mask = seq<seq<real>>

  /** Both masks have the same number of rows and each row the same width. */
  predicate SameShape(a: Mask, b: Mask) {
    |a| == |b| && forall i :: 0 <= i < |a| ==> |a[i]| == |b[i]|
  }

  /** Every pixel lies in [0,1]. */
  predicate InUnit(m: Mask) {
    forall i, j :: 0 <= i < |m| && 0 <= j < |m[i]| ==> 0.0 <= m[i][j] <= 1.0
  }

  /** Every pixel is 0 or 1. */
  predicate IsBinary(m: Mask) {
    forall i, j :: 0 <= i < |m| && 0 <= j < |m[i]| ==> m[i][j] == 0.0 || m[i][j] == 1.0
  }

  /** Every pixel is 0. */
  predicate IsZero(m: Mask) {
    forall i, j :: 0 <= i < |m| && 0 <= j < |m[i]| ==> m[i][j] == 0.0
  }

  /** No pixel is 1 in both masks. */
  predicate Disjoint(a: Mask, b: Mask)
    requires SameShape(a, b)
  {
    forall i, j :: 0 <= i < |a| && 0 <= j < |a[i]| ==> !(a[i][j] == 1.0 && b[i][j] == 1.0)
  }

  /** The sum of a row of values. */
  function Total(xs: seq<real>): real {
    if xs == [] then 0.0 else xs[0] + Total(xs[1..])
  }

  /** `np.sum(m)`: the sum over all pixels. */
  function Sum(m: Mask): real {
    if m == [] then 0.0 else Total(m[0]) + Sum(m[1..])
  }

  /** The sum of the pixel-wise products of two rows. */
  function RowDot(a: seq<real>, b: seq<real>): real
    requires |a| == |b|
  {
    if a == [] then 0.0 else a[0] * b[0] + RowDot(a[1..], b[1..])
  }

  /** `np.sum(pred * gt)`: the sum of the pixel-wise products. */
  function Overlap(a: Mask, b: Mask): real
    requires SameShape(a, b)
  {
    if a == [] then 0.0 else RowDot(a[0], b[0]) + Overlap(a[1..], b[1..])
  }

  /**
   * `dice_coefficient(pred, gt)`: (2·Σ(pred·gt) + 1) / (Σpred + Σgt + 1).
   * For masks in [0,1] the denominator is at least 1 and the score lies in (0,1].
   */
  function DiceCoefficient(pred: Mask, gt: Mask): (d: real)
    requires SameShape(pred, gt) && InUnit(pred) && InUnit(gt)
    ensures 0.0 < d <= 1.0
  {
    OverlapBound(pred, gt);
    RatioInUnit(2.0 * Overlap(pred, gt) + 1.0, Sum(pred) + Sum(gt) + 1.0);
    (2.0 * Overlap(pred, gt) + 1.0) / (Sum(pred) + Sum(gt) + 1.0)
  }

  lemma RatioInUnit(x: real, y: real)
    requires 0.0 < x <= y
    ensures 0.0 < x / y <= 1.0
  {
  }

  /** For p, g in [0,1]: 0 <= p·g and 2·p·g <= p + g. */
  lemma PixelBound(p: real, g: real)
    requires 0.0 <= p <= 1.0 && 0.0 <= g <= 1.0
    ensures 0.0 <= p * g && 2.0 * (p * g) <= p + g
  {
    MulNonnegative(p, g);
    MulNonnegative(p, 1.0 - g);
    MulNonnegative(g, 1.0 - p);
    assert p * (1.0 - g) == p - p * g;
    assert g * (1.0 - p) == g - p * g;
  }

  lemma MulNonnegative(x: real, y: real)
    requires 0.0 <= x && 0.0 <= y
    ensures 0.0 <= x * y
  {
  }

  lemma {:induction false} RowDotBound(a: seq<real>, b: seq<real>)
    requires |a| == |b|
    requires forall j :: 0 <= j < |a| ==> 0.0 <= a[j] <= 1.0
    requires forall j :: 0 <= j < |b| ==> 0.0 <= b[j] <= 1.0
    ensures 0.0 <= RowDot(a, b) && 2.0 * RowDot(a, b) <= Total(a) + Total(b)
  {
    if a != [] {
      PixelBound(a[0], b[0]);
      RowDotBound(a[1..], b[1..]);
    }
  }

  /** For masks in [0,1], the overlap is nonnegative and twice it is at most Σa + Σb. */
  lemma {:induction false} OverlapBound(a: Mask, b: Mask)
    requires SameShape(a, b) && InUnit(a) && InUnit(b)
    ensures 0.0 <= Overlap(a, b) && 2.0 * Overlap(a, b) <= Sum(a) + Sum(b)
  {
    if a != [] {
      RowDotBound(a[0], b[0]);
      OverlapBound(a[1..], b[1..]);
    }
  }

  lemma {:induction false} RowDotSymmetric(a: seq<real>, b: seq<real>)
    requires |a| == |b|
    ensures RowDot(a, b) == RowDot(b, a)
  {
    if a != [] {
      RowDotSymmetric(a[1..], b[1..]);
    }
  }

  lemma {:induction false} OverlapSymmetric(a: Mask, b: Mask)
    requires SameShape(a, b)
    ensures SameShape(b, a) && Overlap(a, b) == Overlap(b, a)
  {
    if a != [] {
      RowDotSymmetric(a[0], b[0]);
      OverlapSymmetric(a[1..], b[1..]);
    }
  }

  /** The score does not depend on which mask is the prediction. */
  lemma DiceSymmetric(a: Mask, b: Mask)
    requires SameShape(a, b) && InUnit(a) && InUnit(b)
    ensures SameShape(b, a) && DiceCoefficient(a, b) == DiceCoefficient(b, a)
  {
    OverlapSymmetric(a, b);
  }

  /**
   * For binary rows, Σa + Σb - 2·Σ(a·b) counts the pixels where they differ:
   * it is nonnegative, and zero exactly when the rows are equal.
   */
  lemma {:induction false} RowMismatch(a: seq<real>, b: seq<real>)
    requires |a| == |b|
    requires forall j :: 0 <= j < |a| ==> a[j] == 0.0 || a[j] == 1.0
    requires forall j :: 0 <= j < |b| ==> b[j] == 0.0 || b[j] == 1.0
    ensures Total(a) + Total(b) - 2.0 * RowDot(a, b) >= 0.0
    ensures Total(a) + Total(b) - 2.0 * RowDot(a, b) == 0.0 <==> a == b
  {
    if a != [] {
      RowMismatch(a[1..], b[1..]);
      assert a == [a[0]] + a[1..] && b == [b[0]] + b[1..];
    }
  }

  lemma {:induction false} Mismatch(a: Mask, b: Mask)
    requires SameShape(a, b) && IsBinary(a) && IsBinary(b)
    ensures Sum(a) + Sum(b) - 2.0 * Overlap(a, b) >= 0.0
    ensures Sum(a) + Sum(b) - 2.0 * Overlap(a, b) == 0.0 <==> a == b
  {
    if a != [] {
      RowMismatch(a[0], b[0]);
      Mismatch(a[1..], b[1..]);
      assert a == [a[0]] + a[1..] && b == [b[0]] + b[1..];
    }
  }

  /** Two binary masks score exactly 1 if and only if they are equal. */
  lemma DiceOneIffEqual(a: Mask, b: Mask)
    requires SameShape(a, b) && IsBinary(a) && IsBinary(b)
    ensures InUnit(a) && InUnit(b)
    ensures DiceCoefficient(a, b) == 1.0 <==> a == b
  {
    Mismatch(a, b);
    OverlapBound(a, b);
    var x, y := 2.0 * Overlap(a, b) + 1.0, Sum(a) + Sum(b) + 1.0;
    assert y > 0.0;
    if x / y == 1.0 {
      assert x == (x / y) * y;
    }
  }

  /** A binary mask compared with itself scores exactly 1. */
  lemma DiceSelf(m: Mask)
    requires IsBinary(m)
    ensures InUnit(m) && DiceCoefficient(m, m) == 1.0
  {
    DiceOneIffEqual(m, m);
  }

  /** Two all-zero masks of the same shape score exactly 1: the smoothing term alone. */
  lemma DiceEmpty(a: Mask, b: Mask)
    requires SameShape(a, b) && IsZero(a) && IsZero(b)
    ensures InUnit(a) && InUnit(b) && DiceCoefficient(a, b) == 1.0
  {
    forall i | 0 <= i < |a|
      ensures a[i] == b[i]
    {
      assert forall j :: 0 <= j < |a[i]| ==> a[i][j] == b[i][j];
    }
    DiceOneIffEqual(a, b);
  }

  /**
   * Binary masks with no common 1 and at least one 1 between them (at row i,
   * column j) score strictly below 1.
   */
  lemma DiceDisjoint(a: Mask, b: Mask, i: nat, j: nat)
    requires SameShape(a, b) && IsBinary(a) && IsBinary(b) && Disjoint(a, b)
    requires i < |a| && j < |a[i]| && (a[i][j] == 1.0 || b[i][j] == 1.0)
    ensures InUnit(a) && InUnit(b)
    ensures 0.0 < DiceCoefficient(a, b) < 1.0
  {
    assert a[i][j] != b[i][j];
    DiceOneIffEqual(a, b);
  }
}
