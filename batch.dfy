/** `dice_coefficient_batch`: threshold each predicted mask, then score it against its label. */
module BatchScorer {
  import opened DiceScore

  /** The default `eer_thresh`. */
  const DefaultEerThresh: real := 0.5

  /**
   * `(seg >= eer_thresh).astype(np.uint8)`: a new binary mask of the same shape,
   * 1 exactly where the probability reaches the threshold (inclusive) and 0 below it.
   */
  function Binarize(m: Mask, thresh: real): (r: Mask)
    ensures |r| == |m| && (forall i :: 0 <= i < |m| ==> |r[i]| == |m[i]|)
    ensures IsBinary(r) && InUnit(r)
    ensures forall i, j :: 0 <= i < |m| && 0 <= j < |m[i]| ==> (r[i][j] == 1.0 <==> m[i][j] >= thresh)
  {
    seq(|m|, i requires 0 <= i < |m| =>
      seq(|m[i]|, j requires 0 <= j < |m[i]| => if m[i][j] >= thresh then 1.0 else 0.0))
  }

  /**
   * The score of one sample: its predicted mask thresholded at `thresh`, against
   * its label mask. It lies in (0,1].
   */
  function ScoreSample(pred: Mask, gt: Mask, thresh: real): (d: real)
    requires SameShape(pred, gt) && InUnit(gt)
    ensures 0.0 < d <= 1.0
  {
    DiceCoefficient(Binarize(pred, thresh), gt)
  }

  /**
   * Scores every sample of a batch: element i of the result is the Dice score of
   * the thresholded prediction i against label i, so the order of samples is kept.
   */
  method DiceCoefficientBatch(pred: seq<Mask>, gt: seq<Mask>, eerThresh: real := DefaultEerThresh)
    returns (diceAll: seq<real>)
    requires |pred| == |gt|
    requires forall i :: 0 <= i < |pred| ==> SameShape(pred[i], gt[i]) && InUnit(gt[i])
    ensures |diceAll| == |pred|
    ensures forall i :: 0 <= i < |pred| ==> diceAll[i] == ScoreSample(pred[i], gt[i], eerThresh)
    ensures forall i :: 0 <= i < |pred| ==> 0.0 < diceAll[i] <= 1.0
  {
    diceAll := [];
    var n := |pred|;
    for i := 0 to n
      invariant |diceAll| == i
      invariant forall k :: 0 <= k < i ==> diceAll[k] == ScoreSample(pred[k], gt[k], eerThresh)
    {
      var seg := Binarize(pred[i], eerThresh);
      var gtd := gt[i];
      var d := DiceCoefficient(seg, gtd);
      diceAll := diceAll + [d];
    }
  }
}
