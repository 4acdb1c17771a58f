/** The scan that keeps the first row of highest score. */
module FirstMaximum {

  /** The index the scan `if score > best_score` ends on, from a best score of 0; -1 for none. */
  function FirstMax(scores: seq<real>): (best: int)
    ensures -1 <= best < |scores|
  {
    if scores == [] then -1
    else
      var n := |scores| - 1;
      var best := FirstMax(scores[..n]);
      if scores[n] > BestScore(scores[..n], best) then n else best
  }

  function BestScore(scores: seq<real>, best: int): real
    requires best < |scores|
  {
    if best < 0 then 0.0 else scores[best]
  }

  lemma {:induction false} FirstMaxIsFirstMaximum(scores: seq<real>)
    ensures var best := FirstMax(scores);
      && (best < 0 ==> forall i :: 0 <= i < |scores| ==> scores[i] <= 0.0)
      && (best >= 0 ==>
        && scores[best] > 0.0
        && (forall i :: 0 <= i < |scores| ==> scores[i] <= scores[best])
        && (forall i :: 0 <= i < best ==> scores[i] < scores[best]))
  {
    if scores != [] {
      FirstMaxIsFirstMaximum(scores[..|scores| - 1]);
    }
  }

  lemma {:induction false} FirstMaxIs(scores: seq<real>, best: nat)
    requires best < |scores| && scores[best] > 0.0
    requires forall i :: 0 <= i < |scores| ==> scores[i] <= scores[best]
    requires forall i :: 0 <= i < best ==> scores[i] < scores[best]
    ensures FirstMax(scores) == best
  {
    FirstMaxIsFirstMaximum(scores);
  }
}
