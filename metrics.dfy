/** The summary metrics and column reductions computed over the window. */
module Metrics {
  import opened Telemetry
  import opened Prediction

  /** Total energy in watt-hours: every row's power is scaled by 1/3600 and the
      scaled values are summed, i.e. each row counts as one second of draw. The
      result is the power column's total divided by 3600. */
  function Energy(h: seq<Record>): (e: real)
    ensures e * 3600.0 == TotalPower(h)
  {
    if h == [] then 0.0 else h[0].power * (1.0 / 3600.0) + Energy(h[1..])
  }

  /** The plain sum of the power column. */
  function TotalPower(h: seq<Record>): real
  {
    if h == [] then 0.0 else h[0].power + TotalPower(h[1..])
  }

  /** Energy adds up over consecutive parts of the window. */
  lemma {:induction false} EnergyAppend(a: seq<Record>, b: seq<Record>)
    ensures Energy(a + b) == Energy(a) + Energy(b)
  {
    if a == [] {
      assert a + b == b;
    } else {
      assert (a + b)[1..] == a[1..] + b;
      EnergyAppend(a[1..], b);
    }
  }

  /** The energy metric ignores timestamps: three rows drawing 3600 W give 3 Wh
      whether they are one second or one hour apart. */
  lemma EnergyIgnoresSpacing()
    ensures Energy([Record(0, 0.0, 0.0, 0.0, 0.0, 3600.0, 0.0),
                    Record(1, 0.0, 0.0, 0.0, 0.0, 3600.0, 0.0),
                    Record(2, 0.0, 0.0, 0.0, 0.0, 3600.0, 0.0)]) == 3.0
    ensures Energy([Record(0, 0.0, 0.0, 0.0, 0.0, 3600.0, 0.0),
                    Record(3600, 0.0, 0.0, 0.0, 0.0, 3600.0, 0.0),
                    Record(7200, 0.0, 0.0, 0.0, 0.0, 3600.0, 0.0)]) == 3.0
  {
  }

  /** The sum of the advisory failure flags. */
  function FlagSum(h: seq<Record>): real
  {
    if h == [] then 0.0 else h[0].failure + FlagSum(h[1..])
  }

  /** Every flag of the window is 0 or 1. */
  predicate BinaryFlags(h: seq<Record>)
  {
    forall i :: 0 <= i < |h| ==> h[i].failure == 0.0 || h[i].failure == 1.0
  }

  /** With 0/1 flags the sum counts the flagged rows, so it lies in [0, |h|]. */
  lemma {:induction false} FlagSumBounds(h: seq<Record>)
    requires BinaryFlags(h)
    ensures 0.0 <= FlagSum(h) <= |h| as real
  {
    if h != [] {
      FlagSumBounds(h[1..]);
    }
  }

  /** The mean of the failure column over a non-empty window; with 0/1 flags it
      is the fraction of flagged rows, in [0, 1]. */
  function MeanFailure(h: seq<Record>): (m: real)
    requires |h| > 0
    ensures m * |h| as real == FlagSum(h)
    ensures BinaryFlags(h) ==> 0.0 <= m <= 1.0
  {
    var n := |h| as real;
    assert BinaryFlags(h) ==> 0.0 <= FlagSum(h) / n <= 1.0 by {
      if BinaryFlags(h) {
        FlagSumBounds(h);
        FractionBounds(FlagSum(h), n);
      }
    }
    FlagSum(h) / n
  }

  /** A part of a positive whole, divided by the whole, lies in [0, 1]. */
  lemma FractionBounds(part: real, whole: real)
    requires whole > 0.0 && 0.0 <= part <= whole
    ensures 0.0 <= part / whole <= 1.0
  {
    var m := part / whole;
    assert m * whole == part;
  }

  /** The failure-risk metric in percent: the classifier's probability when it
      gave a verdict, and otherwise the mean of the advisory flags. */
  function FailureRisk(v: Verdict, h: seq<Record>): (risk: real)
    requires |h| > 0
    ensures v.Verdict? ==> risk == v.probability * 100.0
    ensures v.NoVerdict? ==> risk * |h| as real == FlagSum(h) * 100.0
  {
    match v
    case Verdict(_, p) => p * 100.0
    case NoVerdict => MeanFailure(h) * 100.0
  }

  /** The failure risk is a percentage: in [0, 100] whenever the probability is
      in [0, 1] or, without a verdict, the flags are 0/1. */
  lemma FailureRiskIsPercentage(v: Verdict, h: seq<Record>)
    requires |h| > 0
    requires v.Verdict? ==> 0.0 <= v.probability <= 1.0
    requires v.NoVerdict? ==> BinaryFlags(h)
    ensures 0.0 <= FailureRisk(v, h) <= 100.0
  {
  }

  /** Flags 0, 0, 1, 0 and no verdict: the failure risk is 25 percent. */
  lemma FallbackScenario()
    ensures FailureRisk(NoVerdict, [Record(0, 0.0, 0.0, 0.0, 0.0, 0.0, 0.0),
                                    Record(1, 0.0, 0.0, 0.0, 0.0, 0.0, 0.0),
                                    Record(2, 0.0, 0.0, 0.0, 0.0, 0.0, 1.0),
                                    Record(3, 0.0, 0.0, 0.0, 0.0, 0.0, 0.0)]) == 25.0
  {
  }

  /** The smallest temperature in a non-empty window. */
  function MinTemperature(h: seq<Record>): (t: real)
    requires |h| > 0
    ensures forall i :: 0 <= i < |h| ==> t <= h[i].temperature
    ensures exists i :: 0 <= i < |h| && h[i].temperature == t
  {
    if |h| == 1 then h[0].temperature
    else
      var rest := MinTemperature(h[1..]);
      assert forall i :: 1 <= i < |h| ==> h[i] == h[1..][i - 1];
      if h[0].temperature <= rest then h[0].temperature else rest
  }

  /** The largest temperature in a non-empty window. */
  function MaxTemperature(h: seq<Record>): (t: real)
    requires |h| > 0
    ensures forall i :: 0 <= i < |h| ==> h[i].temperature <= t
    ensures exists i :: 0 <= i < |h| && h[i].temperature == t
  {
    if |h| == 1 then h[0].temperature
    else
      var rest := MaxTemperature(h[1..]);
      assert forall i :: 1 <= i < |h| ==> h[i] == h[1..][i - 1];
      if h[0].temperature >= rest then h[0].temperature else rest
  }
}
