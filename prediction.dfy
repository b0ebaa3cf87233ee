/** The failure classifier as the dashboard consults it.

    The trained model is foreign: it is represented by its two calls, each of
    which either answers or raises (`None`). The dashboard hands it a table of at
    most one row, the four sensor readings of the last row of the window. */
module Prediction {
  import opened Telemetry

  /** The four columns the classifier is trained on. */
  datatype Features = Features(temperature: real, vibration: real, pressure: real, motorCurrent: real)

  /** A loaded model: `predict` gives the first predicted label and
      `failureProbability` the probability of class 1 for the first row;
      `None` means the call raised. */
  datatype Classifier = Classifier(
    predict: seq<Features> -> Option<int>,
    failureProbability: seq<Features> -> Option<real>)

  /** The classifier's answer, or no answer at all. */
  datatype Verdict = NoVerdict | Verdict(prediction: int, probability: real)

  function FeaturesOf(r: Record): Features
  {
    Features(r.temperature, r.vibration, r.pressure, r.motorCurrent)
  }

  /** The feature table given to the classifier: the features of the last row
      if there is one, and no row otherwise. */
  function LatestFeatures(h: seq<Record>): (x: seq<Features>)
    ensures |x| <= 1
    ensures |x| == 0 <==> |h| == 0
    ensures |h| > 0 ==> x == [FeaturesOf(Last(h))]
  {
    if |h| == 0 then [] else [FeaturesOf(h[|h| - 1])]
  }

  /** The verdict for a table: none without a model or when either call
      raises, and otherwise exactly the model's label and probability. */
  function PredictFailure(model: Option<Classifier>, h: seq<Record>): (v: Verdict)
    ensures model.None? ==> v == NoVerdict
    ensures model.Some? ==>
      var x := LatestFeatures(h);
      v.Verdict? <==> model.value.predict(x).Some? && model.value.failureProbability(x).Some?
    ensures v.Verdict? ==>
      var x := LatestFeatures(h);
      model.Some? && v == Verdict(model.value.predict(x).value, model.value.failureProbability(x).value)
  {
    match model
    case None => NoVerdict
    case Some(m) =>
      var x := LatestFeatures(h);
      match (m.predict(x), m.failureProbability(x))
      case (Some(y), Some(p)) => Verdict(y, p)
      case _ => NoVerdict
  }

  /** Only the last row's four readings matter: tables that end in rows with the
      same readings get the same verdict, whatever else they hold and whatever
      the last row's timestamp, power or flag. */
  lemma VerdictDependsOnlyOnLatestReadings(model: Option<Classifier>, a: seq<Record>, b: seq<Record>)
    requires |a| > 0 && |b| > 0
    requires FeaturesOf(Last(a)) == FeaturesOf(Last(b))
    ensures PredictFailure(model, a) == PredictFailure(model, b)
  {
    assert LatestFeatures(a) == LatestFeatures(b);
  }

  /** The banner shown above the charts. */
  datatype Warning = NoWarning | HighRisk(percent: real) | OperatingNormally(percent: real)

  /** A high-risk banner for label 1, a normal-operation banner for any other
      label, and no banner without a verdict; both show the probability in percent. */
  function WarningFor(v: Verdict): (w: Warning)
    ensures w.NoWarning? <==> v.NoVerdict?
    ensures w.HighRisk? <==> v.Verdict? && v.prediction == 1
    ensures !w.NoWarning? ==> w.percent == v.probability * 100.0
  {
    match v
    case NoVerdict => NoWarning
    case Verdict(y, p) =>
      if y == 1 then HighRisk(p * 100.0) else OperatingNormally(p * 100.0)
  }
}
