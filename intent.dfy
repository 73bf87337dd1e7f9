/**
 * Intent labels of the NLP processor and the confidence fallback of
 * `NLPProcessor.classify_intent`. The statistical classifier itself is not
 * modelled: its outcome for the preprocessed text is an input.
 */
module NlpIntent {

  /** The five labels of the training corpus. */
  datatype TrainedIntent = SelectAll | SelectWithCondition | Count | Aggregate | Join {
    function Label(): (s: string)
      ensures s != UnknownLabel
    {
      match this
      case SelectAll => "select_all"
      case SelectWithCondition => "select_with_condition"
      case Count => "count"
      case Aggregate => "aggregate"
      case Join => "join"
    }
  }

  const UnknownLabel: string := "unknown"

  /** Every label `classify_intent` can return. */
  const IntentLabels: set<string> :=
    {"select_all", "select_with_condition", "count", "aggregate", "join", UnknownLabel}

  /**
   * What the trained pipeline yields for one text: no pipeline loaded, an
   * exception during prediction, or the winning label with its probability.
   */
  datatype Prediction = NoPipeline | PredictionFailed | Predicted(intent: TrainedIntent, confidence: real)

  /** Probabilities at or below this floor are not trusted. */
  const ConfidenceFloor: real := 0.3

  /**
   * `classify_intent`: the predicted label when its probability exceeds the
   * floor, and `unknown` in every other case; never anything outside the
   * six labels.
   */
  function ClassifyIntent(p: Prediction): (result: string)
    ensures result in IntentLabels
    ensures result == UnknownLabel <==> p.NoPipeline? || p.PredictionFailed? || p.confidence <= ConfidenceFloor
    ensures result != UnknownLabel ==> result == p.intent.Label()
  {
    match p
    case NoPipeline => UnknownLabel
    case PredictionFailed => UnknownLabel
    case Predicted(intent, confidence) => if confidence > ConfidenceFloor then intent.Label() else UnknownLabel
  }
}
