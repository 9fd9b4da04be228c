/**
 * The `/predict` handler of app.py end to end: compose the input, hand it to
 * the classifier, map the raw token to a display label and explain it. The
 * classifier is a parameter: it returns the top label token, or the message of
 * the exception it raised.
 */
module Predict {
  import opened Wrappers
  import opened Text
  import opened Labels
  import opened Reasons
  import opened Compose

  datatype Inference = Inferred(token: string) | Raised(message: string)

  /** The reply of a successful prediction (the confidence score is not modelled). */
  datatype Prediction = Prediction(displayLabel: string, reason: string)

  /**
   * A blank description is refused before anything is classified; a classifier
   * failure becomes a status-500 reply; otherwise the reply carries the mapped
   * label and `get_reason` as written applied to the composed input and that label.
   */
  function Predict(req: TransactionRequest, classify: string -> Inference): (r: Result<Prediction, ApiError>)
    ensures r == Failure(DescriptionRequired) <==> AllSpace(req.description.GetOr(""))
    ensures ComposeInput(req).Success? ==>
      var input := ComposeInput(req).value;
      match classify(input)
      case Raised(msg) => r == Failure(ServerError("Model inference failed: " + msg))
      case Inferred(token) => r == Success(Prediction(MapLabel(token), Reason(Some(input), MapLabel(token))))
  {
    match ComposeInput(req)
    case Failure(e) => Failure(e)
    case Success(input) =>
      match classify(input)
      case Raised(msg) => Failure(ServerError("Model inference failed: " + msg))
      case Inferred(token) =>
        var shown := MapLabel(token);
        Success(Prediction(shown, Reason(Some(input), shown)))
  }

  /** The handler with the corrected `get_reason`: the same reply, its reason chosen with the Illegal test first. */
  function IntendedPredict(req: TransactionRequest, classify: string -> Inference): (r: Result<Prediction, ApiError>)
    ensures r.Failure? <==> Predict(req, classify).Failure?
    ensures r.Failure? ==> r == Predict(req, classify)
    ensures r.Success? ==>
      && r.value.displayLabel == Predict(req, classify).value.displayLabel
      && r.value.reason == IntendedReason(Some(ComposeInput(req).value), r.value.displayLabel)
  {
    match Predict(req, classify)
    case Failure(e) => Failure(e)
    case Success(p) => Success(Prediction(p.displayLabel, IntendedReason(Some(ComposeInput(req).value), p.displayLabel)))
  }

  /** A blank description is answered without consulting the classifier. */
  lemma BlankDescriptionSkipsClassifier(req: TransactionRequest, c1: string -> Inference, c2: string -> Inference)
    requires AllSpace(req.description.GetOr(""))
    ensures Predict(req, c1) == Predict(req, c2) == Failure(DescriptionRequired)
  {
  }

  /** The classifier is consulted on the composed input and on nothing else. */
  lemma ClassifierSeesComposedInput(req: TransactionRequest, c1: string -> Inference, c2: string -> Inference)
    requires ComposeInput(req).Success?
    requires c1(ComposeInput(req).value) == c2(ComposeInput(req).value)
    ensures Predict(req, c1) == Predict(req, c2)
  {
  }

  /**
   * As written, a token read as `LABEL_1` in any case is shown as Illegal ❌ but
   * explained with a Legal sentence: the first exactly when a Legal keyword
   * occurs in the composed input.
   */
  lemma IllegalTokenPrediction(req: TransactionRequest, classify: string -> Inference)
    requires ComposeInput(req).Success?
    requires classify(ComposeInput(req).value).Inferred?
    requires Upper(classify(ComposeInput(req).value).token) == "LABEL_1"
    ensures Predict(req, classify).Success?
    ensures Predict(req, classify).value.displayLabel == IllegalLabel
    ensures Predict(req, classify).value.reason == VerifiedActivity <==>
      SomeKeywordOccurs(LegalKeywords, Subject(Some(ComposeInput(req).value)))
    ensures Predict(req, classify).value.reason in {VerifiedActivity, NoIllegalTerms}
  {
    LowerLabels();
    assert IsPrefix("illegal", Lower(IllegalLabel));
    IllegalContainsLegal(Lower(IllegalLabel));
    LegalBranch(Some(ComposeInput(req).value), IllegalLabel);
  }

  /**
   * With the corrected reason, a token read as `LABEL_1` is explained with an
   * Illegal sentence: the first exactly when an Illegal keyword occurs.
   */
  lemma IntendedIllegalTokenPrediction(req: TransactionRequest, classify: string -> Inference)
    requires ComposeInput(req).Success?
    requires classify(ComposeInput(req).value).Inferred?
    requires Upper(classify(ComposeInput(req).value).token) == "LABEL_1"
    ensures IntendedPredict(req, classify).Success?
    ensures IntendedPredict(req, classify).value.displayLabel == IllegalLabel
    ensures IntendedPredict(req, classify).value.reason == UnlawfulKeywords <==>
      SomeKeywordOccurs(IllegalKeywords, Subject(Some(ComposeInput(req).value)))
    ensures IntendedPredict(req, classify).value.reason in {UnlawfulKeywords, PolicyViolation}
  {
    LowerLabels();
    assert IsPrefix("illegal", Lower(IllegalLabel));
    IntendedIllegalReason(Some(ComposeInput(req).value), IllegalLabel);
  }

  /** The correction changes only replies whose label contains "illegal". */
  lemma IntendedPredictAgrees(req: TransactionRequest, classify: string -> Inference)
    requires Predict(req, classify).Success? ==> !Contains(Lower(Predict(req, classify).value.displayLabel), "illegal")
    ensures IntendedPredict(req, classify) == Predict(req, classify)
  {
    if Predict(req, classify).Success? {
      var p := Predict(req, classify).value;
      IntendedAgreesElsewhere(Some(ComposeInput(req).value), p.displayLabel);
    }
  }
}
