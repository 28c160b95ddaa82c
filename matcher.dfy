/** The analysis behind the "Analyze Match Probability" button
    (notebooks/app.py:107-136): extract both sides, assemble the classifier's
    input, ask the classifier, and apply the guardrail. The classifier is a
    parameter. */
module Matcher {
  import opened Text
  import opened Taxonomy
  import opened Features
  import opened Guardrail

  /** The outcome of pressing the button. */
  datatype Analysis =
    | InputsMissing
    | Analysed(input: Frame, resumeCats: seq<string>, jobCats: seq<string>, probability: real, result: MatchResult)

  /** The analysis: with either text empty nothing is computed; otherwise the
      classifier sees the 70-column input and the guardrail refines its
      probability. */
  method Analyze(resumeText: string, jobText: string, predict: Frame -> real) returns (a: Analysis)
    ensures a.InputsMissing? <==> resumeText == [] || jobText == []
    ensures a.Analysed? ==>
      && a.resumeCats == Found(SkillMapper, CleanText(resumeText))
      && a.jobCats == Found(SkillMapper, CleanText(jobText))
      && a.input == FeatureVector("R", a.resumeCats) + FeatureVector("J", a.jobCats)
      && a.probability == predict(a.input)
      && a.result.overlap == SetOf(a.resumeCats) * SetOf(a.jobCats)
      && a.result.score == FinalScore(a.probability, |a.result.overlap|)
      && a.result.criticalMismatch == (a.result.overlap == {})
      && a.result.verdict == VerdictOf(a.result.score)
    ensures a.Analysed? && 0.0 <= a.probability <= 1.0 ==>
      && 0.0 <= a.result.score <= 100.0
      && (a.result.verdict == StrongMatch <==> |a.result.overlap| >= 2 && a.probability > 0.7)
  {
    if resumeText == [] || jobText == [] {
      return InputsMissing;
    }
    var resVector, resCats := ExtractFeatures(resumeText, "R");
    var jobVector, jobCats := ExtractFeatures(jobText, "J");
    assert resVector == FeatureVector("R", resCats);
    assert jobVector == FeatureVector("J", jobCats);
    var input := ModelInput(resVector, jobVector);
    ModelInputLayout(resCats, jobCats);
    var probability := predict(input);
    var result := Adjust(probability, resCats, jobCats);
    if 0.0 <= probability <= 1.0 {
      ScoreInRange(probability, |result.overlap|);
      StrongExactly(probability, |result.overlap|);
    }
    a := Analysed(input, resCats, jobCats, probability, result);
  }
}
