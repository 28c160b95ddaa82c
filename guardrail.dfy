/** The guardrail score adjustment and the verdict (notebooks/app.py:119-136),
    lifted out of the button handler. Scores are exact reals. */
module Guardrail {

  /** The message shown under the score (notebooks/app.py:133-136). */
  datatype Verdict = StrongMatch | PartialOrWeakMatch

  /** What one analysis shows: the refined score, the category overlap, whether
      the critical-mismatch alert is raised, and the verdict. */
  datatype MatchResult = MatchResult(score: real, overlap: set<string>, criticalMismatch: bool, verdict: Verdict)

  /** `set(cats)`. */
  function SetOf(cats: seq<string>): (s: set<string>)
    ensures forall c :: c in s <==> c in cats
  {
    set c | c in cats
  }

  /** The penalty tier for an overlap of `n` categories: 0.10 with none, 0.50
      with one, none with two or more. */
  function Multiplier(n: nat): (f: real)
    ensures 0.0 < f <= 1.0
  {
    if n == 0 then 0.10 else if n == 1 then 0.50 else 1.0
  }

  /** The refined score for a classifier probability and an overlap size. */
  function FinalScore(probability: real, n: nat): real {
    probability * 100.0 * Multiplier(n)
  }

  /** The verdict for a refined score. */
  function VerdictOf(score: real): (v: Verdict)
    ensures v == StrongMatch <==> score > 70.0
  {
    if score > 70.0 then StrongMatch else PartialOrWeakMatch
  }

  /** The guardrail: take the overlap of the two category lists, scale the
      base score by the tier it falls in, raise the alert when the overlap is
      empty, and pick the verdict. */
  method Adjust(probability: real, resumeCats: seq<string>, jobCats: seq<string>) returns (r: MatchResult)
    ensures r.overlap == SetOf(resumeCats) * SetOf(jobCats)
    ensures forall c :: c in r.overlap <==> c in resumeCats && c in jobCats
    ensures r.score == FinalScore(probability, |r.overlap|)
    ensures r.criticalMismatch <==> r.overlap == {}
    ensures r.verdict == VerdictOf(r.score)
  {
    var finalScore := probability * 100.0;
    var overlap := SetOf(resumeCats) * SetOf(jobCats);
    var critical := false;
    if overlap == {} {
      finalScore := finalScore * 0.10;
      critical := true;
    } else if |overlap| < 2 {
      finalScore := finalScore * 0.50;
    }
    var verdict := if finalScore > 70.0 then StrongMatch else PartialOrWeakMatch;
    r := MatchResult(finalScore, overlap, critical, verdict);
  }

  /** Exactly one tier applies: an empty overlap gives a tenth of the base
      score, an overlap of one gives half, a larger overlap the base score. */
  lemma Tiers(probability: real, n: nat)
    ensures n == 0 ==> FinalScore(probability, n) == probability * 100.0 * 0.10
    ensures n == 1 ==> FinalScore(probability, n) == probability * 100.0 * 0.50
    ensures n >= 2 ==> FinalScore(probability, n) == probability * 100.0
  {
  }

  /** For a probability in [0, 1] the refined score lies in [0, 100], and
      with an empty overlap it is at most 10. */
  lemma ScoreInRange(probability: real, n: nat)
    requires 0.0 <= probability <= 1.0
    ensures 0.0 <= FinalScore(probability, n) <= 100.0
    ensures FinalScore(probability, n) <= probability * 100.0
    ensures n == 0 ==> FinalScore(probability, n) <= 10.0
  {
  }

  /** The score never falls as the overlap grows. */
  lemma ScoreMonotone(probability: real, n: nat, m: nat)
    requires 0.0 <= probability && n <= m
    ensures FinalScore(probability, n) <= FinalScore(probability, m)
  {
  }

  /** A strong match needs an overlap of at least two categories and a
      classifier probability above 0.7, and that is also enough. */
  lemma StrongExactly(probability: real, n: nat)
    requires 0.0 <= probability <= 1.0
    ensures VerdictOf(FinalScore(probability, n)) == StrongMatch <==> n >= 2 && probability > 0.7
  {
  }

  /** A classifier probability of 0.90 with resume IT and job FIN: no overlap,
      score 9, critical mismatch, not strong. */
  method ScenarioDisjoint() returns (r: MatchResult)
    ensures r.overlap == {} && r.score == 9.0 && r.criticalMismatch && r.verdict == PartialOrWeakMatch
  {
    r := Adjust(0.90, ["IT"], ["FIN"]);
    assert "IT" !in r.overlap;
  }

  /** Probability 0.90 with resume IT, MGMT and job IT: overlap of one, score 45. */
  method ScenarioOneShared() returns (r: MatchResult)
    ensures r.overlap == {"IT"} && r.score == 45.0 && !r.criticalMismatch && r.verdict == PartialOrWeakMatch
  {
    r := Adjust(0.90, ["IT", "MGMT"], ["IT"]);
    assert "IT" in r.overlap && forall c :: c in r.overlap ==> c == "IT";
  }

  /** Probability 0.95 with IT and MGMT on both sides: overlap of two, score 95,
      strong. */
  method ScenarioTwoShared() returns (r: MatchResult)
    ensures |r.overlap| == 2 && r.score == 95.0 && r.verdict == StrongMatch
  {
    r := Adjust(0.95, ["IT", "MGMT"], ["IT", "MGMT"]);
    assert r.overlap == {"IT", "MGMT"};
  }
}
