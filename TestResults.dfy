/** The results page of a test: pass or fail, ranking against the class,
    precision, the per-question time labels and time bars, the
    recommendations, and the question selected for details. */
module TestResults {
  import opened Util

  datatype QuestionType = MultipleChoiceQ | CodeCompletionQ | OpenEndedQ

  /** One answered question as the results list it. */
  datatype QuestionResult = QuestionResult(id: int, kind: QuestionType, isCorrect: bool, timeSpent: nat)

  // ---------------------------------------------------------------- score

  /** "Réussi" when the score reaches the passing score. */
  predicate Passed(score: int, passingScore: int)
  {
    score >= passingScore
  }

  /** The alert advising revision: a score below the passing score. */
  predicate BelowThresholdAlert(score: int, passingScore: int)
  {
    score < passingScore
  }

  /** A result either passes or carries the alert, never both. */
  lemma PassedXorAlert(score: int, passingScore: int)
    ensures Passed(score, passingScore) <==> !BelowThresholdAlert(score, passingScore)
  {
  }

  /** "Au-dessus" (and the matching strength) only above the class average:
      a tie reads "En-dessous". */
  predicate AboveAverage(score: int, classAverage: int)
  {
    score > classAverage
  }

  /** `Math.round(correctAnswers / totalQuestions * 100)`; `None` when there
      are no questions. */
  function Precision(correct: nat, total: nat): (p: Option<int>)
    ensures p.None? <==> total == 0
    ensures total > 0 && correct <= total ==> 0 <= p.value <= 100
    ensures total > 0 ==> 2 * total * p.value - total <= 200 * correct < 2 * total * p.value + total
  {
    if total == 0 then None
    else
      PercentInRangeWhenPart(correct, total);
      Some(RoundDiv(100 * correct, total))
  }

  lemma PercentInRangeWhenPart(correct: nat, total: nat)
    requires total > 0
    ensures correct <= total ==> 0 <= RoundDiv(100 * correct, total) <= 100
  {
    if correct <= total {
      RoundPercentInRange(correct, total);
    }
  }

  // ---------------------------------------------------------------- time labels

  /** The time label as written: `Math.round(t / 60)` minutes, then the
      seconds `t % 60` padded to two digits. */
  function QuestionTimeLabel(t: nat): string
  {
    NatToString(RoundDiv(t, 60)) + ":" + PadTwo(t % 60)
  }

  /** From half a minute past, the label shows one minute too many:
      90 seconds read "2:30". */
  lemma QuestionTimeLabelOverstates()
    ensures QuestionTimeLabel(90) == "2:30"
    ensures QuestionTimeLabel(150) == "3:30"
  {
    assert RoundDiv(90, 60) == 2;
    assert RoundDiv(150, 60) == 3;
    assert NatToString(2) == "2";
    assert NatToString(3) == "3";
    assert NatToString(30) == "30";
  }

  /** The time label with whole minutes (`Math.floor`), as the seconds part
      implies. */
  function QuestionTimeLabelFloor(t: nat): string
  {
    NatToString(t / 60) + ":" + PadTwo(t % 60)
  }

  /** The corrected label reads back as the time it was made from: the
      digits before the colon are the whole minutes, the two after it the
      remaining seconds. */
  lemma QuestionTimeLabelFloorReadsBack(t: nat)
    ensures var s := QuestionTimeLabelFloor(t);
      var m := NatToString(t / 60);
      && s[|m|] == ':' && |s| == |m| + 3
      && AllDigits(s[..|m|]) && AllDigits(s[|m| + 1..])
      && DigitsValue(s[|m| + 1..]) < 60
      && 60 * DigitsValue(s[..|m|]) + DigitsValue(s[|m| + 1..]) == t
  {
    var s := QuestionTimeLabelFloor(t);
    var m := NatToString(t / 60);
    assert s[..|m|] == m;
    assert s[|m| + 1..] == PadTwo(t % 60);
    DigitsValueOfNatToString(t / 60);
  }

  // ---------------------------------------------------------------- time analysis

  /** `averageTimePerQuestion`; `None` for an empty list (the division gives
      no number). */
  function AverageTime(times: seq<nat>): (avg: Option<real>)
    ensures avg.None? <==> times == []
    ensures avg.Some? ==> avg.value * |times| as real == Sum(times) as real
  {
    if times == [] then None else Some(Sum(times) as real / |times| as real)
  }

  datatype BarColour = Red | Yellow | Blue

  /** The bar's colour: red above 1.5 times the average, yellow below half
      of it, blue otherwise (and blue when there is no average). */
  function TimeBarColour(t: nat, avg: Option<real>): (c: BarColour)
    ensures c == Red <==> avg.Some? && t as real > avg.value * 1.5
    ensures c == Yellow <==> avg.Some? && t as real <= avg.value * 1.5 && t as real < avg.value * 0.5
    ensures c == Blue <==> avg.None? || avg.value * 0.5 <= t as real <= avg.value * 1.5
  {
    if avg.Some? && t as real > avg.value * 1.5 then Red
    else if avg.Some? && t as real < avg.value * 0.5 then Yellow
    else Blue
  }

  /** The bar's width in percent: `min(t / (2 * avg) * 100, 100)`. With no
      average it is no number; with an average of 0 it is full for a positive
      time and no number for 0. */
  function TimeBarWidth(t: nat, avg: Option<real>): (w: Option<real>)
    requires avg.Some? ==> avg.value >= 0.0
    ensures w.Some? ==> 0.0 <= w.value <= 100.0
    ensures avg.Some? && avg.value > 0.0 && w.Some? ==> (w.value == 100.0 <==> t as real >= 2.0 * avg.value)
    ensures avg.Some? && avg.value > 0.0 ==> w.Some?
    ensures avg.Some? && avg.value > 0.0 && w.value < 100.0 ==> w.value * 2.0 * avg.value == 100.0 * t as real
  {
    if avg.None? then None
    else if avg.value == 0.0 then (if t > 0 then Some(100.0) else None)
    else
      var raw := t as real / (avg.value * 2.0) * 100.0;
      assert raw >= 100.0 <==> t as real >= 2.0 * avg.value;
      assert raw * (avg.value * 2.0) == 100.0 * t as real;
      Some(if raw < 100.0 then raw else 100.0)
  }

  /** `Math.min(...times)`, `None` for an empty list. */
  function MinTime(times: seq<nat>): (m: Option<nat>)
    ensures m.None? <==> times == []
    ensures m.Some? ==> m.value in times && forall i :: 0 <= i < |times| ==> m.value <= times[i]
  {
    if times == [] then None
    else
      var rest := MinTime(times[1..]);
      if rest.None? || times[0] <= rest.value then Some(times[0]) else rest
  }

  /** `Math.max(...times)`, `None` for an empty list. */
  function MaxTime(times: seq<nat>): (m: Option<nat>)
    ensures m.None? <==> times == []
    ensures m.Some? ==> m.value in times && forall i :: 0 <= i < |times| ==> times[i] <= m.value
  {
    if times == [] then None
    else
      var rest := MaxTime(times[1..]);
      if rest.None? || times[0] >= rest.value then Some(times[0]) else rest
  }

  // ---------------------------------------------------------------- recommendations

  /** "Bonne maîtrise": more than 70% answered correctly. */
  predicate Mastery(correct: nat, total: nat)
  {
    correct as real > total as real * 0.7
  }

  /** "Réviser les concepts fondamentaux": less than 60% correct. */
  predicate NeedsFundamentals(correct: nat, total: nat)
  {
    correct as real < total as real * 0.6
  }

  /** "Gestion efficace du temps": under 150 s per question. */
  predicate TimeStrength(avg: Option<real>)
  {
    avg.Some? && avg.value < 150.0
  }

  /** "Améliorer la gestion du temps": over 200 s per question. */
  predicate TimeWeakness(avg: Option<real>)
  {
    avg.Some? && avg.value > 200.0
  }

  /** No result is recommended both ways, for concepts or for time. */
  lemma RecommendationsNeverContradict(correct: nat, total: nat, avg: Option<real>)
    ensures !(Mastery(correct, total) && NeedsFundamentals(correct, total))
    ensures !(TimeStrength(avg) && TimeWeakness(avg))
  {
  }

  predicate FailedCode(q: QuestionResult)
  {
    q.kind == CodeCompletionQ && !q.isCorrect
  }

  /** "Pratiquer davantage la programmation VBA": some code question was
      answered wrongly (`filter(...).length > 0`). */
  function NeedsPractice(questions: seq<QuestionResult>): (b: bool)
    ensures b <==> exists i :: 0 <= i < |questions| && FailedCode(questions[i])
  {
    var failed := Filter(questions, FailedCode);
    if |failed| > 0 then
      assert failed[0] in questions;
      true
    else
      false
  }

  // ---------------------------------------------------------------- selection

  /** A click on a question selects it, or deselects it when it was the one
      selected. */
  function ClickQuestion(selected: Option<int>, id: int): (next: Option<int>)
    ensures next == Some(id) <==> selected != Some(id)
    ensures next != Some(id) ==> next.None?
  {
    if selected == Some(id) then None else Some(id)
  }

  /** Clicking a question twice returns to no selection. */
  lemma ClickTwiceDeselects(selected: Option<int>, id: int)
    requires selected != Some(id)
    ensures ClickQuestion(ClickQuestion(selected, id), id) == None
  {
  }
}
