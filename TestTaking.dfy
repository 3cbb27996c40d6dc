/** The timed test session: a 30-minute countdown, a map of answers keyed by
    question id, a set of flagged questions, and the index of the question on
    screen. */
module TestTaking {
  import opened Util

  /** The countdown starts at 30 minutes, in seconds. */
  const TotalSeconds: int := 30 * 60

  /** Below this many seconds the timer is shown in red. */
  const UrgentBelow: int := 300

  datatype QuestionKind = MultipleChoice | CodeCompletion | OpenEnded

  datatype Question = Question(id: int, kind: QuestionKind)

  /** What a question component hands back: one option index, several option
      indices, or text (code or prose). */
  datatype Answer = Choice(index: int) | Choices(indices: seq<int>) | Text(text: string)

  /** What a submission reports: the answers and the seconds spent. */
  datatype Submission = Submission(answers: map<int, Answer>, timeSpent: int)

  // ---------------------------------------------------------------- timer

  /** `formatTime`: whole minutes and remaining seconds, each padded to two
      digits, separated by a colon. */
  function FormatTime(seconds: nat): string
  {
    PadTwo(seconds / 60) + ":" + PadTwo(seconds % 60)
  }

  /** Below 100 minutes the text is `MM:SS`, and it reads back as the number
      of seconds it was made from. */
  lemma FormatTimeReadsBack(s: nat)
    requires s < 6000
    ensures var r := FormatTime(s);
      && |r| == 5 && r[2] == ':'
      && AllDigits(r[..2]) && AllDigits(r[3..])
      && DigitsValue(r[3..]) < 60
      && 60 * DigitsValue(r[..2]) + DigitsValue(r[3..]) == s
  {
    var r := FormatTime(s);
    assert r[..2] == PadTwo(s / 60);
    assert r[3..] == PadTwo(s % 60);
  }

  /** The timer is urgent exactly when the minutes it shows are below 5. */
  lemma UrgentIffUnderFiveMinutes(s: nat)
    requires s < 6000
    ensures s < UrgentBelow <==> DigitsValue(FormatTime(s)[..2]) < 5
  {
    FormatTimeReadsBack(s);
  }

  /** One second of the countdown: above 1 it decrements, otherwise it
      settles at 0 (and the test is submitted). */
  function TickStep(t: int): (r: int)
    ensures t >= 0 ==> 0 <= r <= t
    ensures t > 1 ==> r == t - 1
    ensures t <= 1 ==> r == 0
  {
    if t <= 1 then 0 else t - 1
  }

  /** The countdown after `k` seconds. */
  function Countdown(t: int, k: nat): int
  {
    if k == 0 then t else TickStep(Countdown(t, k - 1))
  }

  /** From a non-negative start, `k` seconds later the countdown shows
      `max(0, t - k)`. */
  lemma {:induction false} CountdownValue(t: int, k: nat)
    requires t >= 0
    ensures Countdown(t, k) == if t - k > 0 then t - k else 0
  {
    if k > 0 {
      CountdownValue(t, k - 1);
    }
  }

  /** Starting from 30 minutes, the tick of second `k + 1` submits the test
      exactly when `k >= 1799`. */
  lemma AutoSubmitTime(k: nat)
    ensures Countdown(TotalSeconds, k) <= 1 <==> k >= TotalSeconds - 1
  {
    CountdownValue(TotalSeconds, k);
  }

  // ---------------------------------------------------------------- flags

  /** `toggleFlag`: flips the membership of `x` and of nothing else. */
  function Toggle(s: set<int>, x: int): (r: set<int>)
    ensures x in r <==> x !in s
    ensures forall y :: y != x ==> (y in r <==> y in s)
  {
    if x in s then s - {x} else s + {x}
  }

  /** Toggling the same flag twice gives back the original set. */
  lemma ToggleTwice(s: set<int>, x: int)
    ensures Toggle(Toggle(s, x), x) == s
  {
  }

  // ---------------------------------------------------------------- progress

  /** `answeredQuestions / questions.length * 100`. */
  function ProgressPercent(answers: map<int, Answer>, n: nat): real
    requires n > 0
  {
    (|answers.Keys| as real / n as real) * 100.0
  }

  function IdList(questions: seq<Question>): (ids: seq<int>)
    ensures |ids| == |questions|
    ensures forall i :: 0 <= i < |questions| ==> ids[i] == questions[i].id
  {
    seq(|questions|, i requires 0 <= i < |questions| => questions[i].id)
  }

  function QuestionIds(questions: seq<Question>): set<int>
  {
    set x | x in IdList(questions)
  }

  /** While every key of the map is the id of a question, progress is at
      most 100%. */
  lemma {:induction false} ProgressAtMostHundred(answers: map<int, Answer>, questions: seq<Question>)
    requires |questions| > 0
    requires answers.Keys <= QuestionIds(questions)
    ensures 0.0 <= ProgressPercent(answers, |questions|) <= 100.0
  {
    ElemsCard(IdList(questions));
    SubsetCard(answers.Keys, QuestionIds(questions));
    var k := |answers.Keys| as real;
    var n := |questions| as real;
    assert k <= n;
    assert k / n <= 1.0;
  }

  lemma SubsetCard(a: set<int>, b: set<int>)
    requires a <= b
    ensures |a| <= |b|
  {
    assert b == a + (b - a);
  }

  /** Answering an already-answered question again leaves progress as it was;
      answering a new one raises the count of answered questions by one. */
  lemma AnswerCountsOnce(answers: map<int, Answer>, id: int, a: Answer)
    ensures id in answers ==> |answers[id := a].Keys| == |answers.Keys|
    ensures id !in answers ==> |answers[id := a].Keys| == |answers.Keys| + 1
  {
    if id in answers {
      assert answers[id := a].Keys == answers.Keys;
    } else {
      assert answers[id := a].Keys == answers.Keys + {id};
    }
  }

  /** The sidebar marks position `i` (counting from 0) answered when the map
      has the key `i + 1`, and flagged when the flag set holds `i + 1`. When
      questions are numbered from 1 in order, the marks are those of the
      question shown at that position. */
  function SidebarMarks(answers: map<int, Answer>, flagged: set<int>, i: int): (marks: (bool, bool))
  {
    ((i + 1) in answers, (i + 1) in flagged)
  }

  lemma SidebarMarksMatchQuestions(questions: seq<Question>, answers: map<int, Answer>, flagged: set<int>, i: int)
    requires 0 <= i < |questions|
    requires forall j :: 0 <= j < |questions| ==> questions[j].id == j + 1
    ensures SidebarMarks(answers, flagged, i) == (questions[i].id in answers, questions[i].id in flagged)
  {
  }

  // ---------------------------------------------------------------- submission

  /** What `handleSubmitTest` reports given the state it reads. */
  function Report(answers: map<int, Answer>, timeLeft: int): Submission
  {
    Submission(answers, TotalSeconds - timeLeft)
  }

  /** As written, the countdown callback is created once, on the first
      render, so the `handleSubmitTest` it calls sees the first render's
      state: no answers and the full 30 minutes left. */
  function StaleAutoSubmitReport(): (s: Submission)
  {
    Report(map[], TotalSeconds)
  }

  /** The stale report claims no time spent and no answers, whatever the
      candidate answered during the 30 minutes. */
  lemma StaleAutoSubmitLosesWork(answers: map<int, Answer>)
    requires answers != map[]
    ensures StaleAutoSubmitReport().timeSpent == 0
    ensures StaleAutoSubmitReport().answers != answers
    ensures Report(answers, 0).timeSpent == TotalSeconds
  {
  }

  // ---------------------------------------------------------------- session

  class TestSession {
    const questions: seq<Question>
    var answers: map<int, Answer>
    var flagged: set<int>
    var current: int
    var timeLeft: int
    var tabSwitchWarnings: nat

    ghost predicate Valid()
      reads this
    {
      |questions| > 0 && 0 <= current < |questions| && 0 <= timeLeft <= TotalSeconds
    }

    /** The session of a test that was found; the question on screen is
        dereferenced on the first render, so its list is not empty. */
    constructor (questions: seq<Question>)
      requires |questions| > 0
      ensures Valid()
      ensures this.questions == questions
      ensures answers == map[] && flagged == {} && current == 0
      ensures timeLeft == TotalSeconds && tabSwitchWarnings == 0
    {
      this.questions := questions;
      answers := map[];
      flagged := {};
      current := 0;
      timeLeft := TotalSeconds;
      tabSwitchWarnings := 0;
    }

    /** `handleAnswerChange`: records the answer under the question id,
        replacing an earlier one. */
    method AnswerChange(id: int, a: Answer)
      requires Valid()
      modifies this`answers
      ensures Valid()
      ensures answers == old(answers)[id := a]
      ensures forall k :: k in old(answers) && k != id ==> k in answers && answers[k] == old(answers)[k]
    {
      answers := answers[id := a];
    }

    /** `toggleFlag`. */
    method ToggleFlag(id: int)
      requires Valid()
      modifies this`flagged
      ensures Valid()
      ensures flagged == Toggle(old(flagged), id)
    {
      if id in flagged {
        flagged := flagged - {id};
      } else {
        flagged := flagged + {id};
      }
    }

    /** The "Précédent" button, disabled on the first question. */
    function PreviousDisabled(): bool
      reads this
    {
      current == 0
    }

    /** The "Suivant" button, disabled on the last question. */
    function NextDisabled(): bool
      reads this
    {
      current == |questions| - 1
    }

    /** `setCurrentQuestion(Math.max(0, currentQuestion - 1))`. */
    method Previous()
      requires Valid()
      modifies this`current
      ensures Valid()
      ensures current == if old(current) > 0 then old(current) - 1 else 0
    {
      current := if current - 1 > 0 then current - 1 else 0;
    }

    /** `setCurrentQuestion(Math.min(questions.length - 1, currentQuestion + 1))`. */
    method Next()
      requires Valid()
      modifies this`current
      ensures Valid()
      ensures current == if old(current) < |questions| - 1 then old(current) + 1 else |questions| - 1
    {
      current := if |questions| - 1 < current + 1 then |questions| - 1 else current + 1;
    }

    /** A sidebar button jumps to its question. */
    method GoTo(index: int)
      requires Valid() && 0 <= index < |questions|
      modifies this`current
      ensures Valid() && current == index
    {
      current := index;
    }

    /** One tick of the one-second interval. When it brings the countdown
        to 0 the test is submitted with the answers given so far and the
        whole 30 minutes spent (the corrected reading of the source, which
        reports the first render's state instead; see
        `StaleAutoSubmitReport`). */
    method Tick() returns (autoSubmit: Option<Submission>)
      requires Valid()
      modifies this`timeLeft
      ensures Valid()
      ensures timeLeft == TickStep(old(timeLeft))
      ensures autoSubmit.Some? <==> old(timeLeft) <= 1
      ensures autoSubmit.Some? ==> autoSubmit.value == Submission(answers, TotalSeconds)
    {
      if timeLeft <= 1 {
        timeLeft := 0;
        autoSubmit := Some(Report(answers, timeLeft));
      } else {
        timeLeft := timeLeft - 1;
        autoSubmit := None;
      }
    }

    /** The `visibilitychange` listener counts the times the page was hidden. */
    method VisibilityChange(hidden: bool)
      requires Valid()
      modifies this`tabSwitchWarnings
      ensures Valid()
      ensures tabSwitchWarnings == old(tabSwitchWarnings) + (if hidden then 1 else 0)
    {
      if hidden {
        tabSwitchWarnings := tabSwitchWarnings + 1;
      }
    }

    /** Confirming the dialog submits the answers with the seconds elapsed. */
    method Submit() returns (s: Submission)
      requires Valid()
      ensures s.answers == answers
      ensures 0 <= s.timeSpent <= TotalSeconds && s.timeSpent + timeLeft == TotalSeconds
    {
      s := Report(answers, timeLeft);
    }

    /** The timer turns red below 5 minutes. */
    function IsUrgent(): bool
      reads this
    {
      timeLeft < UrgentBelow
    }

    /** The header's progress percentage. */
    function Progress(): real
      reads this
      requires Valid()
    {
      ProgressPercent(answers, |questions|)
    }
  }
}
