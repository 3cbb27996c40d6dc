/** The tests dashboard: the four listing filters and their reset, the
    label of time left before a test, the statistics cards, and the action
    offered for each test status. */
module TestsDashboard {
  import opened Util
  import TestOverview

  /** A listed test. Completed tests carry no difficulty. */
  datatype TestEntry = TestEntry(title: string, testType: string, subject: string, difficulty: Option<string>, status: string)

  /** The search term and the three select values. */
  datatype Filters = Filters(search: string, testType: string, difficulty: string, subject: string)

  const AllValue: string := "all"

  /** The filters on first render and after "Réinitialiser". */
  const DefaultFilters: Filters := Filters("", AllValue, AllValue, AllValue)

  // ---------------------------------------------------------------- filtering

  /** The search term, lower-cased, occurs in the lower-cased title or
      subject. */
  predicate MatchesSearch(t: TestEntry, search: string)
  {
    Contains(ToLower(t.title), ToLower(search)) || Contains(ToLower(t.subject), ToLower(search))
  }

  /** The predicate `filterTests` keeps a test by. The subject filter is a
      case-sensitive substring test; a missing difficulty equals no filter
      value. */
  predicate Matches(t: TestEntry, f: Filters)
  {
    && MatchesSearch(t, f.search)
    && (f.testType == AllValue || t.testType == f.testType)
    && (f.difficulty == AllValue || t.difficulty == Some(f.difficulty))
    && (f.subject == AllValue || Contains(t.subject, f.subject))
  }

  /** `filterTests`: the tests that match, in their order. */
  function FilterTests(tests: seq<TestEntry>, f: Filters): (r: seq<TestEntry>)
    ensures IsSubseq(r, tests)
    ensures forall i :: 0 <= i < |r| ==> r[i] in tests && Matches(r[i], f)
    ensures forall i :: 0 <= i < |tests| && Matches(tests[i], f) ==> tests[i] in r
    ensures forall t :: multiset(r)[t] == if Matches(t, f) then multiset(tests)[t] else 0
  {
    var keep := (t: TestEntry) => Matches(t, f);
    FilterMultiset(tests, keep);
    Filter(tests, keep)
  }

  /** The default filters keep every test, in order. */
  lemma DefaultFiltersKeepAll(tests: seq<TestEntry>)
    ensures FilterTests(tests, DefaultFilters) == tests
  {
    forall i | 0 <= i < |tests|
      ensures Matches(tests[i], DefaultFilters)
    {
      ContainsEmpty(ToLower(tests[i].title));
    }
  }

  /** Once a difficulty is chosen, no test without one is listed. */
  lemma ChosenDifficultyDropsUnrated(tests: seq<TestEntry>, f: Filters)
    requires f.difficulty != AllValue
    ensures forall i :: 0 <= i < |FilterTests(tests, f)| ==> FilterTests(tests, f)[i].difficulty.Some?
  {
  }

  /** Filtering twice by the same filters changes nothing more. */
  lemma FilterTestsIdempotent(tests: seq<TestEntry>, f: Filters)
    ensures FilterTests(FilterTests(tests, f), f) == FilterTests(tests, f)
  {
  }

  // ---------------------------------------------------------------- time left

  datatype UntilLabel = InDays(days: int) | InHours(hours: int) | Soon | Now

  /** `getTimeUntilTest`: days while more than one remains (rounded up), then
      hours while more than one remains, then "Bientôt disponible" while the
      start is ahead, then "Disponible maintenant". */
  function TimeUntilTest(now: int, start: int): (l: UntilLabel)
    ensures l.InDays? <==> start - now > DayMs
    ensures l.InHours? <==> HourMs < start - now <= DayMs
    ensures l == Soon <==> 0 < start - now <= HourMs
    ensures l == Now <==> start - now <= 0
    ensures l.InDays? ==> l.days > 1
    ensures l.InHours? ==> 1 < l.hours <= 24
  {
    var diff := start - now;
    var diffDays := CeilDiv(diff, DayMs);
    var diffHours := CeilDiv(diff, HourMs);
    CeilDivAboveOne(diff, DayMs);
    CeilDivAboveOne(diff, HourMs);
    if diffDays > 1 then InDays(diffDays)
    else if diffHours > 1 then
      assert (diffHours - 1) * HourMs < DayMs == 24 * HourMs;
      InHours(diffHours)
    else if diff > 0 then Soon
    else Now
  }

  /** The dashboard and the overview page agree on days and hours; the
      overview's "Disponible maintenant" covers both the dashboard's
      "Bientôt disponible" and its "Disponible maintenant". */
  lemma DashboardAgreesWithOverview(now: int, start: int)
    ensures var d := TimeUntilTest(now, start);
      var o := TestOverview.TimeUntilStart(now, start);
      && (d.InDays? <==> o.InDays?) && (d.InDays? ==> d.days == o.days)
      && (d.InHours? <==> o.InHours?) && (d.InHours? ==> d.hours == o.hours)
      && (d in {Soon, Now} <==> o.AvailableNow?)
  {
  }

  // ---------------------------------------------------------------- statistics

  /** "Tests à venir": the upcoming tests that are not locked. */
  function UpcomingCount(tests: seq<TestEntry>): (n: nat)
    ensures n <= |tests|
    ensures n == |tests| <==> forall i :: 0 <= i < |tests| ==> tests[i].status != "locked"
  {
    var r := Filter(tests, (t: TestEntry) => t.status != "locked");
    if |r| == |tests| then
      SubseqOfSameLength(r, tests, (t: TestEntry) => t.status != "locked");
      |r|
    else
      |r|
  }

  /** "Score moyen": the rounded mean of the scores; `None` without
      completed tests (the division gives no number). With scores between 0
      and 100 the mean lies there too. */
  function AverageScore(scores: seq<int>): (avg: Option<int>)
    ensures avg.None? <==> scores == []
    ensures avg.Some? ==>
      var n := |scores|; 2 * n * avg.value - n <= 2 * Sum(scores) < 2 * n * avg.value + n
    ensures avg.Some? && (forall i :: 0 <= i < |scores| ==> 0 <= scores[i] <= 100) ==> 0 <= avg.value <= 100
  {
    if scores == [] then None
    else
      MeanInRangeWhenBounded(scores);
      Some(RoundDiv(Sum(scores), |scores|))
  }

  lemma MeanInRangeWhenBounded(scores: seq<int>)
    requires scores != []
    ensures (forall i :: 0 <= i < |scores| ==> 0 <= scores[i] <= 100) ==> 0 <= RoundDiv(Sum(scores), |scores|) <= 100
  {
    if forall i :: 0 <= i < |scores| ==> 0 <= scores[i] <= 100 {
      SumBounded(scores, 100);
      RoundDivBetween(Sum(scores), |scores|, 0, 100);
    }
  }

  // ---------------------------------------------------------------- actions

  datatype Action = ViewTest | NotYetAvailable | PrerequisitesMissing

  /** The button of a test card: a link for "available", a disabled "Pas
      encore disponible" for "upcoming", a disabled "Prérequis non remplis"
      for any other status. */
  function ActionFor(status: string): (a: Action)
    ensures a == ViewTest <==> status == "available"
    ensures a == NotYetAvailable <==> status == "upcoming"
  {
    if status == "available" then ViewTest
    else if status == "upcoming" then NotYetAvailable
    else PrerequisitesMissing
  }

  // ---------------------------------------------------------------- filter state

  class DashboardFilters {
    var searchTerm: string
    var typeFilter: string
    var difficultyFilter: string
    var subjectFilter: string

    function Current(): Filters
      reads this
    {
      Filters(searchTerm, typeFilter, difficultyFilter, subjectFilter)
    }

    constructor ()
      ensures Current() == DefaultFilters
    {
      searchTerm := "";
      typeFilter := AllValue;
      difficultyFilter := AllValue;
      subjectFilter := AllValue;
    }

    /** One of the four inputs changes; the others keep their value. */
    method SetSearch(term: string)
      modifies this`searchTerm
      ensures Current() == old(Current()).(search := term)
    {
      searchTerm := term;
    }

    method SetType(value: string)
      modifies this`typeFilter
      ensures Current() == old(Current()).(testType := value)
    {
      typeFilter := value;
    }

    method SetDifficulty(value: string)
      modifies this`difficultyFilter
      ensures Current() == old(Current()).(difficulty := value)
    {
      difficultyFilter := value;
    }

    method SetSubject(value: string)
      modifies this`subjectFilter
      ensures Current() == old(Current()).(subject := value)
    {
      subjectFilter := value;
    }

    /** "Réinitialiser": all four back to their defaults, after which every
      test is listed again. */
    method Reset()
      modifies this
      ensures Current() == DefaultFilters
    {
      searchTerm := "";
      typeFilter := AllValue;
      difficultyFilter := AllValue;
      subjectFilter := AllValue;
    }
  }
}
