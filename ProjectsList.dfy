/** The projects list: the search and select filters, the days left before
    a project's due date and the deadline label, and the progress marker and
    action button each status gets. */
module ProjectsList {
  import opened Util

  datatype ProjectStatus = NotStarted | InProgress | Completed | Locked

  /** A listed project; the due date is in milliseconds. */
  datatype Project = Project(
    id: nat, title: string, description: string, difficulty: string, category: string,
    status: ProjectStatus, progress: int, dueMs: int)

  /** The search term and the two select values. */
  datatype Filters = Filters(search: string, difficulty: string, category: string)

  const AllValue: string := "all"

  /** The filters on first render. */
  const DefaultFilters: Filters := Filters("", AllValue, AllValue)

  // ---------------------------------------------------------------- filtering

  /** The search term, lower-cased, occurs in the lower-cased title or
      description. */
  predicate MatchesSearch(p: Project, search: string)
  {
    Contains(ToLower(p.title), ToLower(search)) || Contains(ToLower(p.description), ToLower(search))
  }

  /** The predicate `filteredProjects` keeps a project by. */
  predicate Matches(p: Project, f: Filters)
  {
    && MatchesSearch(p, f.search)
    && (f.difficulty == AllValue || p.difficulty == f.difficulty)
    && (f.category == AllValue || p.category == f.category)
  }

  /** `filteredProjects`: the projects that match, in their order. */
  function FilterProjects(projects: seq<Project>, f: Filters): (r: seq<Project>)
    ensures IsSubseq(r, projects)
    ensures forall i :: 0 <= i < |r| ==> r[i] in projects && Matches(r[i], f)
    ensures forall i :: 0 <= i < |projects| && Matches(projects[i], f) ==> projects[i] in r
    ensures forall p :: multiset(r)[p] == if Matches(p, f) then multiset(projects)[p] else 0
  {
    var keep := (p: Project) => Matches(p, f);
    FilterMultiset(projects, keep);
    Filter(projects, keep)
  }

  /** The default filters keep every project, in order. */
  lemma DefaultFiltersKeepAll(projects: seq<Project>)
    ensures FilterProjects(projects, DefaultFilters) == projects
  {
    forall i | 0 <= i < |projects|
      ensures Matches(projects[i], DefaultFilters)
    {
      ContainsEmpty(ToLower(projects[i].title));
    }
  }

  /** "N projet(s) trouvé(s)" counts the matching projects; the empty-state
      card "Aucun projet trouvé" shows exactly when no project matches. */
  lemma EmptyStateIffNoMatch(projects: seq<Project>, f: Filters)
    ensures |FilterProjects(projects, f)| <= |projects|
    ensures |FilterProjects(projects, f)| == 0 <==> forall i :: 0 <= i < |projects| ==> !Matches(projects[i], f)
  {
    var r := FilterProjects(projects, f);
    SubseqLength(r, projects);
    if |r| > 0 {
      assert r[0] in projects && Matches(r[0], f);
    }
  }

  // ---------------------------------------------------------------- deadline

  /** `getDaysUntilDue`: the days left before the due date, rounded up. */
  function DaysUntilDue(dueMs: int, nowMs: int): (days: int)
    ensures (days - 1) * DayMs < dueMs - nowMs <= days * DayMs
  {
    CeilDiv(dueMs - nowMs, DayMs)
  }

  /** The deadline line: its text and whether it is shown in red. */
  datatype Deadline = Deadline(text: string, highlighted: bool)

  const OverdueText: string := "Échéance dépassée"

  /** "Dans N jour(s)" while the due date is ahead, "Échéance dépassée"
      once it is reached; red while fewer than 7 days are left, that is
      while at most six whole days separate now from the due date (so
      always once it is overdue). */
  function DeadlineFor(dueMs: int, nowMs: int): (d: Deadline)
    ensures d.text == OverdueText <==> dueMs <= nowMs
    ensures dueMs > nowMs ==> d.text == "Dans " + NatToString(DaysUntilDue(dueMs, nowMs)) + " jour(s)"
    ensures d.highlighted <==> dueMs - nowMs <= 6 * DayMs
  {
    var days := DaysUntilDue(dueMs, nowMs);
    CeilDivPositive(dueMs - nowMs, DayMs);
    CeilDivAtMost(dueMs - nowMs, DayMs, 6);
    var text :=
      if days > 0 then
        var t := "Dans " + NatToString(days) + " jour(s)";
        assert t[0] == 'D' != OverdueText[0];
        t
      else OverdueText;
    Deadline(text, days < 7)
  }

  // ---------------------------------------------------------------- status

  /** `statusLabels`. */
  function StatusLabel(st: ProjectStatus): (text: string)
    ensures text == "Commencer" <==> st == NotStarted
    ensures text == "Continuer" <==> st == InProgress
    ensures text == "Terminé" <==> st == Completed
    ensures text == "Verrouillé" <==> st == Locked
  {
    match st
    case NotStarted => "Commencer"
    case InProgress => "Continuer"
    case Completed => "Terminé"
    case Locked => "Verrouillé"
  }

  /** The action of a card: a disabled button, or a link to the project's
      page whose button has the outline look or the filled one. */
  datatype Action = DisabledButton(text: string) | LinkTo(projectId: nat, text: string, outline: bool)

  /** Locked projects get a disabled button, all others a link to their
      page; the finished projects' link has the outline look. Each action
      carries the status label. */
  function ActionFor(p: Project): (a: Action)
    ensures a.DisabledButton? <==> p.status == Locked
    ensures a.LinkTo? ==> a.projectId == p.id && (a.outline <==> p.status == Completed)
    ensures a.text == StatusLabel(p.status)
  {
    if p.status == Locked then DisabledButton(StatusLabel(p.status))
    else LinkTo(p.id, StatusLabel(p.status), p.status == Completed)
  }

  /** What the card shows between its details and its button. */
  datatype Marker = ProgressBar(percent: int) | FinishedMarker | NoMarker

  /** A progress bar for projects in progress, the "Projet terminé" marker
      for finished ones, nothing otherwise. */
  function MarkerFor(p: Project): (m: Marker)
    ensures m.ProgressBar? <==> p.status == InProgress
    ensures m.ProgressBar? ==> m.percent == p.progress
    ensures m == FinishedMarker <==> p.status == Completed
  {
    match p.status
    case InProgress => ProgressBar(p.progress)
    case Completed => FinishedMarker
    case _ => NoMarker
  }
}
