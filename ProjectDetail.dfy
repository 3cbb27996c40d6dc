/** The page of one project: the not-found view, the deadline in the hero
    section and the label of its main button. The days-left computation is
    the projects list's own. */
module ProjectDetail {
  import opened Util
  import ProjectsList

  /** The fields of a project the hero section reads. */
  datatype ProjectInfo = ProjectInfo(title: string, progress: int, dueMs: int)

  /** What the hero section shows: the deadline line and the main button. */
  datatype Hero = Hero(deadline: ProjectsList.Deadline, mainButton: string)

  /** The page for a project id: `None` is "Projet non trouvé", shown for
      an id the catalogue lacks. Otherwise the deadline is the one the list
      shows for that due date, and the main button invites to start exactly
      when the progress is 0. */
  function HeroFor(catalogue: map<string, ProjectInfo>, projectId: string, nowMs: int): (h: Option<Hero>)
    ensures h.None? <==> projectId !in catalogue
    ensures h.Some? ==> h.value.deadline == ProjectsList.DeadlineFor(catalogue[projectId].dueMs, nowMs)
    ensures h.Some? ==> (h.value.mainButton == "Commencer le projet" <==> catalogue[projectId].progress == 0)
    ensures h.Some? ==> (h.value.mainButton == "Continuer" <==> catalogue[projectId].progress != 0)
  {
    if projectId !in catalogue then None
    else
      var p := catalogue[projectId];
      Some(Hero(ProjectsList.DeadlineFor(p.dueMs, nowMs), MainButton(p.progress)))
  }

  function MainButton(progress: int): (text: string)
  {
    if progress == 0 then "Commencer le projet" else "Continuer"
  }
}
