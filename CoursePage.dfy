/** The course catalogue page: the list of courses with their level badge
    and start button, the selected course and lesson, and the detail
    header's lesson totals and percentage. */
module CoursePage {
  import opened Util

  datatype LessonKind = Lesson | Exercise

  datatype LessonEntry = LessonEntry(id: nat, title: string, completed: bool, kind: LessonKind)

  datatype Chapter = Chapter(id: nat, title: string, lessons: seq<LessonEntry>)

  datatype Course = Course(id: nat, title: string, level: string, progress: int, chapters: seq<Chapter>)

  // ---------------------------------------------------------------- totals

  /** `reduce((acc, chapter) => acc + chapter.lessons.length, 0)`. */
  function TotalLessons(chapters: seq<Chapter>): nat
  {
    if chapters == [] then 0 else |chapters[0].lessons| + TotalLessons(chapters[1..])
  }

  function IsDone(l: LessonEntry): bool
  {
    l.completed
  }

  /** The same sum over the completed lessons of each chapter. */
  function CompletedLessons(chapters: seq<Chapter>): nat
  {
    if chapters == [] then 0 else |Filter(chapters[0].lessons, IsDone)| + CompletedLessons(chapters[1..])
  }

  /** The lessons of all chapters, in order: the list the sidebar shows. */
  function AllLessons(chapters: seq<Chapter>): seq<LessonEntry>
  {
    if chapters == [] then [] else chapters[0].lessons + AllLessons(chapters[1..])
  }

  /** The two sums count the lessons of the course and its completed
      lessons, so the completed ones never outnumber the total. */
  lemma {:induction false} TotalsCountLessons(chapters: seq<Chapter>)
    ensures TotalLessons(chapters) == |AllLessons(chapters)|
    ensures CompletedLessons(chapters) == |Filter(AllLessons(chapters), IsDone)|
    ensures CompletedLessons(chapters) <= TotalLessons(chapters)
  {
    if chapters != [] {
      TotalsCountLessons(chapters[1..]);
      FilterConcat(chapters[0].lessons, AllLessons(chapters[1..]), IsDone);
    }
  }

  /** `Math.round(completedLessons / totalLessons * 100)`; `None` for a
      course without lessons, where the division gives no number. The
      percentage lies between 0 and 100 and is the nearest integer to the
      exact share. */
  function ProgressPercentage(chapters: seq<Chapter>): (p: Option<int>)
    ensures p.None? <==> TotalLessons(chapters) == 0
    ensures p.Some? ==> 0 <= p.value <= 100
    ensures p.Some? ==>
      var c, t := CompletedLessons(chapters), TotalLessons(chapters);
      2 * t * p.value - t <= 200 * c < 2 * t * p.value + t
  {
    var t := TotalLessons(chapters);
    if t == 0 then None
    else
      var c := CompletedLessons(chapters);
      TotalsCountLessons(chapters);
      RoundPercentInRange(c, t);
      Some(RoundDiv(100 * c, t))
  }

  /** `course.chapters[0]?.lessons[0] || null`: the first lesson of the
      first chapter, when there is one. */
  function FirstLesson(course: Course): (l: Option<LessonEntry>)
    ensures l.None? <==> course.chapters == [] || course.chapters[0].lessons == []
    ensures l.Some? ==> l.value == course.chapters[0].lessons[0] && l.value in AllLessons(course.chapters)
  {
    if course.chapters == [] || course.chapters[0].lessons == [] then None
    else Some(course.chapters[0].lessons[0])
  }

  /** With lesson ids unique in a course, the sidebar highlights
      (`selectedLesson?.id === lesson.id`) exactly the selected lesson. */
  lemma OnlySelectedHighlighted(course: Course, selected: LessonEntry, i: int)
    requires var ls := AllLessons(course.chapters);
      forall j, k :: 0 <= j < |ls| && 0 <= k < |ls| && ls[j].id == ls[k].id ==> j == k
    requires selected in AllLessons(course.chapters)
    requires 0 <= i < |AllLessons(course.chapters)|
    ensures var l := AllLessons(course.chapters)[i]; l.id == selected.id <==> l == selected
  {
    var ls := AllLessons(course.chapters);
    var j :| 0 <= j < |ls| && ls[j] == selected;
    assert ls[i].id == selected.id ==> i == j;
  }

  // ---------------------------------------------------------------- the list

  datatype BadgeVariant = Default | Secondary | Destructive

  /** The level badge: "default" for beginners, "secondary" for the
      intermediate level, "destructive" for every other level. */
  function LevelBadge(level: string): (v: BadgeVariant)
    ensures v == Default <==> level == "Débutant"
    ensures v == Secondary <==> level == "Intermédiaire"
    ensures v == Destructive <==> level != "Débutant" && level != "Intermédiaire"
  {
    if level == "Débutant" then Default
    else if level == "Intermédiaire" then Secondary
    else Destructive
  }

  /** What a course card shows below its statistics: whether the progress
      bar is there, and the button's label and look. */
  datatype CardFooter = CardFooter(progressBar: bool, button: string, filled: bool)

  /** A course already started shows its progress and offers to continue
      with a filled button; any other offers to start, with an outline. */
  function CardFooterFor(course: Course): (f: CardFooter)
    ensures f.progressBar <==> course.progress > 0
    ensures f.filled <==> course.progress > 0
    ensures f.button == "Continuer" <==> course.progress > 0
    ensures f.button == "Commencer" <==> course.progress <= 0
  {
    if course.progress > 0 then CardFooter(true, "Continuer", true)
    else CardFooter(false, "Commencer", false)
  }

  // ---------------------------------------------------------------- navigation

  class CoursePageState {
    var selectedCourse: Option<Course>
    var selectedLesson: Option<LessonEntry>

    /** A lesson is selected only inside a selected course. */
    ghost predicate Valid()
      reads this
    {
      selectedCourse.None? ==> selectedLesson.None?
    }

    /** The page opens on the catalogue. */
    constructor ()
      ensures Valid() && selectedCourse == None && selectedLesson == None
    {
      selectedCourse := None;
      selectedLesson := None;
    }

    /** The catalogue shows while no course is selected. */
    function ShowsCatalogue(): bool
      reads this
    {
      selectedCourse.None?
    }

    /** `handleCourseSelect`: the course opens on its first lesson. */
    method CourseSelect(course: Course)
      requires Valid()
      modifies this
      ensures Valid() && !ShowsCatalogue()
      ensures selectedCourse == Some(course) && selectedLesson == FirstLesson(course)
    {
      selectedCourse := Some(course);
      selectedLesson := if course.chapters == [] || course.chapters[0].lessons == [] then None
        else Some(course.chapters[0].lessons[0]);
    }

    /** A click in the sidebar of the open course selects that lesson. */
    method LessonSelect(lesson: LessonEntry)
      requires Valid() && selectedCourse.Some?
      modifies this`selectedLesson
      ensures Valid() && selectedLesson == Some(lesson)
    {
      selectedLesson := Some(lesson);
    }

    /** `handleBackToCourses`: both selections are cleared. */
    method BackToCourses()
      requires Valid()
      modifies this
      ensures Valid() && ShowsCatalogue()
      ensures selectedCourse == None && selectedLesson == None
    {
      selectedCourse := None;
      selectedLesson := None;
    }
  }
}
