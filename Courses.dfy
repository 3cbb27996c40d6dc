/** The courses router: the ordered, paginated listing of visible courses,
    the teacher id a new course is stored with, and the get, update, soft
    delete and restore of one course. Its teacher check is the same code as
    the exercises router's. */
module Courses {
  import opened Util
  import opened Db
  import Exercises

  // ---------------------------------------------------------------- listing

  /** The query `list_courses` sends: visible courses in ascending
      `order_index`, the inclusive range holding exactly `limit` positions
      from `offset`. */
  function ListCoursesQuery(limit: int, offset: int): (q: Query)
    ensures q.table == "courses" && q.op == Select && !q.single
    ensures q.conditions == [Eq("is_hidden", VBool(false))]
    ensures q.order == Some(Ascending("order_index"))
    ensures q.range.Some? && q.range.value.first == offset && RangeSize(q.range.value) == limit
  {
    Query("courses", Select, [Eq("is_hidden", VBool(false))], Some(Ascending("order_index")),
          Some(Range(offset, offset + limit - 1)), false)
  }

  /** `list_courses`: the parameters are not bounded, so every request
      reaches the database and only its error gives a failure. */
  function ListCourses(limit: int, offset: int, db: Query -> DbResponse): (r: Reply)
    ensures r.Err? <==> db(ListCoursesQuery(limit, offset)).DbError?
    ensures r.Err? ==> r.code == 500
    ensures r.Ok? ==> r.code == 200 && r.body == Rows(db(ListCoursesQuery(limit, offset)).rows)
  {
    ListReply(db(ListCoursesQuery(limit, offset)))
  }

  /** `get_course`: no teacher check; 404 when no row comes back. */
  function GetCourse(id: string, db: Query -> DbResponse): (r: Reply)
    ensures var q := Query("courses", Select, [Eq("id", VStr(id))], None, None, true);
      && (r.Err? && r.code == 404 <==> db(q) == DbData([]))
      && (r.Err? && r.code == 500 <==> db(q).DbError?)
      && (r.Ok? ==> r.code == 200 && r.body == One(db(q).rows[0]))
  {
    RowReply(db(Query("courses", Select, [Eq("id", VStr(id))], None, None, true)), "Course not found", false)
  }

  // ---------------------------------------------------------------- creation

  /** The request body: its optional teacher id and its other fields
      (`course.dict()` without `teacher_id`). */
  datatype CourseCreate = CourseCreate(teacherId: Option<string>, fields: Row)

  /** `teacher_id or course.teacher_id`, with `not tid` giving `None`: the
      header's id when it is truthy, else the body's when that is truthy. */
  function ResolveTeacherId(header: Option<string>, body: Option<string>): (tid: Option<string>)
    ensures tid.None? <==> !Truthy(header) && !Truthy(body)
    ensures tid.Some? ==> tid.value != ""
    ensures Truthy(header) ==> tid == header
    ensures !Truthy(header) && Truthy(body) ==> tid == body
  {
    if Truthy(header) then header else if Truthy(body) then body else None
  }

  /** The row inserted: the body's fields with `teacher_id` set to the
      resolved id, which overrides whatever the body carried. */
  function CourseData(course: CourseCreate, tid: string): (data: Row)
    ensures "teacher_id" in data && data["teacher_id"] == VStr(tid)
    ensures data.Keys == course.fields.Keys + {"teacher_id"}
    ensures forall k :: k in course.fields && k != "teacher_id" ==> data[k] == course.fields[k]
  {
    course.fields["teacher_id" := VStr(tid)]
  }

  /** `create_course`: no teacher check; 400 before the database is asked
      when neither the header nor the body carries a teacher id; otherwise
      the insert of the course with the resolved id. */
  function CreateCourse(headerTeacherId: Option<string>, course: CourseCreate, db: Query -> DbResponse): (r: Reply)
    ensures r.Err? && r.code == 400 <==> !Truthy(headerTeacherId) && !Truthy(course.teacherId)
    ensures var tid := ResolveTeacherId(headerTeacherId, course.teacherId);
      tid.Some? ==> r == InsertReply(db(Query("courses", Insert(CourseData(course, tid.value)), [], None, None, false)),
                                     "Erreur lors de la création du cours")
  {
    var tid := ResolveTeacherId(headerTeacherId, course.teacherId);
    if tid.None? then Err(400, "teacher_id requis (header ou body)")
    else InsertReply(db(Query("courses", Insert(CourseData(course, tid.value)), [], None, None, false)),
                     "Erreur lors de la création du cours")
  }

  // ---------------------------------------------------------------- changes

  /** `delete_course`: a soft delete behind the teacher check. */
  function DeleteCourse(header: Option<string>, id: string, db: Query -> DbResponse): (r: Reply)
    ensures Exercises.GetCurrentTeacher(header) != Exercises.Teacher ==> r.Err? && r.code in {401, 403}
    ensures Exercises.GetCurrentTeacher(header) == Exercises.Teacher ==>
      r == RowReply(db(SetHiddenQuery("courses", id, true)), "Erreur lors de la suppression (hide) du cours", true)
  {
    Exercises.Guarded(header, RowReply(db(SetHiddenQuery("courses", id, true)),
                                       "Erreur lors de la suppression (hide) du cours", true))
  }

  /** `restore_course`: the soft delete undone, behind the teacher check. */
  function RestoreCourse(header: Option<string>, id: string, db: Query -> DbResponse): (r: Reply)
    ensures Exercises.GetCurrentTeacher(header) != Exercises.Teacher ==> r.Err? && r.code in {401, 403}
    ensures Exercises.GetCurrentTeacher(header) == Exercises.Teacher ==>
      r == RowReply(db(SetHiddenQuery("courses", id, false)), "Erreur lors de la restauration du cours", true)
  {
    Exercises.Guarded(header, RowReply(db(SetHiddenQuery("courses", id, false)),
                                       "Erreur lors de la restauration du cours", true))
  }

  /** `update_course`: behind the teacher check, the update of exactly the
      fields the request set, for the row of that id. */
  function UpdateCourse(header: Option<string>, id: string, setFields: Row, db: Query -> DbResponse): (r: Reply)
    ensures Exercises.GetCurrentTeacher(header) != Exercises.Teacher ==> r.Err? && r.code in {401, 403}
    ensures Exercises.GetCurrentTeacher(header) == Exercises.Teacher ==>
      r == RowReply(db(Query("courses", Update(setFields), [Eq("id", VStr(id))], None, None, false)),
                    "Course not found or not updated", false)
  {
    Exercises.Guarded(header, RowReply(db(Query("courses", Update(setFields), [Eq("id", VStr(id))], None, None, false)),
                                       "Course not found or not updated", false))
  }
}
