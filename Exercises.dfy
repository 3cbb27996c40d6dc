/** The exercises router: the hand-written teacher check on the
    `Authorization` header, the paginated and filtered listing, and the
    get, create, update, soft delete and restore of one exercise, and the
    order in which its routes are tried. */
module Exercises {
  import opened Util
  import opened Db

  const TeacherToken: string := "secret-teacher-token"

  const BearerPrefix: string := "Bearer "

  // ---------------------------------------------------------------- the teacher check

  datatype Auth = Unauthorized | Forbidden | Teacher

  /** The position of the first `c` in `s`. */
  function FirstIndexOf(s: string, c: char): (i: Option<nat>)
    ensures i.None? <==> c !in s
    ensures i.Some? ==> i.value < |s| && s[i.value] == c && c !in s[..i.value]
  {
    if s == [] then None
    else if s[0] == c then Some(0)
    else
      var j := FirstIndexOf(s[1..], c);
      if j.None? then None
      else
        assert s[..j.value + 1] == [s[0]] + s[1..][..j.value];
        Some(j.value + 1)
  }

  /** `auth.split(" ", 1)[1]` on a header that starts with the scheme: the
      text after the first space, which is the space of the scheme. */
  function TokenOf(auth: string): (token: string)
    requires BearerPrefix <= auth
    ensures token == auth[|BearerPrefix|..]
  {
    assert auth[6] == ' ' && ' ' !in auth[..6];
    var i := FirstIndexOf(auth, ' ').value;
    assert i == 6;
    auth[i + 1..]
  }

  /** `get_current_teacher`: 401 without a header that starts, with this
      case, with "Bearer "; 403 when the rest differs from the teacher
      token; the teacher role exactly for "Bearer " then the token. */
  function GetCurrentTeacher(header: Option<string>): (a: Auth)
    ensures a == Unauthorized <==> header.None? || !(BearerPrefix <= header.value)
    ensures a == Forbidden <==> header.Some? && BearerPrefix <= header.value && header.value[|BearerPrefix|..] != TeacherToken
    ensures a == Teacher <==> header == Some(BearerPrefix + TeacherToken)
  {
    if header.None? || header.value == [] || !(BearerPrefix <= header.value) then Unauthorized
    else
      var auth := header.value;
      assert auth[..|BearerPrefix|] == BearerPrefix;
      assert auth == auth[..|BearerPrefix|] + auth[|BearerPrefix|..];
      if TokenOf(auth) != TeacherToken then Forbidden else Teacher
  }

  /** Two spaces after the scheme, which section 2.1 of RFC 6750 allows
      (`1*SP`), leave a space in front of the token, which is then refused. */
  lemma ExtraSpaceForbidden()
    ensures GetCurrentTeacher(Some("Bearer  " + TeacherToken)) == Forbidden
  {
    var h := "Bearer  " + TeacherToken;
    assert h[..|BearerPrefix|] == BearerPrefix;
    assert h[|BearerPrefix|..][0] == ' ' != TeacherToken[0];
  }

  /** The scheme is matched with its case: "bearer" is refused with 401. */
  lemma LowerCaseSchemeUnauthorized()
    ensures GetCurrentTeacher(Some("bearer " + TeacherToken)) == Unauthorized
  {
    assert ("bearer " + TeacherToken)[0] != BearerPrefix[0];
  }

  /** The reply of an endpoint behind the teacher check, given the reply it
      makes once the check passes: the 401 and 403 come first. */
  function Guarded(header: Option<string>, reply: Reply): (r: Reply)
    ensures GetCurrentTeacher(header) == Unauthorized ==> r == Err(401, "Authorization header missing or invalid")
    ensures GetCurrentTeacher(header) == Forbidden ==> r == Err(403, "Not authorized as teacher")
    ensures GetCurrentTeacher(header) == Teacher ==> r == reply
  {
    match GetCurrentTeacher(header)
    case Unauthorized => Err(401, "Authorization header missing or invalid")
    case Forbidden => Err(403, "Not authorized as teacher")
    case Teacher => reply
  }

  // ---------------------------------------------------------------- listing

  /** The bounds the query parameters are declared with: `1 <= limit <= 100`
      and `offset >= 0`; outside them the request is refused with 422. */
  predicate ValidPage(limit: int, offset: int)
  {
    1 <= limit <= 100 && offset >= 0
  }

  /** `query.eq(column, value)` when the argument is truthy, nothing
      otherwise. */
  function EqIfTruthy(column: string, arg: Option<string>): (cs: seq<Condition>)
    ensures forall v :: Eq(column, v) in cs <==> Truthy(arg) && v == VStr(arg.value)
    ensures forall c :: c in cs ==> c.column == column
  {
    if Truthy(arg) then [Eq(column, VStr(arg.value))] else []
  }

  /** The query `list_exercises` sends: hidden exercises are always
      excluded, the course and type conditions appear only for truthy
      arguments, and the inclusive range holds exactly `limit` positions
      from `offset`. */
  function ListExercisesQuery(limit: int, offset: int, courseId: Option<string>, kind: Option<string>): (q: Query)
    ensures q.table == "exercises" && q.op == Select && q.order.None? && !q.single
    ensures q.range.Some? && q.range.value.first == offset && RangeSize(q.range.value) == limit
    ensures |q.conditions| >= 1 && q.conditions[0] == Eq("is_hidden", VBool(false))
    ensures forall v :: Eq("course_id", v) in q.conditions <==> Truthy(courseId) && v == VStr(courseId.value)
    ensures forall v :: Eq("type", v) in q.conditions <==> Truthy(kind) && v == VStr(kind.value)
    ensures forall c :: c in q.conditions ==> c.column in {"is_hidden", "course_id", "type"}
  {
    var byCourse := EqIfTruthy("course_id", courseId);
    var byType := EqIfTruthy("type", kind);
    var cs := [Eq("is_hidden", VBool(false))] + byCourse + byType;
    assert forall c :: c in cs ==> c == cs[0] || c in byCourse || c in byType;
    Query("exercises", Select, cs, None, Some(Range(offset, offset + limit - 1)), false)
  }

  /** `list_exercises`: 422 for parameters out of bounds, before the
      database is asked; otherwise the answer to the listing query. */
  function ListExercises(limit: int, offset: int, courseId: Option<string>, kind: Option<string>,
                         db: Query -> DbResponse): (r: Reply)
    ensures r.Err? && r.code == 422 <==> !ValidPage(limit, offset)
    ensures ValidPage(limit, offset) ==> r == ListReply(db(ListExercisesQuery(limit, offset, courseId, kind)))
  {
    if !ValidPage(limit, offset) then Err(422, "Unprocessable Entity")
    else ListReply(db(ListExercisesQuery(limit, offset, courseId, kind)))
  }

  /** The query of `get_exercises_by_course`: visible exercises of one
      course, without a range. */
  function ByCourseQuery(courseId: string): (q: Query)
    ensures q.table == "exercises" && q.op == Select && q.range.None? && q.order.None?
    ensures Eq("course_id", VStr(courseId)) in q.conditions && Eq("is_hidden", VBool(false)) in q.conditions
    ensures |q.conditions| == 2
  {
    Query("exercises", Select, [Eq("course_id", VStr(courseId)), Eq("is_hidden", VBool(false))], None, None, false)
  }

  // ---------------------------------------------------------------- one exercise

  /** The select of one exercise by id. */
  function ByIdQuery(id: string): (q: Query)
    ensures q.table == "exercises" && q.op == Select && q.single
    ensures q.conditions == [Eq("id", VStr(id))]
  {
    Query("exercises", Select, [Eq("id", VStr(id))], None, None, true)
  }

  /** `get_exercise`: no teacher check; 404 when no row comes back. */
  function GetExercise(id: string, db: Query -> DbResponse): (r: Reply)
    ensures r.Err? && r.code == 404 <==> db(ByIdQuery(id)) == DbData([])
    ensures r.Err? && r.code == 500 <==> db(ByIdQuery(id)).DbError?
    ensures r.Ok? ==> r.code == 200 && r.body == One(db(ByIdQuery(id)).rows[0])
  {
    RowReply(db(ByIdQuery(id)), "Exercise not found", false)
  }

  /** `create_exercise`: the teacher check, then the insert of the request's
      fields. */
  function CreateExercise(header: Option<string>, data: Row, db: Query -> DbResponse): (r: Reply)
    ensures GetCurrentTeacher(header) != Teacher ==> r.Err? && r.code in {401, 403}
    ensures GetCurrentTeacher(header) == Teacher ==>
      r == InsertReply(db(Query("exercises", Insert(data), [], None, None, false)), "Erreur lors de la création de l'exercice")
  {
    Guarded(header, InsertReply(db(Query("exercises", Insert(data), [], None, None, false)), "Erreur lors de la création de l'exercice"))
  }

  /** `update_exercise`: the teacher check, then the update of exactly the
      fields the request set, for the row of that id. */
  function UpdateExercise(header: Option<string>, id: string, setFields: Row, db: Query -> DbResponse): (r: Reply)
    ensures GetCurrentTeacher(header) != Teacher ==> r.Err? && r.code in {401, 403}
    ensures GetCurrentTeacher(header) == Teacher ==>
      r == RowReply(db(Query("exercises", Update(setFields), [Eq("id", VStr(id))], None, None, false)),
                    "Exercise not found or not updated", false)
  {
    Guarded(header, RowReply(db(Query("exercises", Update(setFields), [Eq("id", VStr(id))], None, None, false)),
                             "Exercise not found or not updated", false))
  }

  /** `delete_exercise`: a soft delete, the teacher check first. */
  function DeleteExercise(header: Option<string>, id: string, db: Query -> DbResponse): (r: Reply)
    ensures GetCurrentTeacher(header) != Teacher ==> r.Err? && r.code in {401, 403}
    ensures GetCurrentTeacher(header) == Teacher ==>
      r == RowReply(db(SetHiddenQuery("exercises", id, true)), "Exercise not found or not deleted", true)
  {
    Guarded(header, RowReply(db(SetHiddenQuery("exercises", id, true)), "Exercise not found or not deleted", true))
  }

  /** `restore_exercise`: the soft delete undone, the teacher check first. */
  function RestoreExercise(header: Option<string>, id: string, db: Query -> DbResponse): (r: Reply)
    ensures GetCurrentTeacher(header) != Teacher ==> r.Err? && r.code in {401, 403}
    ensures GetCurrentTeacher(header) == Teacher ==>
      r == RowReply(db(SetHiddenQuery("exercises", id, false)), "Exercise not found or not restored", true)
  {
    Guarded(header, RowReply(db(SetHiddenQuery("exercises", id, false)), "Exercise not found or not restored", true))
  }

  /** `get_exercises_by_course`: the visible exercises of the course. */
  function ExercisesByCourse(courseId: string, db: Query -> DbResponse): (r: Reply)
    ensures r.Err? <==> db(ByCourseQuery(courseId)).DbError?
    ensures r.Ok? ==> r.code == 200 && r.body == Rows(db(ByCourseQuery(courseId)).rows)
  {
    ListReply(db(ByCourseQuery(courseId)))
  }

  // ---------------------------------------------------------------- routing

  /** One segment of a route's path template: a fixed word, or a `{name}`
      parameter, which takes any one non-empty segment without a slash. */
  datatype Segment = Word(w: string) | Param

  datatype Verb = GET | POST | PATCH | DELETE

  datatype Endpoint = CreateOne | ListAll | GetOne | UpdateOne | DeleteOne | RestoreOne | ByCourse

  datatype Route = Route(verb: Verb, template: seq<Segment>, endpoint: Endpoint)

  predicate SegmentMatches(t: Segment, seg: string)
  {
    match t
    case Word(w) => seg == w
    case Param => seg != "" && '/' !in seg
  }

  /** A route takes a request of its own verb whose path, split at the
      slashes, matches its template segment by segment. */
  predicate Accepts(r: Route, verb: Verb, path: seq<string>)
  {
    && r.verb == verb
    && |r.template| == |path|
    && forall i :: 0 <= i < |path| ==> SegmentMatches(r.template[i], path[i])
  }

  /** The router's routes in the order the module declares them: the
      by-course listing comes last, after the get by id, whose template
      has the same shape. */
  const ExerciseRoutes: seq<Route> := [
    Route(POST, [Word("exercises")], CreateOne),
    Route(GET, [Word("exercises")], ListAll),
    Route(GET, [Word("exercises"), Param], GetOne),
    Route(PATCH, [Word("exercises"), Param], UpdateOne),
    Route(DELETE, [Word("exercises"), Param], DeleteOne),
    Route(PATCH, [Word("exercises"), Param, Word("restore")], RestoreOne),
    Route(GET, [Word("exercises"), Param], ByCourse)
  ]

  /** The position of the first route that takes the request: routes are
      tried in declaration order and the first full match handles it. */
  function FirstAccepting(routes: seq<Route>, verb: Verb, path: seq<string>): (i: Option<nat>)
    ensures i.Some? ==> i.value < |routes| && Accepts(routes[i.value], verb, path)
    ensures i.Some? ==> forall j :: 0 <= j < i.value ==> !Accepts(routes[j], verb, path)
    ensures i.None? <==> forall j :: 0 <= j < |routes| ==> !Accepts(routes[j], verb, path)
  {
    if routes == [] then None
    else if Accepts(routes[0], verb, path) then Some(0)
    else
      var r := FirstAccepting(routes[1..], verb, path);
      assert forall j :: 1 <= j < |routes| ==> routes[j] == routes[1..][j - 1];
      if r.None? then None else Some(r.value + 1)
  }

  /** The endpoint that handles a request, if any route takes it. */
  function Dispatch(routes: seq<Route>, verb: Verb, path: seq<string>): (e: Option<Endpoint>)
    ensures e.None? <==> forall j :: 0 <= j < |routes| ==> !Accepts(routes[j], verb, path)
    ensures e.Some? ==> exists i :: 0 <= i < |routes| && routes[i].endpoint == e.value && Accepts(routes[i], verb, path)
  {
    var i := FirstAccepting(routes, verb, path);
    if i.None? then None else Some(routes[i.value].endpoint)
  }

  /** A route never handles a request that an earlier route also takes. */
  lemma ShadowedRouteNeverDispatched(routes: seq<Route>, j: nat, k: nat, verb: Verb, path: seq<string>)
    requires j < k < |routes|
    requires forall p :: Accepts(routes[k], verb, p) ==> Accepts(routes[j], verb, p)
    ensures FirstAccepting(routes, verb, path) != Some(k)
  {
  }

  /** As declared, `get_exercises_by_course` handles no request: every
      `GET /exercises/<x>` it would take goes to `get_exercise`. */
  lemma ByCourseUnreachable(path: seq<string>)
    ensures Dispatch(ExerciseRoutes, GET, path) != Some(ByCourse)
  {
    var i := FirstAccepting(ExerciseRoutes, GET, path);
    if i.Some? && ExerciseRoutes[i.value].endpoint == ByCourse {
      assert i.value == 6;
      ShadowedRouteNeverDispatched(ExerciseRoutes, 2, 6, GET, path);
      assert false;
    }
  }

  /** The routes with the by-course listing under a path of its own,
      `/exercises/course/{course_id}`, so that no earlier route takes its
      requests. */
  const FixedExerciseRoutes: seq<Route> := ExerciseRoutes[..6] + [
    Route(GET, [Word("exercises"), Word("course"), Param], ByCourse)
  ]

  /** With its own path the by-course listing handles the requests for
      every course id, and a request for one exercise still reaches
      `get_exercise`. */
  lemma ByCourseReachable(courseId: string, id: string)
    requires courseId != "" && '/' !in courseId
    requires id != "" && '/' !in id
    ensures Dispatch(FixedExerciseRoutes, GET, ["exercises", "course", courseId]) == Some(ByCourse)
    ensures Dispatch(FixedExerciseRoutes, GET, ["exercises", id]) == Some(GetOne)
    ensures Dispatch(ExerciseRoutes, GET, ["exercises", id]) == Some(GetOne)
  {
    var p := ["exercises", "course", courseId];
    assert Accepts(FixedExerciseRoutes[6], GET, p);
    assert Accepts(FixedExerciseRoutes[2], GET, ["exercises", id]);
    assert Accepts(ExerciseRoutes[2], GET, ["exercises", id]);
  }
}
