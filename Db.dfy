/** The vocabulary the two routers share: the table queries they build (as
    data: table, operation, equality conditions, order and inclusive
    range), the answer the database gives, the HTTP reply, and the
    soft-delete update both routers send. The database itself is a
    parameter of every endpoint. */
module Db {
  import opened Util

  datatype Value = VBool(b: bool) | VStr(s: string) | VInt(i: int) | VNull

  /** A table row, or the columns a request sends. */
  type Row = map<string, Value>

  /** `.eq(column, value)`. */
  datatype Condition = Eq(column: string, value: Value)

  /** `.order(column, desc=False)`. */
  datatype Order = Ascending(column: string)

  /** `.range(first, last)`: positions `first` to `last`, both included. */
  datatype Range = Range(first: int, last: int)

  datatype Op = Select | Insert(data: Row) | Update(data: Row)

  datatype Query = Query(
    table: string, op: Op, conditions: seq<Condition>,
    order: Option<Order>, range: Option<Range>, single: bool)

  /** What `execute()` gives back: an error, or the rows returned. */
  datatype DbResponse = DbError(message: string) | DbData(rows: seq<Row>)

  /** A reply body: a list of rows, one row, or the
      `{"success": True, ...: row}` of a soft delete or restore. */
  datatype Body = Rows(rows: seq<Row>) | One(row: Row) | Changed(success: bool, row: Row)

  datatype Reply = Ok(code: nat, body: Body) | Err(code: nat, detail: string)

  /** The number of positions a range asks for. */
  function RangeSize(r: Range): int
  {
    r.last - r.first + 1
  }

  /** A Python truthy optional string: present and not empty. */
  predicate Truthy(s: Option<string>)
  {
    s.Some? && s.value != ""
  }

  /** The row an update leaves: the sent columns take the sent values, the
      others keep theirs. */
  function ApplyUpdate(row: Row, data: Row): (r: Row)
    ensures r.Keys == row.Keys + data.Keys
    ensures forall k :: k in data ==> r[k] == data[k]
    ensures forall k :: k in row && k !in data ==> r[k] == row[k]
  {
    row + data
  }

  /** The update `delete` (hidden) and `restore` (not hidden) send for one
      id: only the `is_hidden` column, for the row of that id. */
  function SetHiddenQuery(table: string, id: string, hidden: bool): (q: Query)
    ensures q.op.Update? && q.op.data.Keys == {"is_hidden"} && q.op.data["is_hidden"] == VBool(hidden)
    ensures q.table == table && q.conditions == [Eq("id", VStr(id))]
    ensures q.order.None? && q.range.None? && !q.single
  {
    Query(table, Update(map["is_hidden" := VBool(hidden)]), [Eq("id", VStr(id))], None, None, false)
  }

  /** Restoring a deleted row gives back the row, marked visible; a row
      that was visible before the delete is given back unchanged. */
  lemma RestoreUndoesDelete(table: string, id: string, row: Row)
    ensures var hidden := ApplyUpdate(row, SetHiddenQuery(table, id, true).op.data);
      var restored := ApplyUpdate(hidden, SetHiddenQuery(table, id, false).op.data);
      && hidden["is_hidden"] == VBool(true)
      && restored == row["is_hidden" := VBool(false)]
      && ("is_hidden" in row && row["is_hidden"] == VBool(false) ==> restored == row)
  {
    var hidden := ApplyUpdate(row, SetHiddenQuery(table, id, true).op.data);
    var restored := ApplyUpdate(hidden, SetHiddenQuery(table, id, false).op.data);
    assert restored.Keys == row["is_hidden" := VBool(false)].Keys;
  }

  /** The reply of a request on one row: a database error is 500 with its
      message, no row is 404 with `notFound`, otherwise the first row comes
      back with 200 (wrapped as a success when `wrap`). */
  function RowReply(resp: DbResponse, notFound: string, wrap: bool): (r: Reply)
    ensures r.Err? && r.code == 500 <==> resp.DbError?
    ensures r.Err? && r.code == 404 <==> resp.DbData? && resp.rows == []
    ensures r.Err? ==> r.code in {404, 500}
    ensures r.Ok? ==> resp.DbData? && resp.rows != [] && r.code == 200
    ensures r.Ok? ==> r.body == if wrap then Changed(true, resp.rows[0]) else One(resp.rows[0])
  {
    match resp
    case DbError(m) => Err(500, m)
    case DbData(rows) =>
      if rows == [] then Err(404, notFound)
      else if wrap then Ok(200, Changed(true, rows[0]))
      else Ok(200, One(rows[0]))
  }

  /** The reply of an insert: errors and an empty answer are both 500; the
      first row comes back with 201. */
  function InsertReply(resp: DbResponse, empty: string): (r: Reply)
    ensures r.Err? <==> resp.DbError? || resp.rows == []
    ensures r.Err? ==> r.code == 500
    ensures r.Ok? ==> r.code == 201 && r.body == One(resp.rows[0])
  {
    match resp
    case DbError(m) => Err(500, m)
    case DbData(rows) => if rows == [] then Err(500, empty) else Ok(201, One(rows[0]))
  }

  /** The reply of a listing: a database error is 500, otherwise the rows
      come back, as many as the database gave, with 200. */
  function ListReply(resp: DbResponse): (r: Reply)
    ensures r.Err? <==> resp.DbError?
    ensures r.Err? ==> r.code == 500 && r.detail == resp.message
    ensures r.Ok? ==> r.code == 200 && r.body == Rows(resp.rows)
  {
    match resp
    case DbError(m) => Err(500, m)
    case DbData(rows) => Ok(200, Rows(rows))
  }
}
