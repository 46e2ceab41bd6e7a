/** HistoryStore: the migrations table as the engine sees it through the
    database client, with BEGIN/COMMIT/ROLLBACK as snapshot and restore. */
module History {
  import opened Wrappers
  import opened Js
  import opened Sorting
  import opened Catalog

  /** One history row (the `date` column is informational and left out). */
  datatype Row = Row(name: string, ts: int, filename: string)

  function RowOf(d: Descriptor): Row {
    Row(d.name, d.ts, d.filename)
  }

  function RowsOf(ds: seq<Descriptor>): (r: seq<Row>)
    ensures |r| == |ds| && forall i :: 0 <= i < |ds| ==> r[i] == RowOf(ds[i])
  {
    if ds == [] then [] else [RowOf(ds[0])] + RowsOf(ds[1..])
  }

  /** The effects a migration body leaves in the database, named by its file. */
  function EffectsOf(ds: seq<Descriptor>): (r: seq<string>)
    ensures |r| == |ds| && forall i :: 0 <= i < |ds| ==> r[i] == ds[i].filename
  {
    if ds == [] then [] else [ds[0].filename] + EffectsOf(ds[1..])
  }

  datatype Snapshot = Snapshot(rows: seq<Row>, schema: seq<string>)

  /** The database behind the client: which client methods exist, whether the
      history table exists, its rows, the schema changes made by migration
      bodies, and the state saved by an open transaction. */
  datatype Database = Database(
    methods: set<string>,
    connected: bool,
    tableExists: bool,
    rows: seq<Row>,
    schema: seq<string>,
    tx: Option<Snapshot>)

  datatype Statement = CreateTable | SelectTs | Insert(row: Row) | Begin | Commit | Rollback

  /** Why a call rejects: the SELECT or INSERT met no history table, or the
      runner's own code read a property of undefined. */
  datatype DbError = UndefinedTable | TypeError

  function Neg(x: int): int { -x }

  function TsColumn(rows: seq<Row>): (r: seq<int>)
    ensures |r| == |rows| && forall i :: 0 <= i < |rows| ==> r[i] == rows[i].ts
  {
    if rows == [] then [] else [rows[0].ts] + TsColumn(rows[1..])
  }

  /** `SELECT ts FROM … ORDER BY ts DESC`: the recorded timestamps, newest first. */
  function Newest(rows: seq<Row>): seq<int> {
    SortBy(TsColumn(rows), Neg)
  }

  function RowValue(t: int): JsValue {
    Obj(map["ts" := Number(Int(t))])
  }

  function RowValues(ts: seq<int>): (r: seq<JsValue>)
    ensures |r| == |ts| && forall i :: 0 <= i < |ts| ==> r[i] == RowValue(ts[i])
  {
    if ts == [] then [] else [RowValue(ts[0])] + RowValues(ts[1..])
  }

  /** The description of the selected `ts` column in a pg result: a `bigint`
      (type 20) read as text. */
  const TsField: JsValue :=
    Obj(map["name" := Str("ts"), "columnID" := Number(Int(3)), "dataTypeID" := Number(Int(20)),
            "dataTypeSize" := Number(Int(8)), "dataTypeModifier" := Number(Int(-1)),
            "format" := Str("text")])

  /** The client's answer to the SELECT, a pg result: the command, the row
      count, no oid, one `{ts}` per row newest first, and the column list. */
  function SelectResult(rows: seq<Row>): JsValue {
    Obj(map["command" := Str("SELECT"), "rowCount" := Number(Int(|rows|)), "oid" := Null,
            "rows" := Arr(RowValues(Newest(rows))), "fields" := Arr([TsField])])
  }

  /** `_pluck` on the SELECT's answer: the rows under "rows", the column list
      under "fields", the command text under "command", the row count under
      "rowCount" when there are rows, and `[]` otherwise ("oid" is null, and
      other keys are absent). */
  lemma PluckSelect(rows: seq<Row>, resultKey: string)
    ensures Pluck(SelectResult(rows), resultKey)
      == if resultKey == "rows" then Arr(RowValues(Newest(rows)))
         else if resultKey == "fields" then Arr([TsField])
         else if resultKey == "command" then Str("SELECT")
         else if resultKey == "rowCount" && rows != [] then Number(Int(|rows|))
         else Arr([])
  {
  }

  /** The first selected timestamp is the largest one recorded. */
  lemma NewestFirstIsMax(rows: seq<Row>)
    requires rows != []
    ensures |Newest(rows)| == |rows|
    ensures exists i :: 0 <= i < |rows| && rows[i].ts == Newest(rows)[0]
    ensures forall i :: 0 <= i < |rows| ==> rows[i].ts <= Newest(rows)[0]
  {
    var col := TsColumn(rows);
    var n := Newest(rows);
    SortBySorted(col, Neg);
    SortByPermutes(col, Neg);
    assert n[0] in multiset(col);
    forall i | 0 <= i < |rows| ensures rows[i].ts <= n[0] {
      assert col[i] in multiset(n);
      var j :| 0 <= j < |n| && n[j] == col[i];
      assert j == 0 || Neg(n[0]) <= Neg(n[j]);
    }
  }

  /** What executing one statement does when the client's query method exists. */
  function Execute(db: Database, st: Statement): Result<(Database, JsValue), DbError> {
    match st
    case CreateTable =>
      Ok((if db.tableExists then db else db.(tableExists := true, rows := []), Obj(map[])))
    case SelectTs =>
      if db.tableExists then Ok((db, SelectResult(db.rows))) else Err(UndefinedTable)
    case Insert(row) =>
      if db.tableExists then Ok((db.(rows := db.rows + [row]), Obj(map[]))) else Err(UndefinedTable)
    case Begin =>
      Ok((if db.tx.None? then db.(tx := Some(Snapshot(db.rows, db.schema))) else db, Obj(map[])))
    case Commit => Ok((db.(tx := None), Obj(map[])))
    case Rollback =>
      Ok((match db.tx
          case Some(s) => db.(rows := s.rows, schema := s.schema, tx := None)
          case None => db, Obj(map[])))
  }

  /** ROLLBACK undoes everything since BEGIN, whatever happened in between, as
      long as nothing ended the transaction. */
  lemma RollbackRestores(db: Database, later: Database)
    requires db.tx.None? && Execute(db, Begin).Ok?
    requires later.tx == Execute(db, Begin).value.0.tx
    ensures var r := Execute(later, Rollback).value.0;
      r.rows == db.rows && r.schema == db.schema && r.tx.None?
  {
  }
}
