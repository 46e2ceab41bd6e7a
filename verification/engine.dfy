/** The state of a `migration` instance and of the world it works on, and
    what `init`, `pending`, `up` and `create` do to it, as functions. The
    class in module Runner is proved to follow them. */
module Engine {
  import opened Wrappers
  import opened Js
  import opened Settings
  import opened Catalog
  import opened History
  import opened Reconcile
  import opened Apply
  import opened Folder
  import opened Scaffold
  import opened Text

  /** The instance fields (`options`, `isInit`, `isConnected`), the database
      behind the client, the migrations folder and the clock, in milliseconds. */
  datatype State = State(
    options: Options,
    isInit: bool,
    isConnected: bool,
    db: Database,
    disk: Disk,
    clock: nat)

  /** What holds between calls: a well-formed folder, no open transaction,
      and once initialised, a connection attempt made and the folder and its
      template in place. */
  ghost predicate Sound(s: State) {
    && Folder.Valid(s.disk)
    && s.db.tx.None?
    && (s.isInit ==> s.isConnected && s.disk.present && TemplateName in s.disk.files)
  }

  /** `pending`'s answer: the pending descriptors and `history`, the
      `length` of what the SELECT's answer plucked to. */
  datatype PendingList = PendingList(pending: seq<Descriptor>, history: JsValue)

  /** The error `create` meets writing `sql/<id>.sql` when `sql` does not exist. */
  datatype CreateError = NoSqlFolder

  /** `_query`: through the configured query method when the client has one;
      otherwise the call throws, is caught, and resolves to `{}`. */
  function Send(db: Database, queryMethod: string, st: Statement): Result<(Database, JsValue), DbError> {
    if queryMethod in db.methods then Execute(db, st) else Ok((db, Obj(map[])))
  }

  /** `_connect`: the connect method is tried once (a failure is swallowed),
      and the instance counts as connected whatever happened. */
  function Connected(s: State): (r: State)
    ensures r.isConnected
    ensures s.isConnected ==> r == s
    ensures !s.isConnected ==>
      r == s.(isConnected := true, db := r.db)
      && r.db == s.db.(connected := r.db.connected)
      && (r.db.connected <==> s.db.connected || s.options.connectMethod in s.db.methods)
  {
    if s.isConnected then s
    else s.(isConnected := true,
            db := s.db.(connected := s.db.connected || s.options.connectMethod in s.db.methods))
  }

  /** `init(options)`: merge, then, only the first time, connect, prepare the
      folder and create the history table. */
  function Initialized(s: State, p: Patch): State
    requires Folder.Valid(s.disk)
  {
    var o := Merge(s.options, p);
    if s.isInit then s.(options := o)
    else
      var c := Connected(s.(options := o));
      var created := Send(c.db, o.queryMethod, CreateTable);
      c.(disk := InitDisk(c.disk), db := created.value.0, isInit := true)
  }

  /** The SELECT of `pending`, plucked, or the error that rejects the call. */
  function Latest(s: State): Result<JsValue, DbError> {
    match Send(s.db, s.options.queryMethod, SelectTs)
    case Err(e) => Err(e)
    case Ok((_, v)) => Ok(Pluck(v, s.options.resultKey))
  }

  /** The rest of `pending` on the catalog `files` and the plucked answer
      `latest`: when `latest.length` is truthy, the catalog from the first
      file whose `ts` is above `latest[0].ts` on, otherwise the whole
      catalog; `history` is `latest.length`. `latest[0].ts` is read (and
      throws on an undefined `latest[0]`) only once `findIndex` looks at a
      file. */
  function Reconciled(files: seq<Descriptor>, latest: JsValue): Result<PendingList, DbError>
    requires !latest.Undefined? && !latest.Null?
  {
    var count := Length(latest);
    if !Truthy(count) then Ok(PendingList(files, count))
    else if files == [] then Ok(PendingList([], count))
    else
      match FirstTs(latest)
      case Err(e) => Err(e)
      case Ok(bound) => Ok(PendingList(Above(files, bound), count))
  }

  /** `latest[0].ts`, as the comparison `file.ts > latest[0].ts` reads it. */
  function FirstTs(latest: JsValue): Result<Numeric, DbError>
    requires !latest.Undefined? && !latest.Null?
  {
    var first := Element(latest, 0);
    if first.Undefined? || first.Null? then Err(TypeError) else Ok(ToNumber(Get(first, "ts")))
  }

  /** `files.slice(idx)` for the first file above `bound`, or nothing when no
      file is (always so for NaN). */
  function Above(files: seq<Descriptor>, bound: Numeric): seq<Descriptor> {
    var idx := if bound.Int? then FindIndex(files, bound.n) else -1;
    if idx >= 0 then files[idx..] else []
  }

  /** `pending` once initialised. */
  function PendingOf(s: State): Result<PendingList, DbError> {
    match Latest(s)
    case Err(e) => Err(e)
    case Ok(latest) => Reconciled(Catalog.Catalog(s.disk.listing), latest)
  }

  /** `up(options)`: merge and initialise, then apply. */
  function UpOf(s: State, p: Patch, rt: Runtime): (State, Result<seq<Descriptor>, DbError>)
    requires Folder.Valid(s.disk)
  {
    Upgrade(Initialized(s, p), rt)
  }

  /** The body of `up` after `init`: compute the pending list (a rejected
      SELECT rejects the call), run the loop and answer the applied prefix. */
  function Upgrade(s: State, rt: Runtime): (State, Result<seq<Descriptor>, DbError>) {
    match PendingOf(s)
    case Err(e) => (s, Err(e))
    case Ok(pl) =>
      var out := Run(s.db, s.options, pl.pending, rt);
      (s.(db := out.db), Ok(pl.pending[..out.step]))
  }

  /** The largest leading number among the entries of a listing. */
  function MaxLead(entries: seq<string>): (m: nat)
    ensures forall e :: e in entries ==> Lead(e) <= m
  {
    if entries == [] then 0 else Max(Lead(entries[0]), MaxLead(entries[1..]))
  }

  /** The retry of `create`: while `<ts>_<name>.js` exists, wait at least
      50 ms and start again with a fresh timestamp, re-running the name
      defaulting and sanitising on the current name; `k` counts the retries.
      Ends because a taken timestamp is at most the largest leading number in
      the folder. */
  function Settle(d: Disk, ts: nat, name: string, late: nat -> nat, k: nat): (r: (nat, string))
    requires Folder.Valid(d)
    decreases MaxLead(d.listing) - ts
  {
    if Id(ts, name) + ".js" in d.files then
      IdLead(ts, name);
      Settle(d, ts + 50 + late(k), Sanitize(Defaulted(name)), late, k + 1)
    else (ts, name)
  }

  /** The retry settles on an identifier whose `.js` does not exist, never
      earlier than it started; without a retry the name is the one it was
      handed, after one (at least 50 ms later) the empty name has become
      `unnamed`. */
  lemma {:induction false} SettleSpec(d: Disk, ts: nat, name: string, late: nat -> nat, k: nat)
    requires Folder.Valid(d)
    requires AllIdChars(name)
    ensures var r := Settle(d, ts, name, late, k);
      && Id(r.0, r.1) + ".js" !in d.files
      && r.0 >= ts
      && (r.0 == ts ==> r.1 == name)
      && (r.0 > ts ==> r.0 >= ts + 50 && r.1 == if name == [] then DefaultName else name)
    decreases MaxLead(d.listing) - ts
  {
    if Id(ts, name) + ".js" in d.files {
      var next := Sanitize(Defaulted(name));
      RetryName(name);
      SanitizeKeepsIdChars(DefaultName);
      TakenLead(d, ts, name);
      SettleStep(d, ts, name, late, k);
      SettleSpec(d, ts + 50 + late(k), next, late, k + 1);
    } else {
      assert Settle(d, ts, name, late, k) == (ts, name);
    }
  }

  /** A taken timestamp is at most the folder's largest leading number. */
  lemma TakenLead(d: Disk, ts: nat, name: string)
    requires Folder.Valid(d)
    requires Id(ts, name) + ".js" in d.files
    ensures ts <= MaxLead(d.listing)
  {
    IdLead(ts, name);
    assert Id(ts, name) + ".js" in d.listing;
  }

  /** Settle on a taken identifier is its retry. */
  lemma SettleStep(d: Disk, ts: nat, name: string, late: nat -> nat, k: nat)
    requires Folder.Valid(d)
    requires Id(ts, name) + ".js" in d.files
    ensures Settle(d, ts, name, late, k) == Settle(d, ts + 50 + late(k), Sanitize(Defaulted(name)), late, k + 1)
  {
  }

  /** The writes of `create` for identifier `id`: the `-- SQL` placeholder
      unless `nosql` or the file is already there (failing when `sql` does
      not exist), then the copy of the template to `<id>.js`. */
  function Scaffolded(d: Disk, id: string, nosql: bool): Result<Disk, CreateError>
    requires Folder.Valid(d) && d.present && TemplateName in d.files
  {
    var writeSql := !nosql && id + ".sql" !in d.sqlFiles;
    if writeSql && !d.sqlDir then Err(NoSqlFolder)
    else
      var withSql := if writeSql then d.(sqlFiles := d.sqlFiles[id + ".sql" := SqlPlaceholder]) else d;
      JsIsNotSqlDir(id);
      Ok(Put(withSql, id + ".js", withSql.files[TemplateName]))
  }

  /** What the writes of `create` leave: they fail exactly when the
      placeholder is due and `sql` does not exist; otherwise `<id>.js` is a
      copy of the template and is listed, and the placeholder is added only
      when asked for and absent. */
  lemma ScaffoldedSpec(d: Disk, id: string, nosql: bool)
    requires Folder.Valid(d) && d.present && TemplateName in d.files
    ensures var r := Scaffolded(d, id, nosql);
      && (r.Err? <==> !nosql && id + ".sql" !in d.sqlFiles && !d.sqlDir)
      && (r.Ok? ==>
            && Folder.Valid(r.value) && r.value.present && TemplateName in r.value.files
            && r.value.files == d.files[id + ".js" := d.files[TemplateName]]
            && r.value.sqlFiles == (if nosql || id + ".sql" in d.sqlFiles then d.sqlFiles
                                    else d.sqlFiles[id + ".sql" := SqlPlaceholder])
            && id + ".js" in r.value.listing)
  {
    JsIsNotSqlDir(id);
  }

  /** `create(name, nosql)`: initialise, settle on an identifier, write the
      files and answer `<id>`. The clock is left where the last attempt read it. */
  function CreateOf(s: State, name: string, nosql: bool, late: nat -> nat): (State, Result<string, CreateError>)
    requires Sound(s)
  {
    InitSpec(s, NoPatch);
    Made(Initialized(s, NoPatch), name, nosql, late)
  }

  /** `create` once `init` is done: read the clock, settle on a free
      identifier, then write its files. */
  function Made(s1: State, name: string, nosql: bool, late: nat -> nat): (State, Result<string, CreateError>)
    requires Sound(s1) && s1.isInit
  {
    var r := Settle(s1.disk, s1.clock, FirstName(name), late, 0);
    var id := Id(r.0, r.1);
    var s2 := s1.(clock := r.0);
    match Scaffolded(s1.disk, id, nosql)
    case Err(e) => (s2, Err(e))
    case Ok(d) => (s2.(disk := d), Ok(id))
  }

  // ----- init and options

  /** `init` merges on every call and the merge persists; the folder, table
      and connection work happens only while `isInit` is false, after which
      the instance is initialised, connected and its folder ready. The
      history rows are kept, unless the table had to be created, in which
      case it starts empty. */
  lemma InitSpec(s: State, p: Patch)
    requires Sound(s)
    ensures var r := Initialized(s, p);
      && Sound(r) && r.isInit && r.isConnected
      && r.options == Merge(s.options, p)
      && r.clock == s.clock
      && (s.isInit ==> r == s.(options := Merge(s.options, p)))
      && (!s.isInit ==> r.disk == InitDisk(s.disk))
      && (!s.isInit && r.options.queryMethod in s.db.methods ==> r.db.tableExists)
      && r.db.schema == s.db.schema
      && r.db.rows == if !s.isInit && r.options.queryMethod in s.db.methods && !s.db.tableExists
                      then [] else s.db.rows
  {
    InitDiskSpec(s.disk);
  }

  /** Merging first and then calling `init` without options is `init` with
      those options (what `pending` and `up` do). */
  lemma InitAfterMerge(s: State, p: Patch)
    requires Folder.Valid(s.disk)
    ensures Initialized(s.(options := Merge(s.options, p)), NoPatch) == Initialized(s, p)
  {
  }

  /** A second `init` does nothing but merge its options. */
  lemma InitIdempotent(s: State, p: Patch, q: Patch)
    requires Sound(s)
    ensures Initialized(Initialized(s, p), q)
      == Initialized(s, p).(options := Merge(Merge(s.options, p), q))
  {
    InitDiskSpec(s.disk);
  }

  // ----- pending

  /** On recorded timestamps, newest first, the reconciliation is the cut at
      the newest one, and `history` counts them. */
  lemma ReconciledRows(files: seq<Descriptor>, ts: seq<int>)
    ensures Reconciled(files, Arr(RowValues(ts))) == Ok(PendingList(Cut(files, ts), Number(Int(|ts|))))
  {
    if ts != [] {
      FirstRowBound(ts);
    }
    ReconciledCut(files, Arr(RowValues(ts)), ts);
  }

  /** An array of as many elements as `ts`, whose first `ts` reads as
      `ts[0]`, reconciles to the cut at `ts[0]`. */
  lemma ReconciledCut(files: seq<Descriptor>, latest: JsValue, ts: seq<int>)
    requires latest.Arr? && |latest.items| == |ts|
    requires ts != [] ==> FirstTs(latest) == Ok(Int(ts[0]))
    ensures Reconciled(files, latest) == Ok(PendingList(Cut(files, ts), Number(Int(|ts|))))
  {
    assert Length(latest) == Number(Int(|ts|));
    if ts == [] {
      assert Cut(files, ts) == files;
    } else if files == [] {
      assert Cut(files, ts) == [];
    } else {
      CutIsAbove(files, ts);
    }
  }

  /** Cutting at the newest recorded timestamp is the `findIndex` slice. */
  lemma CutIsAbove(files: seq<Descriptor>, ts: seq<int>)
    requires ts != []
    ensures Cut(files, ts) == Above(files, Int(ts[0]))
  {
  }

  /** `latest[0].ts` of the selected rows is the newest timestamp. */
  lemma FirstRowBound(ts: seq<int>)
    requires ts != []
    ensures FirstTs(Arr(RowValues(ts))) == Ok(Int(ts[0]))
  {
    assert RowValues(ts)[0] == RowValue(ts[0]);
  }

  /** With the table in place and `resultKey` "rows", `pending` cuts the
      catalog at the newest recorded timestamp and counts the rows. */
  lemma LatestRows(s: State)
    requires s.options.queryMethod in s.db.methods && s.db.tableExists
    requires s.options.resultKey == "rows"
    ensures PendingOf(s) == Ok(PendingList(Cut(Catalog.Catalog(s.disk.listing), Newest(s.db.rows)), Number(Int(|s.db.rows|))))
  {
    PluckSelect(s.db.rows, "rows");
    ReconciledRows(Catalog.Catalog(s.disk.listing), Newest(s.db.rows));
  }

  /** `pending` on a reachable history table under `resultKey` "rows": the
      catalog files strictly newer than every recorded timestamp, in order,
      and the row count; with no rows, the whole catalog. */
  lemma PendingSpec(s: State)
    requires s.options.queryMethod in s.db.methods && s.db.tableExists
    requires s.options.resultKey == "rows"
    ensures var files := Catalog.Catalog(s.disk.listing);
      && PendingOf(s).Ok?
      && PendingOf(s).value.history == Number(Int(|s.db.rows|))
      && (s.db.rows == [] ==> PendingOf(s).value.pending == files)
      && (s.db.rows != [] ==> PendingOf(s).value.pending == Newer(files, Newest(s.db.rows)[0]))
      && (s.db.rows != [] ==> forall d :: d in PendingOf(s).value.pending ==>
            d in files && forall i :: 0 <= i < |s.db.rows| ==> s.db.rows[i].ts < d.ts)
  {
    var files := Catalog.Catalog(s.disk.listing);
    var rows := s.db.rows;
    LatestRows(s);
    if rows != [] {
      CatalogSpec(s.disk.listing);
      NewestFirstIsMax(rows);
      CutIsNewer(files, Newest(rows));
      PendingAreNewer(files, Newest(rows));
    }
  }

  /** A client without the query method answers `{}`: every catalog file is
      pending and `history` is 0. */
  lemma PendingWithoutRows(s: State)
    requires s.options.queryMethod !in s.db.methods
    ensures PendingOf(s) == Ok(PendingList(Catalog.Catalog(s.disk.listing), Number(Int(0))))
  {
  }

  /** Under `resultKey` "fields", `latest` is the column list: one
      description without `ts`, so no file is above `latest[0].ts`, nothing
      is pending and `history` is 1. */
  lemma PendingUnderFields(s: State)
    requires s.options.queryMethod in s.db.methods && s.db.tableExists
    requires s.options.resultKey == "fields"
    ensures PendingOf(s) == Ok(PendingList([], Number(Int(1))))
  {
    PluckSelect(s.db.rows, "fields");
    assert "ts" !in TsField.fields;
    assert ToNumber(Get(TsField, "ts")) == NaN;
  }

  /** Under "command", `latest` is the text "SELECT": `latest[0]` is "S",
      whose `ts` is undefined, so nothing is pending and `history` is 6. */
  lemma PendingUnderCommand(s: State)
    requires s.options.queryMethod in s.db.methods && s.db.tableExists
    requires s.options.resultKey == "command"
    ensures PendingOf(s) == Ok(PendingList([], Number(Int(6))))
  {
    PluckSelect(s.db.rows, "command");
  }

  /** Under "rowCount", a non-zero count is plucked, and a number's `length`
      is undefined: the whole catalog is pending, with `history` undefined;
      with no rows the count 0 is falsy and plucks to `[]`. */
  lemma PendingUnderRowCount(s: State)
    requires s.options.queryMethod in s.db.methods && s.db.tableExists
    requires s.options.resultKey == "rowCount"
    ensures PendingOf(s) ==
      Ok(PendingList(Catalog.Catalog(s.disk.listing), if s.db.rows == [] then Number(Int(0)) else Undefined))
  {
    PluckSelect(s.db.rows, "rowCount");
  }

  /** Under any key the answer lacks (or "oid", which is null), `_pluck`
      yields `[]`: every catalog file is pending and `history` is 0. */
  lemma PendingUnderOtherKey(s: State)
    requires s.options.queryMethod in s.db.methods && s.db.tableExists
    requires s.options.resultKey !in {"rows", "fields", "command", "rowCount"}
    ensures PendingOf(s) == Ok(PendingList(Catalog.Catalog(s.disk.listing), Number(Int(0))))
  {
    PluckSelect(s.db.rows, s.options.resultKey);
  }

  /** What `pending` can answer as `history`: a count or undefined. */
  lemma PendingHistoryShape(s: State)
    requires PendingOf(s).Ok?
    ensures var h := PendingOf(s).value.history;
      (h.Number? && h.x.Int? && h.x.n >= 0) || h.Undefined?
  {
    if s.options.queryMethod in s.db.methods && s.db.tableExists {
      PluckSelect(s.db.rows, s.options.resultKey);
    }
  }

  /** Without the history table the SELECT is rejected, and so is `pending`. */
  lemma PendingWithoutTable(s: State)
    requires s.options.queryMethod in s.db.methods && !s.db.tableExists
    ensures PendingOf(s) == Err(UndefinedTable)
  {
  }

  // ----- up

  /** `up` answers a prefix of the pending list it computed, and its stop
      bounds hold for it. */
  lemma UpPrefix(s: State, rt: Runtime)
    ensures var r := Upgrade(s, rt).1;
      && (r.Ok? <==> PendingOf(s).Ok?)
      && (r.Ok? ==> r.value == PendingOf(s).value.pending[..|r.value|])
  {
  }

  /** The pending list `pending` answers is in ascending `ts` order, as the
      catalog it is cut from; so the answer of `up`, a prefix of it, is too. */
  lemma PendingSorted(s: State, rt: Runtime)
    ensures PendingOf(s).Ok? ==> SortedByTs(PendingOf(s).value.pending)
    ensures Upgrade(s, rt).1.Ok? ==> SortedByTs(Upgrade(s, rt).1.value)
  {
    CatalogSpec(s.disk.listing);
  }

  /** With positive `steps`, a non-zero `to` and every migration succeeding,
      `up` answers the first min(steps, number pending with `ts <= to`)
      pending migrations. */
  lemma UpBothBounds(s: State, rt: Runtime)
    requires PendingOf(s).Ok?
    requires s.options.steps.Given? && s.options.steps.n.Int? && s.options.steps.n.n > 0
    requires s.options.to.Given? && s.options.to.n.Int? && s.options.to.n.n != 0
    requires AllComplete(rt, s.options.queryMethod in s.db.methods, s.db.tableExists, PendingOf(s).value.pending)
    ensures var ps := PendingOf(s).value.pending;
      var k := Min(s.options.steps.n.n, CountUpTo(ps, s.options.to.n.n));
      Upgrade(s, rt).1 == Ok(ps[..k])
  {
    var ps := PendingOf(s).value.pending;
    PendingSorted(s, rt);
    BothBounds(s.db, s.options, ps, rt);
  }

  /** A non-zero `steps` caps the length of the answer (a negative one stops
      the loop at once); a non-zero `to` admits only migrations with `ts <= to`. */
  lemma UpBounds(s: State, rt: Runtime)
    requires PendingOf(s).Ok?
    ensures var r := Upgrade(s, rt).1;
      && r.Ok?
      && (Active(s.options.steps) ==>
            |r.value| <= if s.options.steps.n.n > 0 then s.options.steps.n.n else 0)
      && (Active(s.options.to) ==> forall d :: d in r.value ==> d.ts <= s.options.to.n.n)
  {
    var ps := PendingOf(s).value.pending;
    var out := Run(s.db, s.options, ps, rt);
    assert Upgrade(s, rt).1 == Ok(ps[..out.step]);
    if Active(s.options.steps) {
      StepsCap(s.db, s.options, ps, rt);
    }
    if Active(s.options.to) {
      TargetBound(s.db, s.options, ps, rt);
      forall d | d in ps[..out.step] ensures d.ts <= s.options.to.n.n {
        var k :| 0 <= k < out.step && ps[..out.step][k] == d;
        assert ps[k] == d;
      }
    }
  }

  /** With transactions on and the history table reachable, a run that
      fails leaves the history and the schema as they were before `up`, even
      though the answer may list the migrations that ran before the failure. */
  lemma UpAtomic(s: State, rt: Runtime)
    requires s.db.tx.None? && s.db.tableExists
    requires s.options.transactionnal && s.options.queryMethod in s.db.methods
    ensures PendingOf(s).Ok?
    ensures var ps := PendingOf(s).value.pending;
      Run(s.db, s.options, ps, rt).failed ==>
        var s2 := Upgrade(s, rt).0;
        s2.db.rows == s.db.rows && s2.db.schema == s.db.schema
  {
    var ps := PendingOf(s).value.pending;
    FailedTransactionLeavesNoTrace(s.db, s.options, ps, rt);
  }

  /** After an unbounded `up` in which every migration completes, a fresh
      `pending` (on the same folder) finds nothing left to run. */
  lemma UpThenNothingPending(s: State, rt: Runtime)
    requires s.db.tx.None? && s.db.tableExists
    requires s.options.queryMethod in s.db.methods && s.options.resultKey == "rows"
    requires !Active(s.options.steps) && !Active(s.options.to)
    requires forall d :: Completes(rt, true, true, d)
    ensures var (s2, r) := Upgrade(s, rt);
      r.Ok? && PendingOf(s2).Ok? && PendingOf(s2).value.pending == []
  {
    var files := Catalog.Catalog(s.disk.listing);
    var rows := s.db.rows;
    LatestRows(s);
    var ps := Cut(files, Newest(rows));
    assert AllComplete(rt, true, s.db.tableExists, ps);
    Unbounded(s.db, s.options, ps, rt);
    SuccessfulRunRecords(s.db, s.options, ps, rt);
    var out := Run(s.db, s.options, ps, rt);
    assert ps[..out.step] == ps;
    var s2 := s.(db := out.db);
    assert Upgrade(s, rt).0 == s2;
    LatestRows(s2);
    CatalogSpec(s.disk.listing);
    FullRunLeavesNothingPending(files, rows);
  }

  // ----- create

  /** `create` after `init`, from its first clock reading on: it settles on
      a free identifier read at that reading or, after retries, at least
      50 ms later with the defaulted name, and writes that identifier's files
      or fails when the placeholder is due and `sql` does not exist. */
  lemma MadeSpec(s1: State, name: string, nosql: bool, late: nat -> nat)
    requires Sound(s1) && s1.isInit
    ensures var n := FirstName(name);
      var (s2, r) := Made(s1, name, nosql, late);
      && Sound(s2) && s2.db == s1.db && s2.isInit
      && s2.clock >= s1.clock
      && (s2.clock == s1.clock ==> r.Ok? ==> r.value == Id(s1.clock, n))
      && (s2.clock > s1.clock ==> s2.clock >= s1.clock + 50 && (r.Ok? ==>
            r.value == Id(s2.clock, if n == [] then DefaultName else n)))
      && (r.Err? <==> !nosql && !s1.disk.sqlDir)
      && (r.Err? ==> s2.disk == s1.disk)
      && (r.Ok? ==>
            && r.value + ".js" !in s1.disk.files
            && s2.disk.files == s1.disk.files[r.value + ".js" := s1.disk.files[TemplateName]]
            && s2.disk.sqlFiles == (if nosql || r.value + ".sql" in s1.disk.sqlFiles then s1.disk.sqlFiles
                                    else s1.disk.sqlFiles[r.value + ".sql" := SqlPlaceholder])
            && r.value + ".js" in s2.disk.listing)
  {
    var st := Settle(s1.disk, s1.clock, FirstName(name), late, 0);
    SettleSpec(s1.disk, s1.clock, FirstName(name), late, 0);
    ScaffoldedSpec(s1.disk, Id(st.0, st.1), nosql);
  }

  /** `create` answers `<ts>_<name>` for a timestamp no earlier than its
      first clock reading and the sanitised (or, after a retry on an empty
      name, `unnamed`) name; it fails exactly when it must write the `-- SQL`
      placeholder and `sql` does not exist. */
  lemma CreateSpec(s: State, name: string, nosql: bool, late: nat -> nat)
    requires Sound(s)
    ensures var s1 := Initialized(s, NoPatch);
      var (s2, r) := CreateOf(s, name, nosql, late);
      && s2.clock >= s.clock
      && (s2.clock == s.clock ==> r.Ok? ==> r.value == Id(s.clock, FirstName(name)))
      && (s2.clock > s.clock ==> s2.clock >= s.clock + 50 && (r.Ok? ==>
            r.value == Id(s2.clock, if FirstName(name) == [] then DefaultName else FirstName(name))))
      && (r.Err? <==> !nosql && !s1.disk.sqlDir)
      && (r.Err? ==> s2.disk == s1.disk)
  {
    InitSpec(s, NoPatch);
    var s1 := Initialized(s, NoPatch);
    MadeSpec(s1, name, nosql, late);
  }

  /** The `.js` file `create` writes did not exist before (no file is ever
      overwritten by it), is a copy of the template, and is the only change
      among the folder's files; the placeholder is written only when asked
      for and absent. */
  lemma CreateFiles(s: State, name: string, nosql: bool, late: nat -> nat)
    requires Sound(s)
    ensures var s1 := Initialized(s, NoPatch);
      var (s2, r) := CreateOf(s, name, nosql, late);
      r.Ok? ==>
        && r.value + ".js" !in s1.disk.files
        && s2.disk.files == s1.disk.files[r.value + ".js" := s1.disk.files[TemplateName]]
        && s2.disk.sqlFiles == if nosql || r.value + ".sql" in s1.disk.sqlFiles then s1.disk.sqlFiles
                               else s1.disk.sqlFiles[r.value + ".sql" := SqlPlaceholder]
  {
    InitSpec(s, NoPatch);
    var s1 := Initialized(s, NoPatch);
    MadeSpec(s1, name, nosql, late);
  }

  /** The round trip with `_files`: the created migration is listed by the
      next catalog with the answered identifier, the timestamp and the name,
      unless the name sanitises to nothing and no retry happened (then
      `<ts>_.js` is written, which `_files` skips); after a retry such a name
      is listed as `unnamed`. */
  lemma CreateIsListed(s: State, name: string, nosql: bool, late: nat -> nat)
    requires Sound(s)
    ensures var c := CreateOf(s, name, nosql, late);
      var n := if FirstName(name) == [] then DefaultName else FirstName(name);
      c.1.Ok? && (FirstName(name) != [] || c.0.clock > s.clock) ==>
        Descriptor(c.1.value, c.0.clock, n) in Catalog.Catalog(c.0.disk.listing)
  {
    InitSpec(s, NoPatch);
    var s1 := Initialized(s, NoPatch);
    assert CreateOf(s, name, nosql, late) == Made(s1, name, nosql, late);
    MadeIsListed(s1, name, nosql, late);
  }

  /** CreateIsListed once `init` is done. */
  lemma MadeIsListed(s1: State, name: string, nosql: bool, late: nat -> nat)
    requires Sound(s1) && s1.isInit
    ensures var c := Made(s1, name, nosql, late);
      var n := if FirstName(name) == [] then DefaultName else FirstName(name);
      c.1.Ok? && (FirstName(name) != [] || c.0.clock > s1.clock) ==>
        Descriptor(c.1.value, c.0.clock, n) in Catalog.Catalog(c.0.disk.listing)
  {
    var st := Settle(s1.disk, s1.clock, FirstName(name), late, 0);
    SettleSpec(s1.disk, s1.clock, FirstName(name), late, 0);
    ScaffoldedSpec(s1.disk, Id(st.0, st.1), nosql);
    var c := Made(s1, name, nosql, late);
    var n := if FirstName(name) == [] then DefaultName else FirstName(name);
    if c.1.Ok? && (FirstName(name) != [] || c.0.clock > s1.clock) {
      assert st.1 == n;
      SanitizeKeepsIdChars(DefaultName);
      ListedId(c.0.disk.listing, st.0, n);
    }
  }

  /** A listed `<ts>_<name>.js` with a non-empty identifier name is in the
      catalog as that identifier, timestamp and name. */
  lemma ListedId(listing: seq<string>, ts: nat, name: string)
    requires name != [] && AllIdChars(name)
    requires Id(ts, name) + ".js" in listing
    ensures Descriptor(Id(ts, name), ts, name) in Catalog.Catalog(listing)
  {
    IdRoundTrip(ts, name);
    CatalogSpec(listing);
  }

  /** After `create`, the state is initialised and the answered
      identifier's `.js` exists; for a name that does not sanitise to
      nothing, the identifier is the final clock reading and that name. */
  lemma CreateAnswer(s: State, name: string, nosql: bool, late: nat -> nat)
    requires Sound(s)
    ensures var c := CreateOf(s, name, nosql, late);
      c.1.Ok? ==> && Sound(c.0) && c.0.isInit
                  && c.1.value + ".js" in c.0.disk.files
                  && (FirstName(name) != [] ==> c.1.value == Id(c.0.clock, FirstName(name)))
  {
    InitSpec(s, NoPatch);
    MadeSpec(Initialized(s, NoPatch), name, nosql, late);
  }

  /** The state `gap` ms later, nothing else having happened. */
  function Waited(s: State, gap: nat): State {
    s.(clock := s.clock + gap)
  }

  /** `create` on a folder where `<taken>.js` exists never answers `taken`
      and answers no earlier than the clock, so no earlier than any `since`
      before it; when `taken` is what the name would give at `since`,
      strictly later than `since`. */
  lemma CreateAvoids(w: State, name: string, nosql: bool, late: nat -> nat, taken: string, since: nat)
    requires Sound(w) && w.isInit
    requires taken + ".js" in w.disk.files
    requires since <= w.clock
    ensures var c := CreateOf(w, name, nosql, late);
      c.1.Ok? ==> && c.1.value != taken
                  && c.0.clock >= since
                  && (taken == Id(since, FirstName(name)) ==> c.0.clock > since)
  {
    InitSpec(w, NoPatch);
    assert Initialized(w, NoPatch) == w;
    MadeSpec(w, name, nosql, late);
  }

  /** Two `create` calls in a row, however much time passes between them and
      however late each retry's timer fires, answer different identifiers,
      the second no earlier; unless the name sanitises to nothing, strictly
      later. */
  lemma CreateTwice(s: State, name: string, nosql: bool, late1: nat -> nat, gap: nat, late2: nat -> nat)
    requires Sound(s)
    ensures var c1 := CreateOf(s, name, nosql, late1);
      c1.1.Ok? ==>
        && Sound(c1.0)
        && var c2 := CreateOf(Waited(c1.0, gap), name, nosql, late2);
           c2.1.Ok? ==> && c2.1.value != c1.1.value
                        && c2.0.clock >= c1.0.clock
                        && (FirstName(name) != [] ==> c2.0.clock > c1.0.clock)
  {
    CreateAnswer(s, name, nosql, late1);
    var c1 := CreateOf(s, name, nosql, late1);
    if c1.1.Ok? {
      CreateAvoids(Waited(c1.0, gap), name, nosql, late2, c1.1.value, c1.0.clock);
    }
  }
}
