/** Applier: the loop of `up` as a specification — its two stop conditions,
    one history row per completed migration, and COMMIT or ROLLBACK at the end. */
module Apply {
  import opened Wrappers
  import opened Settings
  import opened Catalog
  import opened History
  import opened Reconcile
  import opened Js

  /** What the database and the loaded modules do, which the engine cannot see:
      `runs(d)` — loading d's module and awaiting its body completes;
      `accepts(d)` — the server accepts d's INSERT into an existing table. */
  datatype Runtime = Runtime(runs: Descriptor -> bool, accepts: Descriptor -> bool)

  /** The two `break`s at the top of the loop body. */
  predicate Stops(o: Options, step: nat, d: Descriptor) {
    (Active(o.steps) && o.steps.n.n <= step) || (Active(o.to) && o.to.n.n < d.ts)
  }

  /** Whether migration d gets through its body and its INSERT: `q` says whether
      the configured query method exists (without it the INSERT is swallowed). */
  predicate Completes(rt: Runtime, q: bool, tableExists: bool, d: Descriptor) {
    rt.runs(d) && (!q || (rt.accepts(d) && tableExists))
  }

  datatype Outcome = Outcome(db: Database, step: nat, failed: bool)

  /** The loop from iteration `i` on, where `step == i` (the counter moves
      exactly when the loop does). */
  function Loop(db: Database, q: bool, o: Options, ps: seq<Descriptor>, i: nat, rt: Runtime): (r: Outcome)
    requires i <= |ps|
    ensures i <= r.step <= |ps|
    ensures r.failed ==> r.step < |ps|
    ensures r.db.methods == db.methods && r.db.tableExists == db.tableExists
    ensures r.db.tx == db.tx && r.db.connected == db.connected
    decreases |ps| - i
  {
    if i == |ps| || Stops(o, i, ps[i]) then Outcome(db, i, false)
    else if !rt.runs(ps[i]) then Outcome(db, i, true)
    else if q && !(rt.accepts(ps[i]) && db.tableExists) then Outcome(Ran(db, ps[i]), i, true)
    else Loop(Advance(db, q, ps[i]), q, o, ps, i + 1, rt)
  }

  /** The database once d's body has run. */
  function Ran(db: Database, d: Descriptor): Database {
    db.(schema := db.schema + [d.filename])
  }

  /** The database once d's body has run and its INSERT has gone through the
      query method: recorded when the method exists, swallowed when it does not. */
  function Advance(db: Database, q: bool, d: Descriptor): (r: Database)
    ensures q && db.tableExists ==> Execute(Ran(db, d), Insert(RowOf(d))) == Ok((r, Obj(map[])))
  {
    if q then Ran(db, d).(rows := db.rows + [RowOf(d)]) else Ran(db, d)
  }

  /** BEGIN, sent when transactional (a no-op when the query method is missing). */
  function Begun(db: Database, o: Options): (r: Database)
    ensures r.methods == db.methods && r.tableExists == db.tableExists
  {
    if o.transactionnal && o.queryMethod in db.methods then Execute(db, Begin).value.0 else db
  }

  /** ROLLBACK after a failure, whatever the setting; COMMIT after success when
      transactional (each a no-op when the query method is missing). */
  function Closed(db: Database, o: Options, failed: bool): (r: Database)
    ensures r.methods == db.methods && r.tableExists == db.tableExists
  {
    var q := o.queryMethod in db.methods;
    if failed then (if q then Execute(db, Rollback).value.0 else db)
    else if o.transactionnal && q then Execute(db, Commit).value.0
    else db
  }

  /** `up` after `pending`: BEGIN, the loop, then COMMIT or ROLLBACK. */
  function Run(db: Database, o: Options, ps: seq<Descriptor>, rt: Runtime): (r: Outcome)
    ensures r.step <= |ps| && (r.failed ==> r.step < |ps|)
    ensures r.db.methods == db.methods && r.db.tableExists == db.tableExists
    ensures db.tx.None? ==> r.db.tx.None?
  {
    var out := Loop(Begun(db, o), o.queryMethod in db.methods, o, ps, 0, rt);
    Outcome(Closed(out.db, o, out.failed), out.step, out.failed)
  }

  /** The loop stops at the first migration that a bound excludes or that does
      not complete; it fails exactly when it stopped for the latter reason. */
  lemma {:induction false} LoopStopsAtFirst(db: Database, q: bool, o: Options, ps: seq<Descriptor>, i: nat, rt: Runtime)
    requires i <= |ps|
    ensures var r := Loop(db, q, o, ps, i, rt);
      && (forall k :: i <= k < r.step ==> !Stops(o, k, ps[k]) && Completes(rt, q, db.tableExists, ps[k]))
      && (r.step < |ps| ==> Stops(o, r.step, ps[r.step]) || !Completes(rt, q, db.tableExists, ps[r.step]))
      && (r.failed <==> r.step < |ps| && !Stops(o, r.step, ps[r.step]))
    decreases |ps| - i
  {
    if i < |ps| && !Stops(o, i, ps[i]) && Completes(rt, q, db.tableExists, ps[i]) {
      LoopStopsAtFirst(Advance(db, q, ps[i]), q, o, ps, i + 1, rt);
    }
  }

  /** Each completed migration adds its row, when the query method exists. */
  lemma {:induction false} LoopRows(db: Database, q: bool, o: Options, ps: seq<Descriptor>, i: nat, rt: Runtime)
    requires i <= |ps|
    ensures var r := Loop(db, q, o, ps, i, rt);
      r.db.rows == db.rows + (if q then RowsOf(ps[i..r.step]) else [])
    decreases |ps| - i
  {
    if i < |ps| && !Stops(o, i, ps[i]) && Completes(rt, q, db.tableExists, ps[i]) {
      var next := Advance(db, q, ps[i]);
      LoopRows(next, q, o, ps, i + 1, rt);
      var r := Loop(next, q, o, ps, i + 1, rt);
      assert Loop(db, q, o, ps, i, rt) == r;
      assert ps[i..r.step] == [ps[i]] + ps[i + 1..r.step];
      if q {
        RowsStep(db.rows, ps[i], ps[i + 1..r.step]);
      }
    }
  }

  /** Each completed migration leaves its body's effects; so does a body that
      ran before its INSERT failed. */
  lemma {:induction false} LoopEffects(db: Database, q: bool, o: Options, ps: seq<Descriptor>, i: nat, rt: Runtime)
    requires i <= |ps|
    ensures var r := Loop(db, q, o, ps, i, rt);
      r.db.schema == db.schema + EffectsOf(ps[i..r.step])
                     + (if r.failed && rt.runs(ps[r.step]) then [ps[r.step].filename] else [])
    decreases |ps| - i
  {
    if i < |ps| && !Stops(o, i, ps[i]) && Completes(rt, q, db.tableExists, ps[i]) {
      var next := Advance(db, q, ps[i]);
      LoopEffects(next, q, o, ps, i + 1, rt);
      var r := Loop(next, q, o, ps, i + 1, rt);
      assert Loop(db, q, o, ps, i, rt) == r;
      assert ps[i..r.step] == [ps[i]] + ps[i + 1..r.step];
      EffectsStep(db.schema, ps[i], ps[i + 1..r.step],
        if r.failed && rt.runs(ps[r.step]) then [ps[r.step].filename] else []);
    } else {
      LoopEffectsAtStop(db, q, o, ps, i, rt);
    }
  }

  /** The step of LoopRows: one more recorded migration in front. */
  lemma RowsStep(rows: seq<Row>, d: Descriptor, rest: seq<Descriptor>)
    ensures rows + [RowOf(d)] + RowsOf(rest) == rows + RowsOf([d] + rest)
  {
    RowsOfAppend([d], rest);
  }

  /** The step of LoopEffects: one more completed migration in front. */
  lemma EffectsStep(schema: seq<string>, d: Descriptor, rest: seq<Descriptor>, tail: seq<string>)
    ensures schema + [d.filename] + EffectsOf(rest) + tail == schema + EffectsOf([d] + rest) + tail
  {
    EffectsOfAppend([d], rest);
  }

  /** The base case of LoopEffects: the iteration at which the loop ends. */
  lemma LoopEffectsAtStop(db: Database, q: bool, o: Options, ps: seq<Descriptor>, i: nat, rt: Runtime)
    requires i <= |ps|
    requires !(i < |ps| && !Stops(o, i, ps[i]) && Completes(rt, q, db.tableExists, ps[i]))
    ensures var r := Loop(db, q, o, ps, i, rt);
      r.step == i && r.db.schema == db.schema + (if r.failed && rt.runs(ps[i]) then [ps[i].filename] else [])
  {
  }

  lemma RowsOfAppend(a: seq<Descriptor>, b: seq<Descriptor>)
    ensures RowsOf(a + b) == RowsOf(a) + RowsOf(b)
  {
    assert forall i :: 0 <= i < |a + b| ==> RowsOf(a + b)[i] == (RowsOf(a) + RowsOf(b))[i];
  }

  lemma EffectsOfAppend(a: seq<Descriptor>, b: seq<Descriptor>)
    ensures EffectsOf(a + b) == EffectsOf(a) + EffectsOf(b)
  {
    assert forall i :: 0 <= i < |a + b| ==> EffectsOf(a + b)[i] == (EffectsOf(a) + EffectsOf(b))[i];
  }

  /** A non-zero `steps` caps the number applied; a non-negative cap is reached
      only when that many migrations were there to run. */
  lemma StepsCap(db: Database, o: Options, ps: seq<Descriptor>, rt: Runtime)
    requires Active(o.steps)
    ensures Run(db, o, ps, rt).step <= if o.steps.n.n > 0 then o.steps.n.n else 0
  {
    var q := o.queryMethod in db.methods;
    var began := Begun(db, o);
    LoopStopsAtFirst(began, q, o, ps, 0, rt);
    var r := Loop(began, q, o, ps, 0, rt);
    if r.step > 0 {
      assert !Stops(o, r.step - 1, ps[r.step - 1]);
    }
  }

  /** A non-zero `to` admits only migrations with `ts <= to`. */
  lemma TargetBound(db: Database, o: Options, ps: seq<Descriptor>, rt: Runtime)
    requires Active(o.to)
    ensures var r := Run(db, o, ps, rt);
      forall k :: 0 <= k < r.step ==> ps[k].ts <= o.to.n.n
  {
    var q := o.queryMethod in db.methods;
    var began := Begun(db, o);
    LoopStopsAtFirst(began, q, o, ps, 0, rt);
  }

  /** How many of a sorted list have `ts <= to`. */
  function CountUpTo(ps: seq<Descriptor>, to: int): (n: nat)
    ensures n <= |ps|
  {
    if ps == [] then 0 else (if ps[0].ts <= to then 1 else 0) + CountUpTo(ps[1..], to)
  }

  lemma {:induction false} CountUpToSorted(ps: seq<Descriptor>, to: int)
    requires SortedByTs(ps)
    ensures forall k :: 0 <= k < CountUpTo(ps, to) ==> ps[k].ts <= to
    ensures CountUpTo(ps, to) < |ps| ==> ps[CountUpTo(ps, to)].ts > to
  {
    if ps != [] {
      CountUpToSorted(ps[1..], to);
      if ps[0].ts > to {
        if ps[1..] != [] {
          assert ps[1].ts >= ps[0].ts;
        }
      }
    }
  }

  predicate AllComplete(rt: Runtime, q: bool, tableExists: bool, ps: seq<Descriptor>) {
    forall k :: 0 <= k < |ps| ==> Completes(rt, q, tableExists, ps[k])
  }

  /** With both bounds set and no failure, the run applies
      min(steps, number of pending migrations with ts <= to); `ts == to` is included. */
  lemma BothBounds(db: Database, o: Options, ps: seq<Descriptor>, rt: Runtime)
    requires SortedByTs(ps)
    requires o.steps.Given? && o.steps.n.Int? && o.steps.n.n > 0
    requires o.to.Given? && o.to.n.Int? && o.to.n.n != 0
    requires AllComplete(rt, o.queryMethod in db.methods, db.tableExists, ps)
    ensures var r := Run(db, o, ps, rt);
      !r.failed && r.step == Min(o.steps.n.n, CountUpTo(ps, o.to.n.n))
  {
    var q := o.queryMethod in db.methods;
    var began := Begun(db, o);
    LoopStopsAtFirst(began, q, o, ps, 0, rt);
    CountUpToSorted(ps, o.to.n.n);
    var r := Loop(began, q, o, ps, 0, rt);
    var c := CountUpTo(ps, o.to.n.n);
    if r.step > 0 {
      assert !Stops(o, r.step - 1, ps[r.step - 1]);
    }
    if r.step < |ps| {
      assert Completes(rt, q, db.tableExists, ps[r.step]);
    }
  }

  function Min(a: int, b: int): int { if a <= b then a else b }

  /** With neither bound active and no failure, every pending migration is applied. */
  lemma Unbounded(db: Database, o: Options, ps: seq<Descriptor>, rt: Runtime)
    requires !Active(o.steps) && !Active(o.to)
    requires AllComplete(rt, o.queryMethod in db.methods, db.tableExists, ps)
    ensures var r := Run(db, o, ps, rt); !r.failed && r.step == |ps|
  {
    var q := o.queryMethod in db.methods;
    var began := Begun(db, o);
    LoopStopsAtFirst(began, q, o, ps, 0, rt);
  }

  /** Atomicity: with transactions on (and a working query method), a failed run
      leaves the history rows and the schema exactly as they were. */
  lemma FailedTransactionLeavesNoTrace(db: Database, o: Options, ps: seq<Descriptor>, rt: Runtime)
    requires db.tx.None?
    requires o.transactionnal && o.queryMethod in db.methods
    ensures var r := Run(db, o, ps, rt);
      r.failed ==> r.db.rows == db.rows && r.db.schema == db.schema && r.db.tx.None?
  {
  }

  /** A run that does not fail keeps one row and one effect per applied
      migration, in order, and leaves no transaction open. */
  lemma SuccessfulRunRecords(db: Database, o: Options, ps: seq<Descriptor>, rt: Runtime)
    requires db.tx.None?
    requires o.queryMethod in db.methods
    ensures var r := Run(db, o, ps, rt);
      !r.failed ==> (r.db.rows == db.rows + RowsOf(ps[..r.step])
                     && r.db.schema == db.schema + EffectsOf(ps[..r.step]) && r.db.tx.None?)
  {
    var began := Begun(db, o);
    LoopRows(began, true, o, ps, 0, rt);
    LoopEffects(began, true, o, ps, 0, rt);
  }

  /** Without transactions, what completed before a failure stays committed,
      and a body whose INSERT failed leaves its effects without a history row. */
  lemma FailedAutocommitKeepsPrefix(db: Database, o: Options, ps: seq<Descriptor>, rt: Runtime)
    requires db.tx.None?
    requires !o.transactionnal && o.queryMethod in db.methods
    ensures var r := Run(db, o, ps, rt);
      r.failed ==> (r.db.rows == db.rows + RowsOf(ps[..r.step])
                    && r.db.schema == db.schema + EffectsOf(ps[..r.step])
                       + (if rt.runs(ps[r.step]) then [ps[r.step].filename] else []))
  {
    LoopRows(db, true, o, ps, 0, rt);
    LoopEffects(db, true, o, ps, 0, rt);
  }

  /** After a full, error-free run over the pending list of a sorted catalog, a
      fresh reconciliation finds nothing pending. */
  lemma FullRunLeavesNothingPending(files: seq<Descriptor>, rows: seq<Row>)
    requires SortedByTs(files)
    ensures var ps := Cut(files, Newest(rows));
      Cut(files, Newest(rows + RowsOf(ps))) == []
  {
    var ps := Cut(files, Newest(rows));
    var after := rows + RowsOf(ps);
    if ps == [] {
      assert after == rows;
    } else {
      var last := ps[|ps| - 1];
      assert last == files[|files| - 1];
      assert after[|after| - 1] == RowOf(last);
      NewestFirstIsMax(after);
      var top := Newest(after)[0];
      assert last.ts <= top;
      assert forall j :: 0 <= j < |files| ==> files[j].ts <= files[|files| - 1].ts;
      NothingNewerNothingPending(files, Newest(after));
    }
  }
}
