/** The `migration` class: its fields, and `init`, `pending`, `up` and
    `create` as methods that update them step by step, each proved to follow
    its function in module Engine. */
module Runner {
  import opened Wrappers
  import opened Js
  import opened Settings
  import opened Sorting
  import opened Catalog
  import opened History
  import opened Reconcile
  import opened Apply
  import opened Folder
  import opened Scaffold
  import opened Engine

  class Migration {
    var options: Options
    var isInit: bool
    var isConnected: bool
    /** The database behind the client. */
    var db: Database
    /** The migrations folder. */
    var disk: Disk
    /** What `new Date().getTime()` reads. */
    var clock: nat

    function Current(): State
      reads this
    {
      State(options, isInit, isConnected, db, disk, clock)
    }

    ghost predicate Valid()
      reads this
    {
      Sound(Current())
    }

    /** `new migration({options})`: the defaults, overridden by the given
      options; not initialised, not connected. */
    constructor (p: Patch, db0: Database, disk0: Disk, clock0: nat)
      requires Folder.Valid(disk0) && db0.tx.None?
      ensures Current() == State(Merge(Defaults, p), false, false, db0, disk0, clock0)
      ensures Valid()
    {
      options := Merge(Defaults, p);
      isInit := false;
      isConnected := false;
      db := db0;
      disk := disk0;
      clock := clock0;
    }

    /** `_connect`. */
    method Connect()
      modifies this`isConnected, this`db
      ensures Current() == Connected(old(Current()))
    {
      if !isConnected && options.connectMethod in db.methods {
        db := db.(connected := true);
      }
      isConnected := true;
    }

    /** `_query`: the statement goes through the configured query method;
      without one the answer is `{}` and nothing happens. */
    method Query(st: Statement) returns (r: Result<JsValue, DbError>)
      modifies this`db
      ensures var sent := Send(old(db), options.queryMethod, st);
        && (sent.Ok? ==> r == Ok(sent.value.1) && db == sent.value.0)
        && (sent.Err? ==> r == Err(sent.error) && db == old(db))
    {
      if options.queryMethod !in db.methods {
        return Ok(Obj(map[]));
      }
      match Execute(db, st)
      case Ok((after, answer)) =>
        db := after;
        r := Ok(answer);
      case Err(e) =>
        r := Err(e);
    }

    /** `init(options)`. */
    method Init(p: Patch)
      requires Valid()
      modifies this
      ensures Current() == Initialized(old(Current()), p)
      ensures Valid()
    {
      InitSpec(Current(), p);
      options := Merge(options, p);
      if isInit {
        return;
      }
      Connect();
      disk := MakeDirs(disk);
      if TemplateName !in disk.files {
        disk := Put(disk, TemplateName, StubText);
      }
      var _ := Query(CreateTable);
      isInit := true;
    }

    /** `_files`: parse the listing entry by entry, then sort by timestamp. */
    method Files() returns (infos: seq<Descriptor>)
      ensures infos == Catalog.Catalog(disk.listing)
    {
      var entries := disk.listing;
      var parsed: seq<Descriptor> := [];
      var i := 0;
      while i < |entries|
        invariant 0 <= i <= |entries|
        invariant parsed == Parsed(entries[..i])
      {
        var entry := ParseEntry(entries[i]);
        if entry.Some? {
          parsed := parsed + [entry.value];
        }
        ParsedSnoc(entries[..i], entries[i]);
        assert entries[..i + 1] == entries[..i] + [entries[i]];
        i := i + 1;
      }
      assert entries[..i] == entries;
      infos := SortBy(parsed, Ts);
    }

    /** `pending(options)`. */
    method Pending(p: Patch) returns (r: Result<PendingList, DbError>)
      requires Valid()
      modifies this
      ensures Current() == Initialized(old(Current()), p)
      ensures r == PendingOf(Current())
      ensures Valid()
    {
      options := Merge(options, p);
      Init(NoPatch);
      var files := Files();
      var answer := Query(SelectTs);
      if answer.Err? {
        return Err(answer.error);
      }
      var latest := Pluck(answer.value, options.resultKey);
      r := Reconcile(files, latest);
    }

    /** The end of `pending`: `latest.length`, and the `findIndex` over the
      files for the first one above `latest[0].ts`. */
    method Reconcile(files: seq<Descriptor>, latest: JsValue) returns (r: Result<PendingList, DbError>)
      requires !latest.Undefined? && !latest.Null?
      ensures r == Reconciled(files, latest)
    {
      var idx := 0;
      if Truthy(Length(latest)) {
        // findIndex reads `latest[0].ts` for each file it looks at
        idx := -1;
        if files != [] {
          var first := Element(latest, 0);
          if first.Undefined? || first.Null? {
            return Err(TypeError);
          }
          var bound := ToNumber(Get(first, "ts"));
          if bound.Int? {
            idx := FindIndex(files, bound.n);
          }
          assert (if idx >= 0 then files[idx..] else []) == Above(files, bound);
        }
      }
      var pending := if idx >= 0 then files[idx..] else [];
      r := Ok(PendingList(pending, Length(latest)));
    }

    /** `up(options)`. */
    method Up(p: Patch, rt: Runtime) returns (r: Result<seq<Descriptor>, DbError>)
      requires Valid()
      modifies this
      ensures (Current(), r) == UpOf(old(Current()), p, rt)
      ensures Valid()
    {
      ghost var s0 := Current();
      options := Merge(options, p);
      Init(NoPatch);
      InitAfterMerge(s0, p);
      r := Proceed(rt);
    }

    /** `up` once initialised: `this.pending(this.options)` (which merges the
      options into themselves and finds `init` done), then the loop between
      BEGIN and COMMIT or ROLLBACK. */
    method Proceed(rt: Runtime) returns (r: Result<seq<Descriptor>, DbError>)
      requires Valid() && isInit
      modifies this
      ensures (Current(), r) == Upgrade(old(Current()), rt)
      ensures Valid()
    {
      MergeSelf(options);
      InitSpec(Current(), AsPatch(options));
      var listed := Pending(AsPatch(options));
      if listed.Err? {
        return Err(listed.error);
      }
      var ps := listed.value.pending;
      var q := options.queryMethod in db.methods;
      Open();
      var step, failed := Apply(ps, q, rt);
      Close(failed);
      r := Ok(ps[..step]);
    }

    /** The BEGIN of `up`, when transactional. */
    method Open()
      modifies this`db
      ensures db == Begun(old(db), options)
    {
      if options.transactionnal {
        var _ := Query(Begin);
      }
    }

    /** The ROLLBACK after a failure, or the COMMIT when transactional. */
    method Close(failed: bool)
      modifies this`db
      ensures db == Closed(old(db), options, failed)
    {
      if failed {
        var _ := Query(Rollback);
      } else if options.transactionnal {
        var _ := Query(Commit);
      }
    }

    /** The `for` loop of `up`, from the first pending migration: each one
      stops the loop at a bound, or runs its body and its INSERT and moves
      the step counter; a failure ends the loop. */
    method Apply(ps: seq<Descriptor>, q: bool, rt: Runtime) returns (step: nat, failed: bool)
      requires q == (options.queryMethod in db.methods)
      modifies this`db
      ensures Outcome(db, step, failed) == Loop(old(db), q, options, ps, 0, rt)
    {
      step := 0;
      failed := false;
      while step < |ps|
        invariant step <= |ps|
        invariant q == (options.queryMethod in db.methods) && db.tableExists == old(db).tableExists
        invariant Loop(db, q, options, ps, step, rt) == Loop(old(db), q, options, ps, 0, rt)
      {
        var d := ps[step];
        if Stops(options, step, d) {
          break;
        }
        if !rt.runs(d) {
          failed := true;
          break;
        }
        // the migration body runs
        db := Ran(db, d);
        if q && !rt.accepts(d) {
          failed := true;
          break;
        }
        var inserted := Query(Insert(RowOf(d)));
        if inserted.Err? {
          failed := true;
          break;
        }
        step := step + 1;
      }
    }

    /** `create(name, nosql)`; the k-th retry's timer fires `late(k)` ms after the 50 it asks for. */
    method Create(name: string, nosql: bool, late: nat -> nat) returns (r: Result<string, CreateError>)
      requires Valid()
      modifies this
      ensures (Current(), r) == CreateOf(old(Current()), name, nosql, late)
      ensures Valid()
    {
      Init(NoPatch);
      r := Make(name, nosql, late);
    }

    /** `create` once initialised. */
    method Make(name: string, nosql: bool, late: nat -> nat) returns (r: Result<string, CreateError>)
      requires Valid() && isInit
      modifies this
      ensures (Current(), r) == Made(old(Current()), name, nosql, late)
      ensures Valid()
    {
      var ts, n := NextFree(name, late);
      r := Write(Id(ts, n), nosql);
    }

    /** The timestamp and name `create` settles on: the clock as read, and a
      wait and a fresh read for as long as `<ts>_<name>.js` exists. */
    method NextFree(name: string, late: nat -> nat) returns (ts: nat, n: string)
      requires Folder.Valid(disk)
      modifies this`clock
      ensures (ts, n) == Settle(disk, old(clock), FirstName(name), late, 0) && clock == ts
    {
      ts := clock;
      n := Sanitize(Defaulted(name));
      var k := 0;
      while Id(ts, n) + ".js" in disk.files
        invariant ts == clock
        invariant Settle(disk, ts, n, late, k) == Settle(disk, old(clock), FirstName(name), late, 0)
        decreases MaxLead(disk.listing) - ts
      {
        IdLead(ts, n);
        // the retry waits at least 50 ms and starts over with the name it has
        clock := clock + 50 + late(k);
        ts := clock;
        n := Sanitize(Defaulted(n));
        k := k + 1;
      }
    }

    /** The placeholder and the copy of the template for `id`. */
    method Write(id: string, nosql: bool) returns (r: Result<string, CreateError>)
      requires Folder.Valid(disk) && disk.present && TemplateName in disk.files
      modifies this`disk
      ensures var w := Scaffolded(old(disk), id, nosql);
        && (w.Ok? ==> disk == w.value && r == Ok(id))
        && (w.Err? ==> disk == old(disk) && r == Err(w.error))
    {
      if !nosql && id + ".sql" !in disk.sqlFiles {
        if !disk.sqlDir {
          return Err(NoSqlFolder);
        }
        disk := disk.(sqlFiles := disk.sqlFiles[id + ".sql" := SqlPlaceholder]);
      }
      JsIsNotSqlDir(id);
      disk := Put(disk, id + ".js", disk.files[TemplateName]);
      r := Ok(id);
    }
  }
}
