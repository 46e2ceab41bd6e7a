/** The option record of a `migration` instance and the `Object.assign`
    merge that `init`, `pending` and `up` apply to it. */
module Settings {
  import opened Wrappers
  import opened Js

  /** `steps` and `to`: undefined, or a number (NaN included). */
  datatype Limit = Unset | Given(n: Numeric)

  /** The truthiness test the apply loop puts in front of each bound. */
  predicate Active(l: Limit) {
    l.Given? && l.n.Int? && l.n.n != 0
  }

  datatype Options = Options(
    table: string,
    migrations: string,
    transactionnal: bool,
    queryMethod: string,
    connectMethod: string,
    resultKey: string,
    steps: Limit,
    to: Limit)

  /** An options argument: a field is None when the caller's object lacks that key. */
  datatype Patch = Patch(
    table: Option<string>,
    migrations: Option<string>,
    transactionnal: Option<bool>,
    queryMethod: Option<string>,
    connectMethod: Option<string>,
    resultKey: Option<string>,
    steps: Option<Limit>,
    to: Option<Limit>)

  /** The options a new instance starts from. */
  const Defaults: Options :=
    Options("pg_upmig", "./migrations", true, "query", "connect", "rows", Given(Int(0)), Given(Int(0)))

  /** No argument at all (`undefined` or `null`): `Object.assign` copies nothing. */
  const NoPatch: Patch := Patch(None, None, None, None, None, None, None, None)

  function Pick<T>(given: Option<T>, current: T): T {
    if given.Some? then given.value else current
  }

  /** `Object.assign(options, patch)`: every key the patch has overrides. */
  function Merge(o: Options, p: Patch): (r: Options)
    ensures p == NoPatch ==> r == o
  {
    Options(
      Pick(p.table, o.table),
      Pick(p.migrations, o.migrations),
      Pick(p.transactionnal, o.transactionnal),
      Pick(p.queryMethod, o.queryMethod),
      Pick(p.connectMethod, o.connectMethod),
      Pick(p.resultKey, o.resultKey),
      Pick(p.steps, o.steps),
      Pick(p.to, o.to))
  }

  /** The options object itself passed as an argument (`this.pending(this.options)`). */
  function AsPatch(o: Options): Patch {
    Patch(Some(o.table), Some(o.migrations), Some(o.transactionnal), Some(o.queryMethod),
          Some(o.connectMethod), Some(o.resultKey), Some(o.steps), Some(o.to))
  }

  /** One patch applied after another: the later key wins. */
  function Then(p: Patch, q: Patch): Patch {
    Patch(
      if q.table.Some? then q.table else p.table,
      if q.migrations.Some? then q.migrations else p.migrations,
      if q.transactionnal.Some? then q.transactionnal else p.transactionnal,
      if q.queryMethod.Some? then q.queryMethod else p.queryMethod,
      if q.connectMethod.Some? then q.connectMethod else p.connectMethod,
      if q.resultKey.Some? then q.resultKey else p.resultKey,
      if q.steps.Some? then q.steps else p.steps,
      if q.to.Some? then q.to else p.to)
  }

  /** Merges persist: two calls in a row leave what one merge of both would. */
  lemma MergePersists(o: Options, p: Patch, q: Patch)
    ensures Merge(Merge(o, p), q) == Merge(o, Then(p, q))
    ensures Merge(Merge(o, p), p) == Merge(o, p)
  {
  }

  /** Passing the instance's own options back in changes nothing. */
  lemma MergeSelf(o: Options)
    ensures Merge(o, AsPatch(o)) == o
  {
  }
}
