/** The argument coercions of the command-line tool (`timestamp` for
    `--to`, `migTable` for `--pgtable`) and the arithmetic of its `up` and
    `list` reports. */
module Cli {
  import opened Text
  import opened Js
  import opened Catalog
  import opened History
  import opened Reconcile
  import opened Engine

  // ----- first-run deletion, as `replace` without the g flag does it

  /** Characters before the first `drop` character are kept in front of
      whatever the deletion makes of the rest. */
  lemma {:induction false} DeleteFirstRunAt(s: string, drop: char -> bool, k: nat)
    requires k <= |s|
    requires forall i :: 0 <= i < k ==> !drop(s[i])
    ensures DeleteFirstRun(s, drop) == s[..k] + DeleteFirstRun(s[k..], drop)
  {
    if k > 0 {
      var t := s[1..];
      assert forall i :: 0 <= i < k - 1 ==> t[i] == s[i + 1];
      DeleteFirstRunAt(t, drop, k - 1);
      assert t[k - 1..] == s[k..];
      ConsPrefix(s, k, DeleteFirstRun(t, drop), DeleteFirstRun(s[k..], drop));
    } else {
      assert s[0..] == s;
    }
  }

  lemma ConsPrefix(s: string, k: nat, x: string, y: string)
    requires 0 < k <= |s| && x == s[1..][..k - 1] + y
    ensures [s[0]] + x == s[..k] + y
  {
    assert s[..k] == [s[0]] + s[1..][..k - 1];
  }

  /** Without a `drop` character the string is left as it is. */
  lemma {:induction false} DeleteFirstRunNone(s: string, drop: char -> bool)
    requires forall i :: 0 <= i < |s| ==> !drop(s[i])
    ensures DeleteFirstRun(s, drop) == s
  {
    DeleteFirstRunAt(s, drop, |s|);
  }

  /** Characters before the first `drop` character are kept as they are. */
  lemma DeleteFirstRunPrefix(p: string, t: string, drop: char -> bool)
    requires forall i :: 0 <= i < |p| ==> !drop(p[i])
    ensures DeleteFirstRun(p + t, drop) == p + DeleteFirstRun(t, drop)
  {
    var s := p + t;
    DeleteFirstRunAt(s, drop, |p|);
    assert s[..|p|] == p && s[|p|..] == t;
  }

  /** A leading maximal run of `drop` characters is the run that goes. */
  lemma DeleteFirstRunLeading(r: string, q: string, drop: char -> bool)
    requires r != [] && forall i :: 0 <= i < |r| ==> drop(r[i])
    requires q == [] || !drop(q[0])
    ensures DeleteFirstRun(r + q, drop) == q
  {
    RunLengthCovers(r, q, drop);
    assert (r + q)[|r|..] == q;
  }

  /** The first maximal run of `drop` characters goes, and only it: what
      comes before it and everything after it are kept. */
  lemma DeleteFirstRunSplit(p: string, r: string, q: string, drop: char -> bool)
    requires forall i :: 0 <= i < |p| ==> !drop(p[i])
    requires r != [] && forall i :: 0 <= i < |r| ==> drop(r[i])
    requires q == [] || !drop(q[0])
    ensures DeleteFirstRun(p + r + q, drop) == p + q
  {
    assert p + r + q == p + (r + q);
    DeleteFirstRunPrefix(p, r + q, drop);
    DeleteFirstRunLeading(r, q, drop);
  }

  // ----- timestamp

  predicate NotDigit(c: char) {
    !IsDigit(c)
  }

  /** `timestamp(ts)`: `parseInt(ts.replace(/[^0-9]+/, ""))`. */
  function Timestamp(s: string): Numeric {
    ParseInt(DeleteFirstRun(s, NotDigit))
  }

  /** A value with no digit at all gives NaN, which `up` reads as "no target". */
  lemma TimestampWithoutDigits(s: string)
    requires forall i :: 0 <= i < |s| ==> !IsDigit(s[i])
    ensures Timestamp(s).NaN?
    ensures !Settings.Active(Settings.Given(Timestamp(s)))
  {
    var t := DeleteFirstRun(s, NotDigit);
    DeleteFirstRunAt(s, NotDigit, 0);
    assert t == s[RunLength(s, NotDigit)..];
    assert t == [];
  }

  /** A value that starts with a digit: the first run of non-digits after the
      leading digits is dropped and the digits that follow it are read on,
      up to the next non-digit. */
  lemma TimestampLeadingDigits(s: string)
    requires s != [] && IsDigit(s[0])
    ensures var t := DeleteFirstRun(s, NotDigit);
      t != [] && IsDigit(t[0]) && Timestamp(s) == Int(DigitsValue(t[..DigitRun(t)]))
  {
    var k := DigitRun(s);
    DeleteFirstRunAt(s, NotDigit, k);
    var t := DeleteFirstRun(s, NotDigit);
    var u := s[k..];
    var m := RunLength(u, NotDigit);
    if k < |s| {
      assert NotDigit(u[0]);
      assert DeleteFirstRun(u, NotDigit) == u[m..];
    }
    assert u[m..] == s[k + m..];
    assert t == s[..k] + s[k + m..];
    assert t[0] == s[0];
    if |t| >= 2 {
      if k >= 2 {
        assert t[1] == s[1];
      } else {
        assert k + m < |s| ==> IsDigit(s[k + m]);
        assert t[1] == s[k + m];
      }
    }
    ParseIntDecimal(t);
  }

  /** A timestamp written the way `create` writes it reads back as itself. */
  lemma TimestampOfNumber(n: nat)
    ensures Timestamp(NatToString(n)) == Int(n)
  {
    var s := NatToString(n);
    DeleteFirstRunNone(s, NotDigit);
    assert DigitRun(s) == |s|;
    assert s[..|s|] == s;
    NatToStringRoundTrip(n);
    if |s| >= 2 {
      assert IsDigit(s[1]);
    }
    ParseIntDecimal(s);
  }

  /** Only the first run of separators goes: `"12-34-56"` reads as 1234. */
  lemma TimestampExample()
    ensures Timestamp("12-34-56") == Int(1234)
  {
    FirstSeparatorGoes();
    ReadsLeadingDigits();
  }

  lemma FirstSeparatorGoes()
    ensures DeleteFirstRun("12-34-56", NotDigit) == "1234-56"
  {
    var s := "12-34-56";
    DeleteFirstRunAt(s, NotDigit, 2);
    assert s[2..] == "-34-56";
    assert RunLength("-34-56", NotDigit) == 1;
    assert DeleteFirstRun("-34-56", NotDigit) == "34-56";
    assert s[..2] + "34-56" == "1234-56";
  }

  lemma ReadsLeadingDigits()
    ensures ParseInt("1234-56") == Int(1234)
  {
    var t := "1234-56";
    assert t == "1234" + "-56";
    DigitRunOfPrefix("1234", "-56");
    assert t[..4] == "1234";
    ParseIntDecimal(t);
    DigitsOf1234();
  }

  lemma DigitsOf1234()
    ensures DigitsValue("1234") == 1234
  {
    assert "1234"[..3] == "123";
    assert "123"[..2] == "12";
    assert "12"[..1] == "1";
    assert "1"[..0] == "";
  }

  // ----- migTable

  predicate IsAsciiUpper(c: char) {
    'A' <= c <= 'Z'
  }

  predicate NoUpper(s: string) {
    forall i :: 0 <= i < |s| ==> !IsAsciiUpper(s[i])
  }

  /** `toLowerCase` on ASCII letters. */
  function LowerChar(c: char): (r: char)
    ensures !IsAsciiUpper(r)
    ensures !IsAsciiUpper(c) ==> r == c
  {
    if IsAsciiUpper(c) then (c as int - 'A' as int + 'a' as int) as char else c
  }

  function Lower(s: string): (r: string)
    ensures |r| == |s| && forall i :: 0 <= i < |s| ==> r[i] == LowerChar(s[i])
  {
    if s == [] then [] else [LowerChar(s[0])] + Lower(s[1..])
  }

  /** The characters `[0-9a-z_]` that a table name keeps. */
  predicate IsTableChar(c: char) {
    IsDigit(c) || ('a' <= c <= 'z') || c == '_'
  }

  predicate NotTableChar(c: char) {
    !IsTableChar(c)
  }

  /** `migTable(name)` as written: lower-case, then
      `replace(/[^0-9a-z_]+/, "")`, which has no g flag. */
  function MigTable(name: string): string {
    DeleteFirstRun(Lower(name), NotTableChar)
  }

  /** Deleting characters never brings an upper-case ASCII letter back. */
  lemma {:induction false} DeleteFirstRunKeepsLower(s: string, drop: char -> bool)
    requires NoUpper(s)
    ensures NoUpper(DeleteFirstRun(s, drop))
  {
    var r := DeleteFirstRun(s, drop);
    if s != [] {
      if drop(s[0]) {
        var k := RunLength(s, drop);
        assert r == s[k..];
        forall i | 0 <= i < |r| ensures !IsAsciiUpper(r[i]) {
          assert r[i] == s[k + i];
        }
      } else {
        var t := s[1..];
        assert forall i :: 0 <= i < |t| ==> t[i] == s[i + 1];
        DeleteFirstRunKeepsLower(t, drop);
        var rest := DeleteFirstRun(t, drop);
        assert r == [s[0]] + rest;
        forall i | 0 <= i < |r| ensures !IsAsciiUpper(r[i]) {
          if i > 0 {
            assert r[i] == rest[i - 1];
          }
        }
      }
    }
  }

  /** The table name has no upper-case ASCII letter. */
  lemma MigTableIsLower(name: string)
    ensures NoUpper(MigTable(name))
  {
    var l := Lower(name);
    assert NoUpper(l);
    DeleteFirstRunKeepsLower(l, NotTableChar);
  }

  /** A name already made of `[0-9a-z_]` is kept as it is. */
  lemma MigTableKeepsTableNames(name: string)
    requires forall i :: 0 <= i < |name| ==> IsTableChar(name[i])
    ensures MigTable(name) == name
  {
    assert Lower(name) == name;
    DeleteFirstRunNone(name, NotTableChar);
  }

  /** Only the first run of other characters is removed: `"a-b-c"` becomes
      `"ab-c"`, which still holds a `-`. */
  lemma MigTableKeepsLaterRuns()
    ensures MigTable("a-b-c") == "ab-c"
  {
    assert Lower("a-b-c") == "a-b-c";
    var s := "a-b-c";
    DeleteFirstRunAt(s, NotTableChar, 1);
    assert s[1..] == "-b-c";
    assert RunLength("-b-c", NotTableChar) == 1;
    assert DeleteFirstRun("-b-c", NotTableChar) == "b-c";
    assert s[..1] + "b-c" == "ab-c";
  }

  /** `migTable` with the g flag: every character outside `[0-9a-z_]` goes. */
  function MigTableAll(name: string): (r: string)
    ensures |r| <= |name|
    ensures forall i :: 0 <= i < |r| ==> IsTableChar(r[i])
  {
    KeepTableChars(Lower(name))
  }

  function KeepTableChars(s: string): (r: string)
    ensures |r| <= |s|
    ensures forall i :: 0 <= i < |r| ==> IsTableChar(r[i])
  {
    if s == [] then []
    else if IsTableChar(s[0]) then [s[0]] + KeepTableChars(s[1..])
    else KeepTableChars(s[1..])
  }

  lemma {:induction false} KeepTableCharsKeeps(s: string)
    requires forall i :: 0 <= i < |s| ==> IsTableChar(s[i])
    ensures KeepTableChars(s) == s
  {
    if s != [] {
      KeepTableCharsKeeps(s[1..]);
      assert s == [s[0]] + s[1..];
    }
  }

  /** The corrected coercion keeps table names, is idempotent, and turns
      `"a-b-c"` into `"abc"`. */
  lemma MigTableAllSpec(name: string)
    ensures MigTableAll(MigTableAll(name)) == MigTableAll(name)
    ensures (forall i :: 0 <= i < |name| ==> IsTableChar(name[i])) ==> MigTableAll(name) == name
    ensures MigTableAll("a-b-c") == "abc"
  {
    var r := MigTableAll(name);
    assert Lower(r) == r;
    KeepTableCharsKeeps(r);
    if forall i :: 0 <= i < |name| ==> IsTableChar(name[i]) {
      assert Lower(name) == name;
      KeepTableCharsKeeps(name);
    }
    assert Lower("a-b-c") == "a-b-c";
  }

  // ----- report arithmetic

  /** `files.reduce((accu, file) => Math.max(accu, file.name.length), start)`. */
  function Width(files: seq<Descriptor>, start: int): (w: int)
  {
    if files == [] then start else Width(files[1..], Max(start, |files[0].name|))
  }

  /** The width is at least the start and every name's length, and is one of them. */
  lemma {:induction false} WidthSpec(files: seq<Descriptor>, start: int)
    ensures Width(files, start) >= start
    ensures forall d :: d in files ==> Width(files, start) >= |d.name|
    ensures Width(files, start) == start || exists d :: d in files && Width(files, start) == |d.name|
  {
    if files != [] {
      WidthSpec(files[1..], Max(start, |files[0].name|));
    }
  }

  /** The `up` report's column width. */
  function UpWidth(done: seq<Descriptor>): int { Width(done, 21) }

  /** The `list` report's column width. */
  function ListWidth(pending: seq<Descriptor>): int { Width(pending, 19) }

  /** Every `" ".repeat(len - name.length)` of both reports, and the padding
      of their last line, is given a count that is not negative. */
  lemma PaddingNonNegative(files: seq<Descriptor>)
    ensures forall d :: d in files ==> UpWidth(files) - |d.name| >= 0 && ListWidth(files) - |d.name| >= 0
    ensures UpWidth(files) - 21 >= 0 && ListWidth(files) - 19 >= 0
  {
    WidthSpec(files, 21);
    WidthSpec(files, 19);
  }

  /** The `list --history` footer: the pending count, the total
      `history + pending.length` (NaN when `history` is undefined) and the
      done count `history`. */
  datatype Footer = Footer(pending: nat, total: Numeric, done: JsValue)

  function ListFooter(pl: PendingList): Footer
    requires pl.history.Undefined? || pl.history.Number?
  {
    var total := if pl.history.Number? && pl.history.x.Int? then Int(pl.history.x.n + |pl.pending|) else NaN;
    Footer(|pl.pending|, total, pl.history)
  }

  /** On a database whose history is read through the "rows" key, the done
      count is the number of rows, and the total counts every recorded row
      plus every catalog file newer than all of them; on an empty history
      (the first `list -H` on a fresh table) that is 0 done out of the whole
      catalog. */
  lemma ListFooterCounts(s: State)
    requires s.options.queryMethod in s.db.methods && s.db.tableExists
    requires s.options.resultKey == "rows"
    ensures PendingOf(s).Ok? && PendingOf(s).value.history.Number?
    ensures var files := Catalog.Catalog(s.disk.listing);
      var f := ListFooter(PendingOf(s).value);
      && f.done == Number(Int(|s.db.rows|))
      && f.total == Int(|s.db.rows| + |if s.db.rows == [] then files else Newer(files, Newest(s.db.rows)[0])|)
  {
    PendingSpec(s);
  }
}
