/** FileCatalog: turning the entries of the migrations directory into
    migration descriptors ordered by timestamp (`_files`). */
module Catalog {
  import opened Text
  import opened Wrappers
  import opened Sorting

  /** One migration file: `filename` is the entry without `.js`, `ts` the
      number in front of the first `_`, `name` what follows it. */
  datatype Descriptor = Descriptor(filename: string, ts: nat, name: string)

  function Ts(d: Descriptor): int { d.ts }

  /** The entry test `/^[0-9]+_.+\.js$/`, with the digit run read up to its end. */
  predicate IsMigrationEntry(s: string) {
    var k := DigitRun(s);
    k > 0 && |s| >= k + 5 && s[k] == '_' && s[|s| - 3..] == ".js" && NoLineTerminator(s[k + 1..|s| - 3])
  }

  /** The same test written as the regular expression reads: some non-empty run
      of digits, an underscore, at least one character other than a line
      terminator, and `.js` at the very end. */
  ghost predicate RegexMatches(s: string) {
    exists i {:trigger s[..i]} :: 0 < i && i + 5 <= |s| && AllDigits(s[..i]) && s[i] == '_'
      && s[|s| - 3..] == ".js" && NoLineTerminator(s[i + 1..|s| - 3])
  }

  lemma EntryTestIsRegex(s: string)
    ensures IsMigrationEntry(s) <==> RegexMatches(s)
  {
    var k := DigitRun(s);
    if IsMigrationEntry(s) {
      assert AllDigits(s[..k]);
    }
    if RegexMatches(s) {
      var i :| 0 < i && i + 5 <= |s| && AllDigits(s[..i]) && s[i] == '_'
        && s[|s| - 3..] == ".js" && NoLineTerminator(s[i + 1..|s| - 3]);
      assert s == s[..i] + s[i..];
      DigitRunOfPrefix(s[..i], s[i..]);
    }
  }

  /** The descriptor `_files` builds for one entry, or None when the entry is filtered out. */
  function ParseEntry(s: string): (r: Option<Descriptor>)
    ensures r.Some? <==> IsMigrationEntry(s)
    ensures r.Some? ==> s == r.value.filename + ".js"
    ensures r.Some? ==> r.value.filename == s[..DigitRun(s)] + "_" + r.value.name
    ensures r.Some? ==> r.value.ts == DigitsValue(s[..DigitRun(s)]) && r.value.name != []
  {
    if IsMigrationEntry(s) then
      var k := DigitRun(s);
      var d := Descriptor(s[..|s| - 3], DigitsValue(s[..k]), s[k + 1..|s| - 3]);
      assert s == d.filename + ".js";
      assert d.filename == s[..k] + "_" + d.name;
      Some(d)
    else None
  }

  /** The descriptors of the entries that pass the filter, in directory order. */
  function Parsed(entries: seq<string>): (r: seq<Descriptor>)
    ensures |r| <= |entries|
  {
    if entries == [] then []
    else
      var rest := Parsed(entries[1..]);
      match ParseEntry(entries[0])
      case Some(d) => [d] + rest
      case None => rest
  }

  /** Filtering entry by entry, as the loop of `_files` pushes them: one more
      entry adds its descriptor at the end, or nothing. */
  lemma {:induction false} ParsedSnoc(entries: seq<string>, s: string)
    ensures Parsed(entries + [s])
      == Parsed(entries) + (if ParseEntry(s).Some? then [ParseEntry(s).value] else [])
  {
    if entries == [] {
      assert [] + [s] == [s];
    } else {
      assert (entries + [s])[1..] == entries[1..] + [s];
      ParsedSnoc(entries[1..], s);
    }
  }

  /** `_files`: the parsed entries sorted ascending by `ts`. */
  function Catalog(entries: seq<string>): seq<Descriptor>
  {
    SortBy(Parsed(entries), Ts)
  }

  predicate SortedByTs(files: seq<Descriptor>) {
    forall i, j :: 0 <= i < j < |files| ==> files[i].ts <= files[j].ts
  }

  lemma {:induction false} ParsedMembers(entries: seq<string>, d: Descriptor)
    ensures d in Parsed(entries) <==> exists s :: s in entries && ParseEntry(s) == Some(d)
  {
    if entries != [] {
      ParsedMembers(entries[1..], d);
      if d in Parsed(entries) && ParseEntry(entries[0]) != Some(d) {
        var s :| s in entries[1..] && ParseEntry(s) == Some(d);
        assert s in entries;
      }
      if exists s :: s in entries && ParseEntry(s) == Some(d) {
        var s :| s in entries && ParseEntry(s) == Some(d);
        if s != entries[0] {
          assert s in entries[1..];
        }
      }
    }
  }

  /** The catalog is ordered by timestamp, holds each parsed entry exactly as
      often as the directory does, and holds nothing else. */
  lemma CatalogSpec(entries: seq<string>)
    ensures SortedByTs(Catalog(entries))
    ensures multiset(Catalog(entries)) == multiset(Parsed(entries))
    ensures forall d :: d in Catalog(entries) <==> exists s :: s in entries && ParseEntry(s) == Some(d)
  {
    SortBySorted(Parsed(entries), Ts);
    SortByPermutes(Parsed(entries), Ts);
    forall d ensures d in Catalog(entries) <==> exists s :: s in entries && ParseEntry(s) == Some(d) {
      assert d in Catalog(entries) <==> d in multiset(Catalog(entries));
      assert d in Parsed(entries) <==> d in multiset(Parsed(entries));
      ParsedMembers(entries, d);
    }
  }

  /** The scaffold template and the SQL sub-directory are never catalogued. */
  lemma NonMigrationEntries()
    ensures ParseEntry("template.stub") == None
    ensures ParseEntry("sql") == None
  {
    assert DigitRun("template.stub") == 0;
    assert DigitRun("sql") == 0;
  }
}
