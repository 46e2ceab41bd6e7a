/** Scaffolder naming: the default name, the sanitiser and the `<ts>_<name>`
    identifier that `create` builds, and how `_files` reads it back. */
module Scaffold {
  import opened Wrappers
  import opened Text
  import opened Catalog

  const DefaultName: string := "unnamed"

  /** `if (!name) name = "unnamed"`: the empty string is the falsy name. */
  function Defaulted(name: string): (r: string)
    ensures r != []
    ensures name != [] ==> r == name
    ensures name == [] ==> r == DefaultName
  {
    if name == [] then DefaultName else name
  }

  predicate IsAsciiLetter(c: char) {
    ('a' <= c <= 'z') || ('A' <= c <= 'Z')
  }

  /** The characters `/[^0-9a-z_\- ]+/ig` keeps. */
  predicate IsNameChar(c: char) {
    IsDigit(c) || IsAsciiLetter(c) || c == '_' || c == '-' || c == ' '
  }

  /** The characters a sanitised name is made of. */
  predicate IsIdChar(c: char) {
    IsDigit(c) || IsAsciiLetter(c) || c == '_' || c == '-'
  }

  predicate AllIdChars(s: string) {
    forall i :: 0 <= i < |s| ==> IsIdChar(s[i])
  }

  /** `replace(/[^0-9a-z_\- ]+/ig, "")`: with the g flag every disallowed
      character goes. */
  function Strip(s: string): (r: string)
    ensures |r| <= |s|
    ensures forall i :: 0 <= i < |r| ==> IsNameChar(r[i])
  {
    if s == [] then []
    else if IsNameChar(s[0]) then [s[0]] + Strip(s[1..])
    else Strip(s[1..])
  }

  /** Strip works character by character: a kept character stays, a
      disallowed one goes. */
  lemma StripChar(c: char)
    ensures Strip([c]) == if IsNameChar(c) then [c] else []
  {
    assert [c][1..] == [];
  }

  /** Strip distributes over concatenation, so with StripChar it keeps
      exactly the allowed characters, in order. */
  lemma {:induction false} StripAppend(a: string, b: string)
    ensures Strip(a + b) == Strip(a) + Strip(b)
  {
    if a == [] {
      assert a + b == b;
    } else {
      assert (a + b)[1..] == a[1..] + b;
      StripAppend(a[1..], b);
    }
  }

  /** `replace(/\s+/g, "-")`: every maximal run of white space becomes one `-`. */
  function Hyphenate(s: string): string {
    CollapseRuns(s, IsJsSpace, '-')
  }

  /** Text without white space goes through Hyphenate unchanged. */
  lemma HyphenateNoSpace(s: string)
    requires forall i :: 0 <= i < |s| ==> !IsJsSpace(s[i])
    ensures Hyphenate(s) == s
  {
    CollapseRunsNone(s, IsJsSpace, '-');
  }

  /** One maximal run of white space between `w` and `q` becomes exactly one
      `-`, and both sides are hyphenated on their own; with HyphenateNoSpace
      this pins Hyphenate down on every input. */
  lemma HyphenateRun(w: string, sp: string, q: string)
    requires w == [] || !IsJsSpace(w[|w| - 1])
    requires sp != [] && forall i :: 0 <= i < |sp| ==> IsJsSpace(sp[i])
    requires q == [] || !IsJsSpace(q[0])
    ensures Hyphenate(w + sp + q) == Hyphenate(w) + "-" + Hyphenate(q)
  {
    CollapseRunsSplit(w, sp, q, IsJsSpace, '-');
  }

  /** The two replacements of `create`, in order. */
  function Sanitize(s: string): string {
    Hyphenate(Strip(s))
  }

  /** A sanitised name contains only `[0-9A-Za-z_-]`. */
  lemma SanitizeCharset(s: string)
    ensures AllIdChars(Sanitize(s))
  {
    var t := Strip(s);
    var r := Hyphenate(t);
    CollapseRunsCharset(t, IsJsSpace, '-');
    forall i | 0 <= i < |r| ensures IsIdChar(r[i]) {
      if r[i] != '-' {
        assert r[i] in r;
        var j :| 0 <= j < |t| && t[j] == r[i];
        assert IsNameChar(t[j]) && !IsJsSpace(r[i]);
      }
    }
  }

  /** Names already made of `[0-9A-Za-z_-]` pass through unchanged. */
  lemma {:induction false} StripKeepsIdChars(s: string)
    requires AllIdChars(s)
    ensures Strip(s) == s
  {
    if s != [] {
      StripKeepsIdChars(s[1..]);
      assert s == [s[0]] + s[1..];
    }
  }

  lemma SanitizeKeepsIdChars(s: string)
    requires AllIdChars(s)
    ensures Sanitize(s) == s
  {
    StripKeepsIdChars(s);
    HyphenateNoSpace(s);
  }

  /** Sanitising twice is sanitising once (the retry of `create` passes the
      already sanitised name back through both replacements). */
  lemma SanitizeIdempotent(s: string)
    ensures Sanitize(Sanitize(s)) == Sanitize(s)
  {
    SanitizeCharset(s);
    SanitizeKeepsIdChars(Sanitize(s));
  }

  /** The sanitised name is empty exactly when the name holds none of
      `[0-9A-Za-z_\- ]`. */
  lemma SanitizeEmpty(s: string)
    ensures Sanitize(s) == [] <==> forall i :: 0 <= i < |s| ==> !IsNameChar(s[i])
  {
    CollapseRunsEmpty(Strip(s), IsJsSpace, '-');
    StripEmpty(s);
  }

  lemma {:induction false} StripEmpty(s: string)
    ensures Strip(s) == [] <==> forall i :: 0 <= i < |s| ==> !IsNameChar(s[i])
  {
    if s != [] {
      StripEmpty(s[1..]);
      assert forall i :: 1 <= i < |s| ==> s[i] == s[1..][i - 1];
    }
  }

  /** `${ts}_${name}`. */
  function Id(ts: nat, name: string): string {
    NatToString(ts) + "_" + name
  }

  /** The name `create` settles on for a requested name: defaulted, then
      sanitised. */
  function FirstName(name: string): (r: string)
    ensures AllIdChars(r)
  {
    SanitizeCharset(Defaulted(name));
    Sanitize(Defaulted(name))
  }

  /** What a retry does to the name it is handed: a sanitised name comes back
      unchanged, except the empty one, which the defaulting turns into
      `unnamed`; after that, further retries change nothing. */
  lemma RetryName(name: string)
    requires AllIdChars(name)
    ensures Sanitize(Defaulted(name)) == if name == [] then DefaultName else name
    ensures Sanitize(Defaulted(Sanitize(Defaulted(name)))) == Sanitize(Defaulted(name))
  {
    SanitizeKeepsIdChars(DefaultName);
    SanitizeKeepsIdChars(Defaulted(name));
  }

  /** The round trip between `create` and `_files`: the `.js` file created for
      a non-empty sanitised name is read back as that identifier, timestamp
      and name. */
  lemma IdRoundTrip(ts: nat, name: string)
    requires name != [] && AllIdChars(name)
    ensures ParseEntry(Id(ts, name) + ".js") == Some(Descriptor(Id(ts, name), ts, name))
  {
    var digits := NatToString(ts);
    var s := Id(ts, name) + ".js";
    assert s == digits + ("_" + name + ".js");
    DigitRunOfPrefix(digits, "_" + name + ".js");
    assert s[..|digits|] == digits;
    NatToStringRoundTrip(ts);
    assert s[|digits| + 1..|s| - 3] == name;
    assert NoLineTerminator(name) by {
      forall i | 0 <= i < |name| ensures !IsLineTerminator(name[i]) {
        assert IsIdChar(name[i]);
      }
    }
    assert IsMigrationEntry(s);
  }

  /** The leading number of an entry, or 0 without one. */
  function Lead(s: string): nat {
    DigitsValue(s[..DigitRun(s)])
  }

  /** The leading number of an identifier's file is its timestamp. */
  lemma IdLead(ts: nat, name: string)
    ensures Lead(Id(ts, name) + ".js") == ts
  {
    var digits := NatToString(ts);
    var s := Id(ts, name) + ".js";
    assert s == digits + ("_" + name + ".js");
    DigitRunOfPrefix(digits, "_" + name + ".js");
    assert s[..|digits|] == digits;
    NatToStringRoundTrip(ts);
  }

  /** A name that sanitises to nothing yields `<ts>_.js`, which `_files` does
      not list. */
  lemma EmptyNameInvisible(ts: nat)
    ensures ParseEntry(Id(ts, "") + ".js") == None
  {
    var digits := NatToString(ts);
    var s := Id(ts, "") + ".js";
    assert s == digits + "_.js";
    DigitRunOfPrefix(digits, "_.js");
  }
}
