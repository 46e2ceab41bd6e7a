/** Reconciler: the high-water-mark cut of `pending` (the `findIndex`/`slice`
    at the heart of it). */
module Reconcile {
  import opened Catalog

  /** `files.findIndex(file => file.ts > bound)`, searching from `from`. */
  function FindFrom(files: seq<Descriptor>, bound: int, from: nat): (i: int)
    requires from <= |files|
    ensures i == -1 || from <= i < |files|
    ensures i >= 0 ==> files[i].ts > bound
    ensures forall j :: from <= j < (if i == -1 then |files| else i) ==> files[j].ts <= bound
    decreases |files| - from
  {
    if from == |files| then -1
    else if files[from].ts > bound then from
    else FindFrom(files, bound, from + 1)
  }

  function FindIndex(files: seq<Descriptor>, bound: int): int {
    FindFrom(files, bound, 0)
  }

  /** The pending list of `pending`: with no recorded timestamp the whole
      catalog; otherwise the catalog from the first file newer than `latest[0]`
      on, or nothing when there is none. `latest` is the recorded timestamps,
      newest first. */
  function Cut(files: seq<Descriptor>, latest: seq<int>): (r: seq<Descriptor>)
    ensures |r| <= |files| && r == files[|files| - |r|..]
    ensures latest == [] ==> r == files
    ensures latest != [] ==> forall j :: 0 <= j < |files| - |r| ==> files[j].ts <= latest[0]
    ensures latest != [] && r != [] ==> r[0].ts > latest[0]
  {
    var idx := if |latest| > 0 then FindIndex(files, latest[0]) else 0;
    if idx >= 0 then files[idx..] else []
  }

  /** The files strictly newer than `bound`, in catalog order: a reference
      definition that looks at every file instead of cutting once. */
  function Newer(files: seq<Descriptor>, bound: int): seq<Descriptor> {
    if files == [] then []
    else if files[0].ts > bound then [files[0]] + Newer(files[1..], bound)
    else Newer(files[1..], bound)
  }

  lemma {:induction false} NewerOfOlder(files: seq<Descriptor>, bound: int)
    requires forall j :: 0 <= j < |files| ==> files[j].ts <= bound
    ensures Newer(files, bound) == []
  {
    if files != [] {
      NewerOfOlder(files[1..], bound);
    }
  }

  lemma {:induction false} NewerOfNewer(files: seq<Descriptor>, bound: int)
    requires forall j :: 0 <= j < |files| ==> files[j].ts > bound
    ensures Newer(files, bound) == files
  {
    if files != [] {
      NewerOfNewer(files[1..], bound);
    }
  }

  lemma {:induction false} NewerAppend(a: seq<Descriptor>, b: seq<Descriptor>, bound: int)
    ensures Newer(a + b, bound) == Newer(a, bound) + Newer(b, bound)
  {
    if a != [] {
      assert (a + b)[1..] == a[1..] + b;
      NewerAppend(a[1..], b, bound);
    } else {
      assert a + b == b;
    }
  }

  /** On a catalog sorted by timestamp, the single cut yields exactly the files
      newer than the newest recorded timestamp. */
  lemma CutIsNewer(files: seq<Descriptor>, latest: seq<int>)
    requires SortedByTs(files)
    requires latest != []
    ensures Cut(files, latest) == Newer(files, latest[0])
  {
    var r := Cut(files, latest);
    var k := |files| - |r|;
    assert files == files[..k] + r;
    NewerAppend(files[..k], r, latest[0]);
    NewerOfOlder(files[..k], latest[0]);
    if r != [] {
      assert forall j :: 0 <= j < |r| ==> r[j] == files[k + j];
    }
    NewerOfNewer(r, latest[0]);
  }

  /** The known limitation: every pending file is newer than the mark, so a
      file whose timestamp is not above it is never pending, whether or not it
      was ever applied. */
  lemma PendingAreNewer(files: seq<Descriptor>, latest: seq<int>)
    requires SortedByTs(files)
    requires latest != []
    ensures forall d :: d in Cut(files, latest) ==> d in files && d.ts > latest[0]
  {
    CutIsNewer(files, latest);
    forall d | d in Cut(files, latest) ensures d in files && d.ts > latest[0] {
      NewerAreNewer(files, latest[0], d);
    }
  }

  lemma {:induction false} NewerAreNewer(files: seq<Descriptor>, bound: int, d: Descriptor)
    requires d in Newer(files, bound)
    ensures d.ts > bound && d in files
  {
    if files[0].ts > bound && d != files[0] {
      NewerAreNewer(files[1..], bound, d);
    } else if files[0].ts <= bound {
      NewerAreNewer(files[1..], bound, d);
    }
  }

  /** When no file is newer than the mark, nothing is pending. */
  lemma NothingNewerNothingPending(files: seq<Descriptor>, latest: seq<int>)
    requires latest != []
    requires forall j :: 0 <= j < |files| ==> files[j].ts <= latest[0]
    ensures Cut(files, latest) == []
  {
  }
}
