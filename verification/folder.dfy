/** The migrations folder: its entries in directory-listing order, the files
    directly inside it, and its `sql` sub-folder. */
module Folder {
  const TemplateName: string := "template.stub"
  const SqlDirName: string := "sql"
  const SqlPlaceholder: string := "-- SQL"

  /** Stands for the module source that `init` writes into the template; its
      JavaScript text is not part of this model. */
  const StubText: string := "<migration module stub>"

  /** `present`: whether the folder itself exists; `listing`: what `readdir` returns, in order;
      `files`: the contents of the regular files in the folder; `sqlDir`: the
      `sql` sub-folder; `sqlFiles`: the contents of the files inside it. */
  datatype Disk = Disk(
    present: bool,
    listing: seq<string>,
    files: map<string, string>,
    sqlDir: bool,
    sqlFiles: map<string, string>)

  /** The listing names every file and the sub-folder exactly once, and
      nothing is inside a folder that does not exist. */
  ghost predicate Valid(d: Disk) {
    && (forall i, j :: 0 <= i < j < |d.listing| ==> d.listing[i] != d.listing[j])
    && (forall e :: e in d.listing <==> e in d.files || (d.sqlDir && e == SqlDirName))
    && SqlDirName !in d.files
    && (!d.present ==> d.listing == [] && !d.sqlDir)
    && (!d.sqlDir ==> d.sqlFiles == map[])
  }

  /** A folder that does not exist yet. */
  const Missing: Disk := Disk(false, [], map[], false, map[])

  /** `fs.promises.writeFile` (and `copyFile`) into the folder: a new name is
      appended to the listing, an existing one keeps its place. */
  function Put(d: Disk, name: string, text: string): (r: Disk)
    requires Valid(d) && d.present && name != SqlDirName
    ensures Valid(r) && r.present && r.sqlDir == d.sqlDir && r.sqlFiles == d.sqlFiles
    ensures r.files == d.files[name := text]
    ensures forall e :: e in d.listing ==> e in r.listing
  {
    d.(listing := if name in d.files then d.listing else d.listing + [name],
       files := d.files[name := text])
  }

  /** A `.js` file is never the `sql` sub-folder. */
  lemma JsIsNotSqlDir(id: string)
    ensures id + ".js" != SqlDirName
  {
    if |id| == 0 {
      assert (id + ".js")[0] == '.';
    } else {
      assert |id + ".js"| > 3;
    }
  }

  /** The `try { mkdir(dir); mkdir(dir/sql) } catch {}` of `init`: the second
      call is reached only when the first one succeeded, i.e. when the folder
      did not exist before. */
  function MakeDirs(d: Disk): (r: Disk)
    requires Valid(d)
    ensures Valid(r) && r.present
    ensures r.files == d.files && r.sqlFiles == d.sqlFiles
    ensures r.sqlDir <==> d.sqlDir || !d.present
  {
    if d.present then d
    else d.(present := true, listing := d.listing + [SqlDirName], sqlDir := true)
  }

  /** The folder work of `init`: the directories, then the template when absent. */
  function InitDisk(d: Disk): Disk
    requires Valid(d)
  {
    var m := MakeDirs(d);
    if TemplateName in m.files then m else Put(m, TemplateName, StubText)
  }

  /** What `init` leaves on disk: the folder exists with its template; an
      existing template is never overwritten; no other file changes; and
      `sql` exists afterwards exactly when it existed before or the folder
      itself had to be created. */
  lemma InitDiskSpec(d: Disk)
    requires Valid(d)
    ensures var r := InitDisk(d);
      && Valid(r) && r.present
      && TemplateName in r.files
      && (TemplateName in d.files ==> r.files == d.files)
      && (TemplateName !in d.files ==> r.files == d.files[TemplateName := StubText])
      && (r.sqlDir <==> d.sqlDir || !d.present)
      && r.sqlFiles == d.sqlFiles
  {
  }

  /** Running the folder work a second time changes nothing. */
  lemma InitDiskIdempotent(d: Disk)
    requires Valid(d)
    ensures InitDisk(d).present && InitDisk(InitDisk(d)) == InitDisk(d)
  {
  }

  /** A folder that exists with its template is left exactly as it is. */
  lemma InitDiskKeepsReady(d: Disk)
    requires Valid(d) && d.present && TemplateName in d.files
    ensures InitDisk(d) == d
  {
  }

  /** An existing folder without `sql` does not get one: both `mkdir` calls
      share one `try`, and the first fails. */
  lemma NoSqlDirInExistingFolder(d: Disk)
    requires Valid(d) && d.present && !d.sqlDir
    ensures !InitDisk(d).sqlDir
  {
  }

  /** From nothing, `init` creates the folder, `sql` and the template. */
  lemma InitFromMissing()
    ensures InitDisk(Missing) ==
      Disk(true, [SqlDirName, TemplateName], map[TemplateName := StubText], true, map[])
  {
  }
}
