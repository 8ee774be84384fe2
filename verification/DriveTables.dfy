/**
 Drive's metadata tables (internal/drive/repository.go), each statement as one atomic operation with
 its WHERE clause and the foreign keys' cascades. Rows of one organisation.
 */
module DriveTables {
  import opened Wrappers

  type Id = nat
  type Key = nat

  /** A row of drive_files. A folder has no key. trashed is the time it was trashed at. */
  datatype File = File(parent: Option<Id>, mime: string, key: Option<Key>, trashed: Option<int>)

  /** A row of drive_file_versions, in order of insertion. */
  datatype Version = Version(id: Id, file: Id, key: Key, mime: string)

  datatype Tables = Tables(files: map<Id, File>, versions: seq<Version>)

  /** FolderMimeType. */
  const FOLDER: string := "application" + "/" + "vnd.grown.folder"

  // ---- Versions of one file ----------------------------------------------------------------------

  function Filtered(versions: seq<Version>, keep: Version -> bool): seq<Version> {
    if versions == [] then []
    else
      var rest := Filtered(versions[..|versions| - 1], keep);
      var last := versions[|versions| - 1];
      if keep(last) then rest + [last] else rest
  }

  function OtherThan(id: Id): Version -> bool { (v: Version) => v.id != id }

  function OfNone(files: set<Id>): Version -> bool { (v: Version) => v.file !in files }

  lemma {:induction false} FilteredHas(versions: seq<Version>, keep: Version -> bool, v: Version)
    ensures v in Filtered(versions, keep) <==> v in versions && keep(v)
  {
    if versions != [] {
      FilteredHas(versions[..|versions| - 1], keep, v);
      assert versions == versions[..|versions| - 1] + [versions[|versions| - 1]];
    }
  }

  /** The keys of a file's versions, with repetition. */
  function KeysOf(versions: seq<Version>, file: Id): multiset<Key> {
    if versions == [] then multiset{}
    else
      var last := versions[|versions| - 1];
      KeysOf(versions[..|versions| - 1], file) + if last.file == file then multiset{last.key} else multiset{}
  }

  lemma {:induction false} KeysOfHas(versions: seq<Version>, file: Id, key: Key)
    ensures key in KeysOf(versions, file) <==> exists v :: v in versions && v.file == file && v.key == key
  {
    if versions != [] {
      var init, last := versions[..|versions| - 1], versions[|versions| - 1];
      KeysOfHas(init, file, key);
      assert versions == init + [last];
    }
  }

  /** Deleting the only row with an id takes exactly its key away. */
  lemma {:induction false} KeysOfWithout(versions: seq<Version>, v: Version, file: Id)
    requires v in versions
    requires forall i, j :: 0 <= i < j < |versions| ==> versions[i].id != versions[j].id
    ensures KeysOf(versions, file) ==
            KeysOf(Filtered(versions, OtherThan(v.id)), file) + if v.file == file then multiset{v.key} else multiset{}
  {
    var init, last := versions[..|versions| - 1], versions[|versions| - 1];
    var keep := OtherThan(v.id);
    if last == v {
      NothingFiltered(init, keep);
    } else {
      assert v in init;
      KeysOfWithout(init, v, file);
      var rest := Filtered(init, keep);
      assert (rest + [last])[..|rest + [last]| - 1] == rest;
    }
  }

  lemma {:induction false} NothingFiltered(versions: seq<Version>, keep: Version -> bool)
    requires forall v :: v in versions ==> keep(v)
    ensures Filtered(versions, keep) == versions
  {
    if versions != [] {
      NothingFiltered(versions[..|versions| - 1], keep);
      assert versions == versions[..|versions| - 1] + [versions[|versions| - 1]];
    }
  }

  /** Everything of a file that can still be downloaded: its current blob and its versions' blobs. */
  function History(t: Tables, file: Id): multiset<Key>
    requires file in t.files
  {
    (if t.files[file].key.Some? then multiset{t.files[file].key.value} else multiset{}) + KeysOf(t.versions, file)
  }

  // ---- Statements --------------------------------------------------------------------------------

  /** INSERT INTO drive_files; None when the parent does not exist. */
  function InsertFile(t: Tables, id: Id, f: File): (r: Option<Tables>)
    requires id !in t.files
  {
    if f.parent.Some? && f.parent.value !in t.files then None else Some(t.(files := t.files[id := f]))
  }

  /** INSERT INTO drive_file_versions; None when the file does not exist. */
  function CreateVersion(t: Tables, v: Version): (r: Option<Tables>) {
    if v.file !in t.files then None else Some(t.(versions := t.versions + [v]))
  }

  /** UPDATE of the file's blob; None when the file is absent or trashed. */
  function ReplaceBlob(t: Tables, file: Id, key: Key, mime: string): (r: Option<Tables>) {
    if file !in t.files || t.files[file].trashed.Some? then None
    else Some(t.(files := t.files[file := t.files[file].(key := Some(key), mime := mime)]))
  }

  function DeleteVersion(t: Tables, version: Id): Tables {
    t.(versions := Filtered(t.versions, OtherThan(version)))
  }

  function Trash(t: Tables, file: Id, now: int): (r: Option<Tables>) {
    if file in t.files && t.files[file].trashed.None?
    then Some(t.(files := t.files[file := t.files[file].(trashed := Some(now))])) else None
  }

  function Untrash(t: Tables, file: Id): (r: Option<Tables>) {
    if file in t.files && t.files[file].trashed.Some?
    then Some(t.(files := t.files[file := t.files[file].(trashed := None)])) else None
  }

  function Move(t: Tables, file: Id, parent: Option<Id>): (r: Option<Tables>) {
    if file in t.files && (parent.Some? ==> parent.value in t.files)
    then Some(t.(files := t.files[file := t.files[file].(parent := parent)])) else None
  }

  /** What ON DELETE CASCADE takes along: children, their children, and so on; cycles included. */
  function Cascade(files: map<Id, File>, gone: set<Id>): (r: set<Id>)
    requires gone <= files.Keys
    ensures gone <= r <= files.Keys
    ensures forall f :: f in files && files[f].parent.Some? && files[f].parent.value in r ==> f in r
    decreases files.Keys - gone
  {
    var more := gone + set f | f in files && files[f].parent.Some? && files[f].parent.value in gone;
    if more == gone then gone else Cascade(files, more)
  }

  /** The cascade takes nothing that hangs below none of the deleted rows. */
  lemma {:induction false} CascadeIsLeast(files: map<Id, File>, gone: set<Id>, closed: set<Id>)
    requires gone <= files.Keys && gone <= closed
    requires forall f :: f in files && files[f].parent.Some? && files[f].parent.value in closed ==> f in closed
    ensures Cascade(files, gone) <= closed
    decreases files.Keys - gone
  {
    var more := gone + set f | f in files && files[f].parent.Some? && files[f].parent.value in gone;
    if more != gone {
      CascadeIsLeast(files, more, closed);
    }
  }

  /** DELETE FROM drive_files, with the cascades to children and to versions. */
  function DeleteRows(t: Tables, rows: set<Id>): (r: Tables)
    requires rows <= t.files.Keys
  {
    var gone := Cascade(t.files, rows);
    Tables(t.files - gone, Filtered(t.versions, OfNone(gone)))
  }

  /** The rows PurgeTrashedOlderThan deletes. */
  function Purged(t: Tables, cutoff: int): (r: set<Id>)
    ensures r <= t.files.Keys
  {
    set f | f in t.files && t.files[f].trashed.Some? && t.files[f].trashed.value < cutoff
  }

  /** The storage keys of rows, as the DELETE returns them. */
  function KeysIn(t: Tables, rows: set<Id>): set<Key>
    requires rows <= t.files.Keys
  {
    set f | f in rows && t.files[f].key.Some? :: t.files[f].key.value
  }
}
