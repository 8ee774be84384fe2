/**
 Drive's handlers (internal/drive/service.go), each from start to end with no other request between
 its effects. Faults say which effects fail.
 */
module DriveService {
  import opened Wrappers
  import opened DriveTables

  type Content = string

  datatype Status = OK | NotFound | InvalidArgument | Internal | DataLoss

  datatype UploadFaults = UploadFaults(put: bool, read: bool, snapshot: bool, write: bool, rollback: bool)
  datatype CopyFaults = CopyFaults(read: bool, getBlob: bool, put: bool, insert: bool, rollback: bool)
  datatype RestoreFaults = RestoreFaults(readVersion: bool, read: bool, snapshot: bool, replace: bool, tidy: bool)

  // ---- What a handler that succeeds does to the tables -------------------------------------------

  /** The current blob, if the file has one, as a version with the given id. */
  function Snapshotted(t: Tables, file: Id, id: Id): (u: Tables)
    requires file in t.files
    ensures u.files == t.files
  {
    var f := t.files[file];
    if f.key.Some? then t.(versions := t.versions + [Version(id, file, f.key.value, f.mime)]) else t
  }

  /** Save the current blob, then make key current. */
  function Replaced(t: Tables, file: Id, key: Key, mime: string, id: Id, saved: bool): Tables
    requires file in t.files && t.files[file].trashed.None?
  {
    var u := if saved then Snapshotted(t, file, id) else t;
    u.(files := t.files[file := t.files[file].(key := Some(key), mime := mime)])
  }

  /** A restored version becomes current, the current blob a version. */
  function Restored(t: Tables, v: Version, id: Id, tidied: bool): Tables
    requires v.file in t.files && t.files[v.file].trashed.None?
  {
    var u := Replaced(t, v.file, v.key, v.mime, id, true);
    if tidied then DeleteVersion(u, v.id) else u
  }

  /** The tables a restore that has read its version leaves, wherever it fails. */
  function AfterVersionRead(t: Tables, v: Version, id: Id, faults: RestoreFaults): Tables {
    if faults.read || faults.snapshot || v.file !in t.files || t.files[v.file].key.None? then t
    else if faults.replace || t.files[v.file].trashed.Some? then Snapshotted(t, v.file, id)
    else Restored(t, v, id, !faults.tidy)
  }

  /** The tables a restore of the version in the given row leaves. */
  function AfterRestore(t: Tables, file: Id, index: Option<nat>, id: Id, faults: RestoreFaults): Tables
    requires index.Some? ==> index.value < |t.versions|
  {
    if faults.readVersion || index.None? || t.versions[index.value].file != file then t
    else AfterVersionRead(t, t.versions[index.value], id, faults)
  }

  predicate UniqueIds(versions: seq<Version>) {
    forall i, j :: 0 <= i < j < |versions| ==> versions[i].id != versions[j].id
  }

  /** Replacing adds the new blob to what the file holds and takes nothing away, if the current blob was
      saved; otherwise exactly the current blob goes. Other files keep what they hold. */
  lemma ReplaceAddsOne(t: Tables, file: Id, key: Key, mime: string, id: Id, saved: bool)
    requires file in t.files && t.files[file].trashed.None?
    ensures var u := Replaced(t, file, key, mime, id, saved);
            && History(u, file) ==
               (if saved || t.files[file].key.None? then History(t, file)
                else History(t, file) - multiset{t.files[file].key.value}) + multiset{key}
            && forall g :: g in t.files && g != file ==>
                 g in u.files && u.files[g] == t.files[g] && History(u, g) == History(t, g)
  {
    hide KeysOf;
    if saved && t.files[file].key.Some? {
      KeysOfLast(t.versions, Version(id, file, t.files[file].key.value, t.files[file].mime), file);
    }
    forall g | g in t.files && g != file
      ensures var u := Replaced(t, file, key, mime, id, saved);
              g in u.files && u.files[g] == t.files[g] && History(u, g) == History(t, g)
    {
      ReplaceKeepsOthers(t, file, key, mime, id, saved, g);
    }
  }

  lemma ReplaceKeepsOthers(t: Tables, file: Id, key: Key, mime: string, id: Id, saved: bool, other: Id)
    requires file in t.files && t.files[file].trashed.None? && other in t.files && other != file
    ensures var u := Replaced(t, file, key, mime, id, saved);
            other in u.files && u.files[other] == t.files[other] && History(u, other) == History(t, other)
  {
    hide KeysOf;
    if saved && t.files[file].key.Some? {
      KeysOfLast(t.versions, Version(id, file, t.files[file].key.value, t.files[file].mime), other);
    }
  }

  /** Restoring conserves what the file holds: the same blobs, each as often as before. */
  lemma RestoreConserves(t: Tables, v: Version, id: Id, tidied: bool)
    requires v in t.versions && v.file in t.files && t.files[v.file].trashed.None? && t.files[v.file].key.Some?
    requires UniqueIds(t.versions) && forall w :: w in t.versions ==> w.id < id
    ensures var u := Restored(t, v, id, tidied);
            && v.file in u.files && u.files[v.file].key == Some(v.key)
            && History(u, v.file) == History(t, v.file) + (if tidied then multiset{} else multiset{v.key})
            && forall g :: g in t.files && g != v.file ==>
               g in u.files && u.files[g] == t.files[g] && History(u, g) == History(t, g)
  {
    hide KeysOf, Filtered;
    var u := Restored(t, v, id, tidied);
    var r := Replaced(t, v.file, v.key, v.mime, id, true);
    ReplaceAddsOne(t, v.file, v.key, v.mime, id, true);
    if tidied {
      assert v in r.versions;
      KeysOfWithout(r.versions, v, v.file);
      assert History(r, v.file) == History(u, v.file) + multiset{v.key};
      assert (History(t, v.file) + multiset{v.key}) - multiset{v.key} == History(t, v.file);
      assert (History(u, v.file) + multiset{v.key}) - multiset{v.key} == History(u, v.file);
      forall g | g in t.files && g != v.file
        ensures History(Restored(t, v, id, tidied), g) == History(t, g)
      {
        KeysOfWithout(r.versions, v, g);
      }
    }
  }

  /** Restoring the snapshot a restore made gives the file row back as it was, and the version as a row
      with a new id. */
  lemma RestoreBack(t: Tables, v: Version, id: Id, next: Id)
    requires v in t.versions && v.file in t.files && t.files[v.file].trashed.None? && t.files[v.file].key.Some?
    requires UniqueIds(t.versions) && (forall w :: w in t.versions ==> w.id < id) && id < next
    ensures var f := t.files[v.file];
            var snapshot := Version(id, v.file, f.key.value, f.mime);
            var u := Restored(t, v, id, true);
            && snapshot in u.versions
            && var back := Restored(u, snapshot, next, true);
               && back.files == t.files
               && back.versions == Filtered(t.versions, OtherThan(v.id)) + [v.(id := next)]
               && History(back, v.file) == History(t, v.file)
  {
    hide KeysOf, Filtered;
    var f := t.files[v.file];
    var snapshot := Version(id, v.file, f.key.value, f.mime);
    var kept := Filtered(t.versions, OtherThan(v.id));
    var u := Restored(t, v, id, true);
    assert u.versions == kept + [snapshot] by { FilteredLast(t.versions, snapshot, v.id); }
    var row := Version(next, v.file, v.key, v.mime);
    var saved := kept + [snapshot] + [row];
    var back := Restored(u, snapshot, next, true);
    assert back.versions == kept + [row] by {
      FilteredLast(kept + [snapshot], row, id);
      FilteredLast(kept, snapshot, id);
      forall w | w in kept
        ensures OtherThan(id)(w)
      {
        FilteredHas(t.versions, OtherThan(v.id), w);
      }
      NothingFiltered(kept, OtherThan(id));
    }
    assert back.files == t.files;
    assert History(back, v.file) == History(t, v.file) by {
      KeysOfWithout(t.versions, v, v.file);
      KeysOfLast(kept, row, v.file);
    }
  }

  lemma FilteredLast(versions: seq<Version>, last: Version, id: Id)
    ensures Filtered(versions + [last], OtherThan(id)) ==
            if last.id != id then Filtered(versions, OtherThan(id)) + [last] else Filtered(versions, OtherThan(id))
  {
    assert (versions + [last])[..|versions|] == versions;
  }

  lemma KeysOfLast(versions: seq<Version>, last: Version, file: Id)
    ensures KeysOf(versions + [last], file) ==
            KeysOf(versions, file) + if last.file == file then multiset{last.key} else multiset{}
  {
    assert (versions + [last])[..|versions|] == versions;
  }

  // ---- What every handler keeps ------------------------------------------------------------------

  /** The blob is there, and named by this file only. */
  ghost predicate Stored(t: Tables, blobs: map<Key, Content>, file: Id, key: Key) {
    && key in blobs
    && (forall f :: f in t.files && t.files[f].key == Some(key) ==> f == file)
    && (forall v :: v in t.versions && v.key == key ==> v.file == file)
  }

  ghost predicate FileStored(t: Tables, blobs: map<Key, Content>, nextId: Id, f: Id)
    requires f in t.files
  {
    f < nextId && (t.files[f].key.Some? ==> Stored(t, blobs, f, t.files[f].key.value))
  }

  ghost predicate VersionStored(t: Tables, blobs: map<Key, Content>, nextId: Id, v: Version) {
    v.id < nextId && v.file in t.files && Stored(t, blobs, v.file, v.key)
  }

  ghost predicate Consistent(t: Tables, blobs: map<Key, Content>, nextKey: Key, nextId: Id) {
    && (forall f :: f in t.files ==> FileStored(t, blobs, nextId, f))
    && (forall v :: v in t.versions ==> VersionStored(t, blobs, nextId, v))
    && (forall k :: k in blobs ==> k < nextKey)
  }

  lemma PutKeeps(t: Tables, blobs: map<Key, Content>, nextKey: Key, nextId: Id, content: Content)
    requires Consistent(t, blobs, nextKey, nextId)
    ensures Consistent(t, blobs, nextKey + 1, nextId) && Consistent(t, blobs[nextKey := content], nextKey + 1, nextId)
    ensures nextKey !in blobs && blobs[nextKey := content] - {nextKey} == blobs
    ensures Unnamed(t, nextKey) && nextId !in t.files
  {
    forall f | f in t.files && t.files[f].key.Some?
      ensures t.files[f].key != Some(nextKey)
    {
      assert FileStored(t, blobs, nextId, f);
    }
    assert forall v :: v in t.versions ==> VersionStored(t, blobs, nextId, v);
    assert nextId in t.files ==> FileStored(t, blobs, nextId, nextId);
  }

  predicate Unnamed(t: Tables, key: Key) {
    (forall f :: f in t.files ==> t.files[f].key != Some(key)) && (forall v :: v in t.versions ==> v.key != key)
  }

  lemma InsertKeeps(t: Tables, blobs: map<Key, Content>, nextKey: Key, nextId: Id, f: File)
    requires Consistent(t, blobs, nextKey, nextId) && nextId !in t.files
    requires f.key.Some? ==> f.key.value in blobs && Unnamed(t, f.key.value)
    ensures Consistent(t.(files := t.files[nextId := f]), blobs, nextKey, nextId + 1)
  {
    var u := t.(files := t.files[nextId := f]);
    forall g | g in u.files
      ensures FileStored(u, blobs, nextId + 1, g)
    {
      assert g in t.files ==> FileStored(t, blobs, nextId, g);
    }
    forall v | v in u.versions
      ensures VersionStored(u, blobs, nextId + 1, v)
    {
      assert VersionStored(t, blobs, nextId, v);
    }
  }

  lemma SaveKeeps(t: Tables, blobs: map<Key, Content>, nextKey: Key, nextId: Id, file: Id)
    requires Consistent(t, blobs, nextKey, nextId) && file in t.files && t.files[file].key.Some?
    ensures Consistent(Snapshotted(t, file, nextId), blobs, nextKey, nextId + 1)
    ensures OnlySaved(t, Snapshotted(t, file, nextId))
  {
    hide KeysOf;
    var last := Version(nextId, file, t.files[file].key.value, t.files[file].mime);
    var u := Snapshotted(t, file, nextId);
    assert FileStored(t, blobs, nextId, file);
    forall g | g in u.files
      ensures FileStored(u, blobs, nextId + 1, g)
    {
      assert FileStored(t, blobs, nextId, g);
    }
    forall v | v in u.versions
      ensures VersionStored(u, blobs, nextId + 1, v)
    {
      assert v in t.versions ==> VersionStored(t, blobs, nextId, v);
    }
    forall f | f in t.files
      ensures History(t, f) <= History(u, f)
    {
      KeysGrow(t.versions, last, f);
    }
  }

  lemma KeysGrow(versions: seq<Version>, last: Version, file: Id)
    ensures KeysOf(versions, file) <= KeysOf(versions + [last], file)
  {
    assert (versions + [last])[..|versions|] == versions;
  }

  /** A blob no other file names becomes current. */
  lemma ReplaceKeeps(t: Tables, blobs: map<Key, Content>, nextKey: Key, nextId: Id, file: Id, key: Key, mime: string)
    requires Consistent(t, blobs, nextKey, nextId) && file in t.files && Stored(t, blobs, file, key)
    ensures Consistent(t.(files := t.files[file := t.files[file].(key := Some(key), mime := mime)]),
                       blobs, nextKey, nextId)
  {
    var u := t.(files := t.files[file := t.files[file].(key := Some(key), mime := mime)]);
    forall g | g in u.files
      ensures FileStored(u, blobs, nextId, g)
    {
      assert FileStored(t, blobs, nextId, g);
    }
    forall v | v in u.versions
      ensures VersionStored(u, blobs, nextId, v)
    {
      assert VersionStored(t, blobs, nextId, v);
    }
  }

  /** Rows go, and a blob that only a row among them named. */
  lemma DeleteKeeps(t: Tables, u: Tables, blobs: map<Key, Content>, gone: set<Key>, nextKey: Key, nextId: Id)
    requires Consistent(t, blobs, nextKey, nextId)
    requires forall f :: f in u.files ==> f in t.files && u.files[f] == t.files[f]
    requires forall v :: v in u.versions ==> v in t.versions && v.file in u.files
    requires forall k :: k in gone ==> Unnamed(u, k)
    ensures Consistent(u, blobs - gone, nextKey, nextId)
  {
    forall g | g in u.files
      ensures FileStored(u, blobs - gone, nextId, g)
    {
      assert FileStored(t, blobs, nextId, g);
    }
    forall v | v in u.versions
      ensures VersionStored(u, blobs - gone, nextId, v)
    {
      assert VersionStored(t, blobs, nextId, v);
    }
  }

  /** At most version rows were added: every file is as it was and holds at least what it held. */
  ghost predicate OnlySaved(t: Tables, u: Tables) {
    && u.files == t.files && t.versions <= u.versions
    && forall f :: f in t.files ==> History(t, f) <= History(u, f)
  }

  lemma SavedItself(t: Tables)
    ensures OnlySaved(t, t)
  {
    hide KeysOf;
  }

  // ---- The handlers ------------------------------------------------------------------------------

  class Drive {
    var tables: Tables
    var blobs: map<Key, Content>
    var nextKey: Key
    var nextId: Id

    ghost predicate Valid()
      reads this
    {
      Consistent(tables, blobs, nextKey, nextId)
    }

    constructor ()
      ensures Valid() && tables == Tables(map[], []) && blobs == map[]
    {
      tables, blobs, nextKey, nextId := Tables(map[], []), map[], 0, 0;
    }

    /** UploadHandler without file_id. */
    method Upload(parent: Option<Id>, mime: string, content: Content, faults: UploadFaults) returns (status: Status)
      requires Valid()
      modifies this
      ensures Valid() && status in {OK, Internal}
      ensures status == OK <==> !faults.put && !faults.write && (parent.Some? ==> parent.value in old(tables).files)
      ensures status == OK ==>
                && tables == old(tables).(files := old(tables).files[old(nextId) :=
                    File(parent, mime, Some(old(nextKey)), None)])
                && blobs == old(blobs)[old(nextKey) := content]
      ensures status != OK ==> tables == old(tables) && (blobs == old(blobs) || (faults.rollback && !faults.put))
    {
      PutKeeps(tables, blobs, nextKey, nextId, content);
      hide Consistent, Unnamed;
      var key := nextKey;
      nextKey := nextKey + 1;
      if faults.put { return Internal; }
      blobs := blobs[key := content];
      var inserted := InsertFile(tables, nextId, File(parent, mime, Some(key), None));
      if faults.write || inserted.None? {
        if !faults.rollback { blobs := blobs - {key}; }
        return Internal;
      }
      InsertKeeps(tables, blobs, nextKey, nextId, File(parent, mime, Some(key), None));
      tables, nextId := inserted.value, nextId + 1;
      return OK;
    }

    /** The snapshot an upload over a file takes: a failure to take it is not a failure of the upload. */
    method SaveBefore(file: Id, key: Key, fails: bool)
      requires Valid() && file in tables.files && Unnamed(tables, key)
      modifies this`tables, this`nextId
      ensures Valid() && Unnamed(tables, key) && OnlySaved(old(tables), tables)
      ensures tables == if !fails && old(tables).files[file].key.Some?
                        then Snapshotted(old(tables), file, old(nextId)) else old(tables)
    {
      hide Consistent, OnlySaved, Unnamed, Snapshotted, CreateVersion;
      var current := tables.files[file];
      if fails || current.key.None? {
        SavedItself(tables);
      } else {
        Saves(tables, blobs, nextKey, nextId, file, key);
        tables, nextId := CreateVersion(tables, Version(nextId, file, current.key.value, current.mime)).value,
          nextId + 1;
      }
    }

    /** UploadHandler with file_id. When it fails after the snapshot, the file is as it was, but for one
        more version of its current blob. */
    method ReplaceContent(file: Id, mime: string, content: Content, faults: UploadFaults) returns (status: Status)
      requires Valid()
      modifies this
      ensures Valid() && status in {OK, NotFound, Internal}
      ensures status == OK <==> (!faults.put && !faults.read && !faults.write &&
                                 file in old(tables).files && old(tables).files[file].trashed.None?)
      ensures status == NotFound <==> !faults.put && !faults.read && file !in old(tables).files
      ensures status == OK ==>
                && tables == Replaced(old(tables), file, old(nextKey), mime, old(nextId), !faults.snapshot)
                && blobs == old(blobs)[old(nextKey) := content]
      ensures status != OK ==>
                OnlySaved(old(tables), tables) && (blobs == old(blobs) || (faults.rollback && !faults.put))
    {
      hide Consistent, OnlySaved, Unnamed, Stored, Snapshotted, Replaced, ReplaceBlob;
      PutKeeps(tables, blobs, nextKey, nextId, content);
      SavedItself(tables);
      var key := nextKey;
      nextKey := nextKey + 1;
      if faults.put { return Internal; }
      blobs := blobs[key := content];
      if faults.read || file !in tables.files {
        if !faults.rollback { blobs := blobs - {key}; }
        return if faults.read then Internal else NotFound;
      }
      SaveBefore(file, key, faults.snapshot);
      ReplacesTo(tables, old(tables), file, key, mime, old(nextId), !faults.snapshot);
      var replaced := ReplaceBlob(tables, file, key, mime);
      if faults.write || replaced.None? {
        if !faults.rollback {
          WithoutFresh(tables, blobs, old(blobs), key, nextKey, nextId);
          blobs := blobs - {key};
        }
        return Internal;
      }
      UnnamedIsStored(tables, blobs, file, key);
      ReplaceKeeps(tables, blobs, nextKey, nextId, file, key, mime);
      tables := replaced.value;
      return OK;
    }

    /** The copy has a blob of its own with the same content, and nothing else changes. */
    method CopyFile(file: Id, faults: CopyFaults) returns (status: Status)
      requires Valid()
      modifies this
      ensures Valid()
      ensures status == NotFound <==> !faults.read && file !in old(tables).files
      ensures status == InvalidArgument <==> (!faults.read && file in old(tables).files &&
                (old(tables).files[file].mime == FOLDER || old(tables).files[file].key.None?))
      ensures status == OK <==> (faults == CopyFaults(false, false, false, false, faults.rollback) &&
                file in old(tables).files && old(tables).files[file].mime != FOLDER &&
                old(tables).files[file].key.Some? &&
                (old(tables).files[file].parent.Some? ==> old(tables).files[file].parent.value in old(tables).files))
      ensures status == OK ==>
                && var source := old(tables).files[file];
                   tables == old(tables).(files := old(tables).files[old(nextId) :=
                     File(source.parent, source.mime, Some(old(nextKey)), None)])
                   && source.key.value in old(blobs)
                   && blobs == old(blobs)[old(nextKey) := old(blobs)[source.key.value]]
      ensures status != OK ==> tables == old(tables) && (blobs == old(blobs) || faults.rollback)
    {
      hide FOLDER;
      if faults.read { return Internal; }
      if file !in tables.files { return NotFound; }
      var source := tables.files[file];
      if source.mime == FOLDER || source.key.None? { return InvalidArgument; }
      assert FileStored(tables, blobs, nextId, file);
      var key := nextKey;
      nextKey := nextKey + 1;
      PutKeeps(tables, blobs, key, nextId, blobs[source.key.value]);
      hide Consistent, Unnamed;
      if faults.getBlob { return Internal; }
      var content := blobs[source.key.value];
      if faults.put { return Internal; }
      blobs := blobs[key := content];
      var inserted := InsertFile(tables, nextId, File(source.parent, source.mime, Some(key), None));
      if faults.insert || inserted.None? {
        if !faults.rollback { blobs := blobs - {key}; }
        return Internal;
      }
      InsertKeeps(tables, blobs, nextKey, nextId, File(source.parent, source.mime, Some(key), None));
      tables, nextId := inserted.value, nextId + 1;
      return OK;
    }

    /** index is where the version's row is; None when there is no such row. */
    method RestoreFileVersion(file: Id, index: Option<nat>, faults: RestoreFaults) returns (status: Status)
      requires Valid() && (index.Some? ==> index.value < |tables.versions|)
      modifies this`tables, this`nextId
      ensures Valid()
      ensures status == NotFound <==>
                !faults.readVersion && (index.None? || old(tables).versions[index.value].file != file)
      ensures status == OK <==> (!faults.readVersion && !faults.read && !faults.snapshot && !faults.replace &&
                index.Some? && old(tables).versions[index.value].file == file && file in old(tables).files &&
                old(tables).files[file].key.Some? && old(tables).files[file].trashed.None?)
      ensures status == OK ==>
                tables == Restored(old(tables), old(tables).versions[index.value], old(nextId), !faults.tidy)
      ensures tables == AfterRestore(old(tables), file, index, old(nextId), faults)
      ensures status != OK ==> OnlySaved(old(tables), tables)
    {
      assert OnlySaved(tables, tables);
      if faults.readVersion { return Internal; }
      if index.None? || tables.versions[index.value].file != file { return NotFound; }
      var v := tables.versions[index.value];
      assert v in tables.versions && VersionStored(tables, blobs, nextId, v);
      hide Consistent, Filtered, Stored, OnlySaved;
      if faults.read { return Internal; }
      var current := tables.files[file];
      if current.key.None? { return InvalidArgument; }
      if faults.snapshot { return Internal; }
      SaveKeeps(tables, blobs, nextKey, nextId, file);
      SavedIsStored(tables, blobs, nextId, v);
      var saved := CreateVersion(tables, Version(nextId, file, current.key.value, current.mime));
      tables, nextId := saved.value, nextId + 1;
      assert tables == Snapshotted(old(tables), file, old(nextId));
      hide Snapshotted;
      var replaced := ReplaceBlob(tables, file, v.key, v.mime);
      if faults.replace || replaced.None? { return Internal; }
      ReplaceKeeps(tables, blobs, nextKey, nextId, file, v.key, v.mime);
      tables := replaced.value;
      if !faults.tidy {
        TidyKeeps(tables, blobs, nextKey, nextId, v.id);
        tables := DeleteVersion(tables, v.id);
      }
      return OK;
    }

    /** The row goes, with everything below it and their versions; of all their blobs exactly the row's
        own is deleted, so the others stay stored with no row naming them. */
    method DeleteForever(file: Id, fails: bool, blobFails: bool) returns (status: Status)
      requires Valid()
      modifies this`tables, this`blobs
      ensures Valid()
      ensures status == NotFound <==> !fails && file !in old(tables).files
      ensures status in {OK, DataLoss} <==> !fails && file in old(tables).files
      ensures status in {OK, DataLoss} ==> tables == DeleteRows(old(tables), {file})
      ensures status == OK ==>
                blobs == old(blobs) -
                  if old(tables).files[file].key.Some? then {old(tables).files[file].key.value} else {}
      ensures status !in {OK, DataLoss} ==> tables == old(tables)
      ensures status != OK ==> blobs == old(blobs)
      ensures status == DataLoss <==>
                !fails && file in old(tables).files && old(tables).files[file].key.Some? && blobFails
    {
      if fails { return Internal; }
      if file !in tables.files { return NotFound; }
      var key := tables.files[file].key;
      DeletedRows(tables, blobs, nextKey, nextId, file);
      hide Consistent, DeleteRows;
      tables := DeleteRows(tables, {file});
      if key.Some? {
        if blobFails { return DataLoss; }
        blobs := blobs - {key.value};
      }
      return OK;
    }
  }

  // ---- Steps of the handlers ---------------------------------------------------------------------

  lemma Saves(t: Tables, blobs: map<Key, Content>, nextKey: Key, nextId: Id, file: Id, key: Key)
    requires Consistent(t, blobs, nextKey, nextId) && file in t.files && t.files[file].key.Some? && Unnamed(t, key)
    ensures var u := Snapshotted(t, file, nextId);
            && CreateVersion(t, Version(nextId, file, t.files[file].key.value, t.files[file].mime)) == Some(u)
            && Consistent(u, blobs, nextKey, nextId + 1) && Unnamed(u, key) && OnlySaved(t, u)
  {
    SaveKeeps(t, blobs, nextKey, nextId, file);
    assert FileStored(t, blobs, nextId, file);
    hide Consistent, OnlySaved;
  }

  lemma ReplacesTo(t: Tables, before: Tables, file: Id, key: Key, mime: string, id: Id, saved: bool)
    requires file in before.files
    requires t == if saved && before.files[file].key.Some? then Snapshotted(before, file, id) else before
    ensures ReplaceBlob(t, file, key, mime).Some? <==> before.files[file].trashed.None?
    ensures before.files[file].trashed.None? ==>
              && ReplaceBlob(t, file, key, mime).value == Replaced(before, file, key, mime, id, saved)
              && ReplaceBlob(t, file, key, mime).value ==
                 t.(files := t.files[file := t.files[file].(key := Some(key), mime := mime)])
  {
  }

  lemma UnnamedIsStored(t: Tables, blobs: map<Key, Content>, file: Id, key: Key)
    requires Unnamed(t, key) && key in blobs
    ensures Stored(t, blobs, file, key)
  {
  }

  /** Taking back a blob that was put under a fresh key and that no row names. */
  lemma WithoutFresh(t: Tables, blobs: map<Key, Content>, before: map<Key, Content>, key: Key, nextKey: Key, nextId: Id)
    requires Consistent(t, blobs, nextKey, nextId) && Unnamed(t, key) && blobs - {key} == before
    ensures Consistent(t, blobs - {key}, nextKey, nextId)
  {
    DeleteKeeps(t, t, blobs, {key}, nextKey, nextId);
  }

  /** A version's blob stays stored when the current one is saved as a version. */
  lemma SavedIsStored(t: Tables, blobs: map<Key, Content>, nextId: Id, v: Version)
    requires v in t.versions && VersionStored(t, blobs, nextId, v) && t.files[v.file].key.Some?
    ensures Stored(Snapshotted(t, v.file, nextId), blobs, v.file, v.key)
  {
  }

  lemma TidyKeeps(t: Tables, blobs: map<Key, Content>, nextKey: Key, nextId: Id, version: Id)
    requires Consistent(t, blobs, nextKey, nextId)
    ensures Consistent(DeleteVersion(t, version), blobs, nextKey, nextId)
  {
    var u := DeleteVersion(t, version);
    forall v | v in u.versions
      ensures v in t.versions && v.file in u.files
    {
      FilteredHas(t.versions, OtherThan(version), v);
      assert VersionStored(t, blobs, nextId, v);
    }
    hide Filtered;
    DeleteKeeps(t, u, blobs, {}, nextKey, nextId);
    assert blobs - {} == blobs;
  }

  /** A row's own key is named by nothing that is left. */
  lemma DeletedRows(t: Tables, blobs: map<Key, Content>, nextKey: Key, nextId: Id, file: Id)
    requires Consistent(t, blobs, nextKey, nextId) && file in t.files
    ensures var u := DeleteRows(t, {file});
            && Consistent(u, blobs, nextKey, nextId)
            && (t.files[file].key.Some? ==> Consistent(u, blobs - {t.files[file].key.value}, nextKey, nextId))
  {
    hide Filtered, Cascade;
    var u := DeleteRows(t, {file});
    forall v | v in u.versions
      ensures v in t.versions && v.file in u.files
    {
      FilteredHas(t.versions, OfNone(Cascade(t.files, {file})), v);
      assert VersionStored(t, blobs, nextId, v);
    }
    DeleteKeeps(t, u, blobs, {}, nextKey, nextId);
    assert blobs - {} == blobs;
    if t.files[file].key.Some? {
      assert FileStored(t, blobs, nextId, file);
      DeleteKeeps(t, u, blobs, {t.files[file].key.value}, nextKey, nextId);
    }
  }
}
