/**
 What every interleaving of Drive's requests keeps (internal/drive/service.go), and where two requests
 on one file lose content.
 */
module DriveSafety {
  import opened Wrappers
  import opened DriveTables
  import opened DriveRuns

  ghost predicate IsRun(steps: seq<Step>)
    decreases |steps|, 0
  {
    |steps| == 0 ||
    (IsRun(steps[..|steps| - 1]) && Enabled(Reached(steps[..|steps| - 1]), steps[|steps| - 1]))
  }

  ghost function Reached(steps: seq<Step>): (s: State)
    requires IsRun(steps)
    ensures Inv(s)
    decreases |steps|, 1
  {
    if |steps| == 0 then INIT
    else
      var s := Reached(steps[..|steps| - 1]);
      KeepsInv(s, steps[|steps| - 1]);
      After(s, steps[|steps| - 1])
  }

  /** A file's row or one of its version rows names the key. */
  predicate Names(t: Tables, file: Id, key: Key) {
    (file in t.files && t.files[file].key == Some(key)) ||
    (exists v :: v in t.versions && v.file == file && v.key == key)
  }

  /** Over every run: whatever a row names exists and is stored, and no two files share a key, their
      versions included. */
  lemma NothingDangles(steps: seq<Step>, file: Id, key: Key)
    requires IsRun(steps) && Names(Reached(steps).tables, file, key)
    ensures file in Reached(steps).tables.files && key in Reached(steps).blobs
    ensures forall other :: Names(Reached(steps).tables, other, key) ==> other == file
  {
    hide IsRun, Reached, PhasesOk, AllApart;
    var s := Reached(steps);
    NamedIsOwned(s, file, key);
    assert KeyOk(s, key);
    forall other | Names(s.tables, other, key)
      ensures other == file
    {
      NamedIsOwned(s, other, key);
    }
  }

  lemma NamedIsOwned(s: State, file: Id, key: Key)
    requires Inv(s) && Names(s.tables, file, key)
    ensures file in s.tables.files && Owns(s, file, key)
  {
    hide PhasesOk, AllApart, KeysOk;
    if v :| v in s.tables.versions && v.file == file && v.key == key {
      assert VersionOk(s, v);
    } else {
      assert FileOk(s, file);
    }
  }

  /** Only rollbacks and deletions remove blobs, and what they remove no row names. */
  lemma DeletionsHitUnnamed(s: State, step: Step, key: Key)
    requires Inv(s) && Enabled(s, step) && s.nextId !in s.tables.files
    requires key in s.blobs && key !in After(s, step).blobs
    ensures After(s, step).tables == s.tables && forall file :: !Names(s.tables, file, key)
  {
    hide FilesOk, VersionsOk, KeysOk, AllApart, Names, Filtered, Cascade, AfterLook, AfterWrite, AfterEdit;
    BlobsGoBy(s, step, key);
    assert PhaseOk(s, s.requests[step.r]);
    forall file
      ensures !Names(s.tables, file, key)
    {
      if Names(s.tables, file, key) {
        NamedIsOwned(s, file, key);
        assert false;
      }
    }
  }

  lemma BlobsGoBy(s: State, step: Step, key: Key)
    requires Enabled(s, step) && s.nextId !in s.tables.files
    requires key in s.blobs && key !in After(s, step).blobs
    ensures (step.RollBack? && s.requests[step.r].key == key) || (step.DeleteBlob? && step.key == key)
  {
    hide Filtered, Cascade, FOLDER;
  }

  /** A deleted blob never comes back, so no row ever names its key again. */
  lemma {:induction false} GoneForGood(steps: seq<Step>, more: seq<Step>, key: Key)
    requires IsRun(steps) && IsRun(steps + more) && key < Reached(steps).nextKey && key !in Reached(steps).blobs
    ensures key !in Reached(steps + more).blobs && key < Reached(steps + more).nextKey
    ensures forall file :: !Names(Reached(steps + more).tables, file, key)
    decreases |more|
  {
    hide After, Enabled, Names;
    var all := steps + more;
    if more == [] {
      assert all == steps;
    } else {
      var fewer := more[..|more| - 1];
      assert all[..|all| - 1] == steps + fewer;
      GoneForGood(steps, fewer, key);
      hide Inv;
      StaysGone(Reached(steps + fewer), all[|all| - 1], key);
    }
    forall file
      ensures !Names(Reached(all).tables, file, key)
    {
      assert Names(Reached(all).tables, file, key) ==> key in Reached(all).blobs by {
        if Names(Reached(all).tables, file, key) { NothingDangles(all, file, key); }
      }
    }
  }

  lemma StaysGone(s: State, step: Step, key: Key)
    requires Enabled(s, step) && Inv(s) && key < s.nextKey && key !in s.blobs
    ensures s.nextId !in s.tables.files
    ensures key !in After(s, step).blobs && key < After(s, step).nextKey
  {
    NextIdIsFresh(s);
    hide Inv, Filtered, Cascade, FOLDER;
  }

  // ---- Content that is lost ----------------------------------------------------------------------

  /** The file's blob is replaced by another while no version names it. */
  predicate Overwrites(s: State, step: Step, file: Id, key: Key)
    requires Enabled(s, step)
  {
    && (step.Replace? || step.Switch?) && step.ok && s.requests[step.r].file == file
    && file in s.tables.files && s.tables.files[file].trashed.None? && s.tables.files[file].key == Some(key)
    && (forall v :: v in s.tables.versions && v.file == file ==> v.key != key)
    && key != if step.Replace? then s.requests[step.r].key else s.requests[step.r].version.key
  }

  /** A restore removes the row it restored while that row alone names its key. */
  predicate TidiesLast(s: State, step: Step, file: Id, key: Key)
    requires Enabled(s, step)
  {
    && step.Tidy? && step.ok
    && (file in s.tables.files ==> s.tables.files[file].key != Some(key))
    && (forall v :: v in s.tables.versions && v.file == file && v.key == key ==> v.id == s.requests[step.r].version.id)
  }

  lemma OthersKeepNames(s: State, step: Step, file: Id, key: Key)
    requires Enabled(s, step) && !Writes(step) && s.nextId !in s.tables.files
    requires file in s.tables.files && Names(s.tables, file, key) && file in After(s, step).tables.files
    ensures Names(After(s, step).tables, file, key)
  {
    if Looks(step) {
      hide AfterWrite, AfterDelete, AfterEdit;
      assert AfterLook(s, step).tables == s.tables;
    } else if Edits(step) {
      EditLeavesKeys(s, step);
      hide AfterEdit, AfterWrite, AfterDelete, AfterLook;
    } else if step.RollBack? || step.DeleteBlob? {
      hide AfterWrite, AfterLook, AfterEdit;
      assert AfterDelete(s, step).tables == s.tables;
    } else {
      hide FOLDER, AfterWrite, AfterLook, AfterEdit, Names;
      RowsDeletedKeepNames(s, if step.DeleteRow? then {step.file} else Purged(s.tables, step.cutoff), file, key);
      hide DeleteRows;
    }
  }

  /** A file that is still there loses a key in exactly two ways. */
  lemma LosesExactlyWhen(s: State, step: Step, file: Id, key: Key)
    requires Enabled(s, step) && s.nextId !in s.tables.files
    requires file in s.tables.files && Names(s.tables, file, key) && file in After(s, step).tables.files
    ensures !Names(After(s, step).tables, file, key) <==>
            Overwrites(s, step, file, key) || TidiesLast(s, step, file, key)
  {
    hide AfterWrite, AfterDelete, AfterEdit, AfterLook, Names, Enabled;
    if Writes(step) {
      WritesLose(s, step, file, key);
    } else {
      OthersKeepNames(s, step, file, key);
    }
  }

  lemma RowsDeletedKeepNames(s: State, rows: set<Id>, file: Id, key: Key)
    requires rows <= s.tables.files.Keys && file in DeleteRows(s.tables, rows).files
    ensures Names(DeleteRows(s.tables, rows), file, key) <==> Names(s.tables, file, key)
  {
    hide Cascade, Filtered;
    var gone := Cascade(s.tables.files, rows);
    forall v | v in s.tables.versions && v.file == file
      ensures v in DeleteRows(s.tables, rows).versions
    {
      FilteredHas(s.tables.versions, OfNone(gone), v);
    }
    forall v | v in DeleteRows(s.tables, rows).versions
      ensures v in s.tables.versions
    {
      FilteredHas(s.tables.versions, OfNone(gone), v);
    }
  }

  lemma WritesLose(s: State, step: Step, file: Id, key: Key)
    requires Enabled(s, step) && Writes(step) && s.nextId !in s.tables.files
    requires file in s.tables.files && Names(s.tables, file, key)
    ensures !Names(AfterWrite(s, step).tables, file, key) <==>
            Overwrites(s, step, file, key) || TidiesLast(s, step, file, key)
  {
    var t := AfterWrite(s, step);
    if step.Tidy? {
      hide Cascade, FOLDER, Filtered;
      forall v
        ensures step.ok ==>
                (v in t.tables.versions <==> v in s.tables.versions && v.id != s.requests[step.r].version.id)
      {
        FilteredHas(s.tables.versions, OtherThan(s.requests[step.r].version.id), v);
      }
    } else if step.Snapshot? || step.SaveCurrent? {
      hide Cascade, FOLDER, Filtered;
      assert forall v :: v in s.tables.versions ==> v in t.tables.versions;
    } else {
      hide Cascade, FOLDER, Filtered;
      assert t.tables.versions == s.tables.versions;
    }
  }

  // ---- It happens --------------------------------------------------------------------------------

  /** The step's effect, where it can fail, succeeds. */
  predicate Succeeds(step: Step) {
    match step
    case PutUpload(_, _, _, _, ok) => ok
    case InsertFile(_, ok) => ok
    case ReadTarget(_, ok) => ok
    case Snapshot(_, ok) => ok
    case Replace(_, ok) => ok
    case RollBack(_, ok) => ok
    case ReadBlob(_, ok) => ok
    case PutCopy(_, ok) => ok
    case ReadCurrent(_, ok) => ok
    case SaveCurrent(_, ok) => ok
    case Switch(_, ok) => ok
    case Tidy(_, ok) => ok
    case DeleteBlob(_, _, ok) => ok
    case Stop(_) => false
    case _ => true
  }

  /** Some run reaches the state in which nothing fails and no request stops. */
  ghost predicate Reachable(s: State) {
    exists steps :: IsRun(steps) && (forall step :: step in steps ==> Succeeds(step)) && Reached(steps) == s
  }

  lemma Onward(s: State, step: Step)
    requires Reachable(s) && Enabled(s, step) && Succeeds(step)
    ensures s.nextId !in s.tables.files && Inv(s) && Reachable(After(s, step))
  {
    hide After, Enabled, Inv, Succeeds;
    var steps :| IsRun(steps) && (forall x :: x in steps ==> Succeeds(x)) && Reached(steps) == s;
    NextIdIsFresh(s);
    assert (steps + [step])[..|steps|] == steps;
    assert IsRun(steps + [step]) && Reached(steps + [step]) == After(s, step);
  }

  lemma InitIsReachable()
    ensures Reachable(INIT)
  {
    assert IsRun([]) && Reached([]) == INIT;
  }

  /** Two uploads over one file that are both past their snapshots when the first replaces the blob: both
      succeed, and what the first uploaded stays stored with no row naming it. */
  lemma RaceLosesUpload(s: State, file: Id, a: Request, b: Request)
    requires Inv(s) && s.nextId !in s.tables.files && file in s.tables.files && s.tables.files[file].trashed.None?
    requires a in s.requests && b in s.requests && a != b
    requires s.requests[a].Replacing? && s.requests[a].file == file
    requires s.requests[b].Replacing? && s.requests[b].file == file
    ensures Enabled(s, Replace(a, true))
    ensures var t := After(s, Replace(a, true));
            && t.nextId !in t.tables.files && Enabled(t, Replace(b, true))
            && var u := After(t, Replace(b, true));
               && a !in u.requests && b !in u.requests && s.requests[a].key in u.blobs
               && forall f :: !Names(u.tables, f, s.requests[a].key)
  {
    var key := s.requests[a].key;
    assert PhaseOk(s, s.requests[a]) && PhaseOk(s, s.requests[b]) && Apart(s, a, b);
    forall f
      ensures !Names(s.tables, f, key)
    {
      assert Names(s.tables, f, key) ==> key in s.owner by {
        if Names(s.tables, f, key) { NamedIsOwned(s, f, key); }
      }
    }
    hide Inv, Filtered, Cascade, FOLDER;
  }

  /** The state after a file was uploaded. */
  function OneFile(content: Content, mime: string): State {
    State(Tables(map[0 := File(None, mime, Some(0), None)], []), map[0 := content], map[], map[0 := 0], 1, 1, 1)
  }

  lemma OneFileIsReached(content: Content, mime: string)
    ensures Reachable(OneFile(content, mime))
  {
    hide Reachable, Inv, FOLDER, AfterDelete, AfterEdit;
    InitIsReachable();
    Onward(INIT, PutUpload(None, None, mime, content, true));
    var s := After(INIT, PutUpload(None, None, mime, content, true));
    Onward(s, DriveRuns.Step.InsertFile(0, true));
    assert After(s, DriveRuns.Step.InsertFile(0, true)) == OneFile(content, mime);
  }

  /** The state after a file was uploaded and two more uploads for it were stored. */
  function TwoStored(content: Content, mime: string): State {
    State(Tables(map[0 := File(None, mime, Some(0), None)], []), map[0 := content, 1 := content, 2 := content],
          map[1 := Stored(1, Some(0), None, mime), 2 := Stored(2, Some(0), None, mime)], map[0 := 0], 3, 1, 3)
  }

  /** Both have then read the file. */
  function TwoRead(content: Content, mime: string): State {
    TwoStored(content, mime).(
      requests := map[1 := Snapshotting(1, 0, mime, Some(0), mime), 2 := Snapshotting(2, 0, mime, Some(0), mime)])
  }

  /** Both have then read the file and saved its blob as a version. */
  function TwoSaved(content: Content, mime: string): State {
    TwoStored(content, mime).(
      tables := Tables(map[0 := File(None, mime, Some(0), None)], [Version(1, 0, 0, mime), Version(2, 0, 0, mime)]),
      requests := map[1 := Replacing(1, 0, mime), 2 := Replacing(2, 0, mime)], nextId := 3)
  }

  lemma TwoStoredIsReached(content: Content, mime: string)
    ensures Reachable(TwoStored(content, mime))
  {
    hide Reachable, Inv, FOLDER, AfterDelete, AfterEdit;
    var s, put := OneFile(content, mime), PutUpload(Some(0), None, mime, content, true);
    OneFileIsReached(content, mime);
    Onward(s, put);
    Onward(After(s, put), put);
    assert After(After(s, put), put) == TwoStored(content, mime);
  }

  lemma TwoReadIsReached(content: Content, mime: string)
    requires Reachable(TwoStored(content, mime))
    ensures Reachable(TwoRead(content, mime))
  {
    hide Reachable, Inv, FOLDER, AfterDelete, AfterEdit;
    var s := TwoStored(content, mime);
    Onward(s, ReadTarget(1, true));
    var t := After(s, ReadTarget(1, true));
    Onward(t, ReadTarget(2, true));
    assert After(t, ReadTarget(2, true)) == TwoRead(content, mime);
  }

  lemma TwoSavedIsReached(content: Content, mime: string)
    requires Reachable(TwoRead(content, mime))
    ensures Reachable(TwoSaved(content, mime))
  {
    hide Reachable, Inv, FOLDER, AfterDelete, AfterEdit;
    var s := TwoRead(content, mime);
    Onward(s, Snapshot(1, true));
    var t := After(s, Snapshot(1, true));
    Onward(t, Snapshot(2, true));
    assert After(t, Snapshot(2, true)) == TwoSaved(content, mime);
  }

  /** Such a state is reached with nothing failing. */
  lemma RaceIsReachable(content: Content, mime: string)
    ensures Reachable(TwoSaved(content, mime))
    ensures var s := TwoSaved(content, mime);
            && s.tables.files[0].trashed.None? && s.requests[1].Replacing? && s.requests[2].Replacing?
            && s.requests[1].file == s.requests[2].file == 0
  {
    hide Reachable;
    TwoStoredIsReached(content, mime);
    TwoReadIsReached(content, mime);
    TwoSavedIsReached(content, mime);
  }

  // ---- A restore overtaken by an upload ----------------------------------------------------------

  /** A file was uploaded and then replaced: its first blob is version 1. */
  function Uploaded(content: Content, mime: string): State {
    State(Tables(map[0 := File(None, mime, Some(1), None)], [Version(1, 0, 0, mime)]), map[0 := content, 1 := content],
          map[], map[0 := 0, 1 := 0], 2, 2, 2)
  }

  /** A further upload has saved the current blob as version 2. */
  function UploadSaved(content: Content, mime: string): State {
    State(Tables(map[0 := File(None, mime, Some(1), None)], [Version(1, 0, 0, mime), Version(2, 0, 1, mime)]),
          map[0 := content, 1 := content, 2 := content], map[2 := Replacing(2, 0, mime)], map[0 := 0, 1 := 0], 3, 3, 3)
  }

  /** A restore of version 1 has saved the current blob once more, as version 3. */
  function RestoreSaved(content: Content, mime: string): State {
    UploadSaved(content, mime).(
      tables := Tables(map[0 := File(None, mime, Some(1), None)],
                       [Version(1, 0, 0, mime), Version(2, 0, 1, mime), Version(3, 0, 1, mime)]),
      requests := map[2 := Replacing(2, 0, mime), 3 := Switching(0, Version(1, 0, 0, mime))],
      nextId := 4, nextRequest := 4)
  }

  /** The restored blob was current, and then the upload replaced it. */
  function Overtaken(content: Content, mime: string): State {
    RestoreSaved(content, mime).(
      tables := Tables(map[0 := File(None, mime, Some(2), None)],
                       [Version(1, 0, 0, mime), Version(2, 0, 1, mime), Version(3, 0, 1, mime)]),
      requests := map[3 := Tidying(Version(1, 0, 0, mime))], owner := map[0 := 0, 1 := 0, 2 := 0])
  }

  /** The second upload has read the file. */
  function SecondRead(content: Content, mime: string): State {
    State(Tables(map[0 := File(None, mime, Some(0), None)], []), map[0 := content, 1 := content],
          map[1 := Snapshotting(1, 0, mime, Some(0), mime)], map[0 := 0], 2, 1, 2)
  }

  lemma SecondReadIsReached(content: Content, mime: string)
    ensures Reachable(SecondRead(content, mime))
  {
    hide Reachable, Inv, FOLDER, AfterDelete, AfterEdit;
    OneFileIsReached(content, mime);
    var s := OneFile(content, mime);
    var put := PutUpload(Some(0), None, mime, content, true);
    Onward(s, put);
    Onward(After(s, put), ReadTarget(1, true));
    assert After(After(s, put), ReadTarget(1, true)) == SecondRead(content, mime);
  }

  lemma UploadedIsReached(content: Content, mime: string)
    ensures Reachable(Uploaded(content, mime))
  {
    hide Reachable, Inv, FOLDER, AfterDelete, AfterEdit;
    SecondReadIsReached(content, mime);
    var t := SecondRead(content, mime);
    Onward(t, Snapshot(1, true));
    Onward(After(t, Snapshot(1, true)), Replace(1, true));
    assert After(After(t, Snapshot(1, true)), Replace(1, true)) == Uploaded(content, mime);
  }

  lemma UploadSavedIsReached(content: Content, mime: string)
    requires Reachable(Uploaded(content, mime))
    ensures Reachable(UploadSaved(content, mime))
  {
    hide Reachable, Inv, FOLDER, AfterDelete, AfterEdit;
    var s := Uploaded(content, mime);
    var put := PutUpload(Some(0), None, mime, content, true);
    Onward(s, put);
    Onward(After(s, put), ReadTarget(2, true));
    var t := After(After(s, put), ReadTarget(2, true));
    Onward(t, Snapshot(2, true));
    assert After(t, Snapshot(2, true)) == UploadSaved(content, mime);
  }

  lemma RestoreSavedIsReached(content: Content, mime: string)
    requires Reachable(UploadSaved(content, mime))
    ensures Reachable(RestoreSaved(content, mime))
  {
    hide Reachable, Inv, FOLDER, AfterDelete, AfterEdit;
    var s := UploadSaved(content, mime);
    Onward(s, ReadVersion(0, 0));
    Onward(After(s, ReadVersion(0, 0)), ReadCurrent(3, true));
    var t := After(After(s, ReadVersion(0, 0)), ReadCurrent(3, true));
    Onward(t, SaveCurrent(3, true));
    assert After(t, SaveCurrent(3, true)) == RestoreSaved(content, mime);
  }

  lemma OvertakenIsReached(content: Content, mime: string)
    requires Reachable(RestoreSaved(content, mime))
    ensures Reachable(Overtaken(content, mime))
  {
    hide Reachable, Inv, FOLDER, AfterDelete, AfterEdit;
    var s := RestoreSaved(content, mime);
    Onward(s, Switch(3, true));
    var t := After(s, Switch(3, true));
    Onward(t, Replace(2, true));
    assert After(t, Replace(2, true)) == Overtaken(content, mime);
  }

  /** An upload that replaces the blob between a restore's switch and its tidying: with nothing failing,
      the tidying deletes the only row that still names the restored blob. */
  lemma RestoreLosesContent(content: Content, mime: string)
    ensures var s := Overtaken(content, mime);
            && Reachable(s) && Enabled(s, Tidy(3, true)) && TidiesLast(s, Tidy(3, true), 0, 0)
            && Names(s.tables, 0, 0) && s.nextId !in s.tables.files
            && 0 in After(s, Tidy(3, true)).tables.files && !Names(After(s, Tidy(3, true)).tables, 0, 0)
  {
    hide Reachable;
    UploadedIsReached(content, mime);
    UploadSavedIsReached(content, mime);
    RestoreSavedIsReached(content, mime);
    OvertakenIsReached(content, mime);
    var s := Overtaken(content, mime);
    assert Version(1, 0, 0, mime) in s.tables.versions;
    LosesExactlyWhen(s, Tidy(3, true), 0, 0);
  }
}
