/**
 Drive with one request at a time (internal/drive/service.go): nothing a file ever held is lost unless
 an upload goes on after it failed to save the current blob as a version.
 */
module DriveAlone {
  import opened Wrappers
  import opened DriveTables
  import opened DriveRuns
  import opened DriveSafety

  predicate Begins(step: Step) {
    step.PutUpload? || step.ReadSource? || step.ReadVersion? || step.DeleteRow? || step.Purge?
  }

  /** A request begins only when no other is in progress, and no upload fails to save a version. */
  predicate Careful(s: State, step: Step) {
    (Begins(step) ==> s.requests == map[]) && (step.Snapshot? ==> step.ok)
  }

  /** What the one request in progress has read is still so. */
  predicate UpToDate(t: Tables, p: Phase) {
    match p
    case Snapshotting(_, f, _, current, _) => f in t.files && t.files[f].key == current
    case Replacing(_, f, _) => f in t.files && Saved(t, f, -1)
    case Restoring(f, v) => v in t.versions && v.file == f
    case Saving(f, v, saved, _) => v in t.versions && v.file == f && f in t.files && t.files[f].key == Some(saved)
    case Switching(f, v) => v in t.versions && v.file == f && f in t.files && Saved(t, f, v.id)
    case Tidying(v) => v in t.versions && v.file in t.files && t.files[v.file].key == Some(v.key)
    case _ => true
  }

  /** The file's blob has a version row other than the given one. */
  predicate Saved(t: Tables, f: Id, otherThan: int)
    requires f in t.files
  {
    t.files[f].key.Some? ==>
      exists v :: v in t.versions && v.file == f && v.key == t.files[f].key.value && v.id != otherThan
  }

  ghost predicate Alone(s: State) {
    && (forall a, b :: a in s.requests && b in s.requests ==> a == b)
    && (forall r :: r in s.requests ==> UpToDate(s.tables, s.requests[r]))
    && UniqueIds(s.tables.versions)
  }

  ghost predicate UniqueIds(versions: seq<Version>) {
    forall v, w :: v in versions && w in versions && v.id == w.id ==> v == w
  }

  lemma LooksStayAlone(s: State, step: Step)
    requires Enabled(s, step) && Looks(step) && Alone(s) && Careful(s, step)
    ensures Alone(AfterLook(s, step))
  {
    hide FOLDER;
  }

  lemma DeletesStayAlone(s: State, step: Step)
    requires Enabled(s, step) && Deletes(step) && Alone(s) && Careful(s, step)
    ensures Alone(AfterDelete(s, step))
  {
    if step.DeleteRow? || step.Purge? {
      var gone := Cascade(s.tables.files, if step.DeleteRow? then {step.file} else Purged(s.tables, step.cutoff));
      FilteredIsUnique(s.tables.versions, OfNone(gone));
    }
    hide Filtered, Cascade, UniqueIds;
  }

  lemma FilteredIsUnique(versions: seq<Version>, keep: Version -> bool)
    requires UniqueIds(versions)
    ensures UniqueIds(Filtered(versions, keep))
  {
    hide Filtered;
    forall v | v in Filtered(versions, keep)
      ensures v in versions
    {
      FilteredHas(versions, keep, v);
    }
  }

  lemma StaysAlone(s: State, step: Step)
    requires Inv(s) && Enabled(s, step) && s.nextId !in s.tables.files && Alone(s) && Careful(s, step)
    ensures Alone(After(s, step))
  {
    hide AfterLook, AfterWrite, AfterDelete, AfterEdit;
    if Looks(step) {
      hide Inv, Alone, Enabled;
      LooksStayAlone(s, step);
    } else if Edits(step) {
      EditLeavesKeys(s, step);
      hide Inv;
    } else if Deletes(step) {
      hide Inv, Alone, Enabled;
      DeletesStayAlone(s, step);
    } else {
      hide Inv, Alone, Enabled;
      WritesStayAlone(s, step);
    }
  }

  lemma WritesStayAlone(s: State, step: Step)
    requires Inv(s) && Enabled(s, step) && Writes(step) && s.nextId !in s.tables.files && Alone(s) && Careful(s, step)
    ensures Alone(AfterWrite(s, step))
  {
    hide Inv, Alone, Enabled, AfterWrite;
    if step.Snapshot? || step.SaveCurrent? {
      SavesStayAlone(s, step);
    } else if step.Tidy? {
      TidiesStayAlone(s, step);
    } else {
      SwitchesStayAlone(s, step);
    }
  }

  /** A version row is added. */
  lemma SavesStayAlone(s: State, step: Step)
    requires Inv(s) && Enabled(s, step) && s.nextId !in s.tables.files && Alone(s) && Careful(s, step)
    requires step.Snapshot? || step.SaveCurrent?
    ensures Alone(AfterWrite(s, step))
  {
    hide FOLDER, Cascade, Filtered;
    var t := AfterWrite(s, step);
    assert t.tables.versions != s.tables.versions ==> t.tables.versions[|s.tables.versions|] in t.tables.versions;
    forall v | v in s.tables.versions
      ensures v in t.tables.versions && v.id < s.nextId
    {
      assert VersionOk(s, v);
    }
    hide Inv;
  }

  lemma TidiesStayAlone(s: State, step: Step)
    requires Enabled(s, step) && s.nextId !in s.tables.files && Alone(s) && step.Tidy?
    ensures Alone(AfterWrite(s, step))
  {
    FilteredIsUnique(s.tables.versions, OtherThan(s.requests[step.r].version.id));
    hide FOLDER, Cascade, Filtered, UniqueIds;
  }

  /** A file row is inserted, or its blob replaced. */
  lemma SwitchesStayAlone(s: State, step: Step)
    requires Enabled(s, step) && s.nextId !in s.tables.files && Alone(s)
    requires step.InsertFile? || step.Replace? || step.Switch?
    ensures Alone(AfterWrite(s, step))
  {
    hide FOLDER, Cascade, Filtered, UniqueIds;
  }

  /** So no step loses a key of a file that is still there. */
  lemma LosesNothing(s: State, step: Step, file: Id, key: Key)
    requires Inv(s) && Enabled(s, step) && s.nextId !in s.tables.files && Alone(s)
    requires file in s.tables.files && Names(s.tables, file, key) && file in After(s, step).tables.files
    ensures Names(After(s, step).tables, file, key)
  {
    LosesExactlyWhen(s, step, file, key);
    hide After, Inv;
    assert !Overwrites(s, step, file, key) by {
      hide Names, UniqueIds;
      assert step.Replace? || step.Switch? ==> UpToDate(s.tables, s.requests[step.r]);
    }
    assert !TidiesLast(s, step, file, key) by {
      assert step.Tidy? ==> UpToDate(s.tables, s.requests[step.r]);
    }
    hide Names, Overwrites, TidiesLast;
  }

  // ---- Runs --------------------------------------------------------------------------------------

  /** The run with one request at a time. */
  ghost predicate OneAtATime(steps: seq<Step>)
    requires IsRun(steps)
    decreases |steps|
  {
    |steps| == 0 ||
    (OneAtATime(steps[..|steps| - 1]) && Careful(Reached(steps[..|steps| - 1]), steps[|steps| - 1]))
  }

  lemma {:induction false} RunStaysAlone(steps: seq<Step>)
    requires IsRun(steps) && OneAtATime(steps)
    ensures Alone(Reached(steps))
  {
    if |steps| > 0 {
      hide Inv, After, Enabled, Alone, Careful;
      var before := steps[..|steps| - 1];
      RunStaysAlone(before);
      NextIdIsFresh(Reached(before));
      StaysAlone(Reached(before), steps[|steps| - 1]);
    }
  }

  /** Files do not come back, so one that is there at the end was there all along. */
  lemma FileWasThere(s: State, step: Step, file: Id)
    requires Enabled(s, step) && s.nextId !in s.tables.files && file < s.nextId && file in After(s, step).tables.files
    ensures file in s.tables.files
  {
    hide Filtered, Cascade, FOLDER;
  }

  lemma BlobsStay(s: State, step: Step, key: Key)
    requires Enabled(s, step) && s.nextId !in s.tables.files && key < s.nextKey
    requires key in s.blobs && key in After(s, step).blobs
    ensures After(s, step).blobs[key] == s.blobs[key]
  {
    hide Filtered, Cascade, FOLDER;
  }

  lemma CountersGrow(s: State, step: Step)
    requires Enabled(s, step) && s.nextId !in s.tables.files
    ensures s.nextId <= After(s, step).nextId && s.nextKey <= After(s, step).nextKey
  {
    hide Filtered, Cascade, FOLDER;
  }

  /** With one request at a time, whatever content a file held at any moment it still holds, under the
      same key, for as long as the file exists: however many uploads, restores, copies, trashings and
      deletions follow, and wherever they fail or stop, the saving of versions aside. */
  lemma {:induction false} ContentIsKept(steps: seq<Step>, more: seq<Step>, file: Id, key: Key)
    requires IsRun(steps) && IsRun(steps + more) && OneAtATime(steps + more)
    requires Names(Reached(steps).tables, file, key) && file in Reached(steps + more).tables.files
    ensures Names(Reached(steps + more).tables, file, key)
    ensures key in Reached(steps).blobs && key in Reached(steps + more).blobs
    ensures Reached(steps + more).blobs[key] == Reached(steps).blobs[key]
    ensures file < Reached(steps + more).nextId && key < Reached(steps + more).nextKey
    decreases |more|
  {
    hide After, Enabled, Names, Careful, OneAtATime, Inv;
    var all := steps + more;
    NothingDangles(steps, file, key);
    if more == [] {
      assert all == steps;
      NamedIsOwned(Reached(steps), file, key);
      BelowCounters(Reached(steps), file, key);
    } else {
      var fewer := more[..|more| - 1];
      assert all[..|all| - 1] == steps + fewer;
      var s, step := Reached(steps + fewer), all[|all| - 1];
      assert OneAtATime(steps + fewer) by { DropLast(all); }
      NextIdIsFresh(s);
      CountersGrowTo(steps, fewer, file, key);
      FileWasThere(s, step, file);
      ContentIsKept(steps, fewer, file, key);
      RunStaysAlone(steps + fewer);
      LosesNothing(s, step, file, key);
      NothingDangles(all, file, key);
      BlobsStay(s, step, key);
      CountersGrow(s, step);
    }
  }

  lemma DropLast(steps: seq<Step>)
    requires IsRun(steps) && |steps| > 0 && OneAtATime(steps)
    ensures IsRun(steps[..|steps| - 1]) && OneAtATime(steps[..|steps| - 1])
  {
  }

  lemma BelowCounters(s: State, file: Id, key: Key)
    requires Inv(s) && file in s.tables.files && Owns(s, file, key)
    ensures file < s.nextId && key < s.nextKey
  {
    assert KeyOk(s, key) && FileOk(s, file);
  }

  lemma {:induction false} CountersGrowTo(steps: seq<Step>, more: seq<Step>, file: Id, key: Key)
    requires IsRun(steps) && IsRun(steps + more) && Names(Reached(steps).tables, file, key)
    ensures file < Reached(steps + more).nextId && key < Reached(steps + more).nextKey
    decreases |more|
  {
    hide After, Enabled, Names, Inv;
    var all := steps + more;
    if more == [] {
      assert all == steps;
      NamedIsOwned(Reached(steps), file, key);
      BelowCounters(Reached(steps), file, key);
    } else {
      var fewer := more[..|more| - 1];
      assert all[..|all| - 1] == steps + fewer;
      CountersGrowTo(steps, fewer, file, key);
      NextIdIsFresh(Reached(steps + fewer));
      CountersGrow(Reached(steps + fewer), all[|all| - 1]);
    }
  }
}
