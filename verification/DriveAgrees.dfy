/**
 DriveRuns against DriveService (internal/drive/service.go): a restore's steps, taken with no other in
 between, leave what the handler leaves.
 */
module DriveAgrees {
  import opened Wrappers
  import opened DriveTables
  import opened DriveRuns
  import DriveService

  /** The steps one after the other, up to the first that is not due. */
  function Taken(s: State, steps: seq<Step>): State
    decreases |steps|
  {
    if steps == [] || !Enabled(s, steps[0]) || s.nextId in s.tables.files then s
    else Taken(After(s, steps[0]), steps[1..])
  }

  lemma TakesOne(s: State, step: Step, steps: seq<Step>)
    ensures Taken(s, [step] + steps) ==
            if Enabled(s, step) && s.nextId !in s.tables.files then Taken(After(s, step), steps) else s
  {
    hide After, Enabled;
    assert ([step] + steps)[1..] == steps;
  }

  /** The steps of a restore of the version in the given row, as request r. */
  function Restore(r: Request, file: Id, index: nat, faults: DriveService.RestoreFaults): seq<Step> {
    [ReadVersion(file, index), ReadCurrent(r, !faults.read), SaveCurrent(r, !faults.snapshot),
     Switch(r, !faults.replace), Tidy(r, !faults.tidy)]
  }

  /** Nothing but the tables, the next id and the acting request has changed. */
  predicate Ends(s: State, t: State, tables: Tables, others: map<Request, Phase>) {
    t.tables == tables && t.blobs == s.blobs && t.requests == others
  }

  lemma Tidies(s: State, r: Request, v: Version, others: map<Request, Phase>, ok: bool)
    requires r !in others && s.requests == others[r := Tidying(v)] && s.nextId !in s.tables.files
    ensures Ends(s, Taken(s, [Tidy(r, ok)]), if ok then DeleteVersion(s.tables, v.id) else s.tables, others)
  {
    hide Filtered;
    TakesOne(s, Tidy(r, ok), []);
    assert [Tidy(r, ok)] == [Tidy(r, ok)] + [];
    assert s.requests - {r} == others;
  }

  lemma Switches(s: State, r: Request, v: Version, others: map<Request, Phase>, ok: bool, tidied: bool)
    requires r !in others && s.requests == others[r := Switching(v.file, v)] && s.nextId !in s.tables.files
    ensures var t := ReplaceBlob(s.tables, v.file, v.key, v.mime);
            Ends(s, Taken(s, [Switch(r, ok)] + [Tidy(r, tidied)]),
                 if !ok || t.None? then s.tables else if tidied then DeleteVersion(t.value, v.id) else t.value, others)
  {
    hide Filtered, DeleteVersion, Taken;
    TakesOne(s, Switch(r, ok), [Tidy(r, tidied)]);
    var u := After(s, Switch(r, ok));
    if ok && ReplaceBlob(s.tables, v.file, v.key, v.mime).Some? {
      assert u.requests == others[r := Tidying(v)];
      Tidies(u, r, v, others, tidied);
    } else {
      assert u.requests == others;
      TakesOne(u, Tidy(r, tidied), []);
      assert [Tidy(r, tidied)] == [Tidy(r, tidied)] + [];
    }
  }

  lemma SavesAndSwitches(s: State, r: Request, v: Version, others: map<Request, Phase>,
                         saved: bool, ok: bool, tidied: bool)
    requires v.file in s.tables.files && s.tables.files[v.file].key.Some? && r !in others
    requires s.requests == others[r := Saving(v.file, v, s.tables.files[v.file].key.value, s.tables.files[v.file].mime)]
    requires s.nextId !in s.tables.files && s.nextId + 1 !in s.tables.files
    ensures var t := Taken(s, [SaveCurrent(r, saved)] + ([Switch(r, ok)] + [Tidy(r, tidied)]));
            Ends(s, t,
                 if !saved then s.tables
                 else if !ok || s.tables.files[v.file].trashed.Some?
                 then DriveService.Snapshotted(s.tables, v.file, s.nextId)
                 else DriveService.Restored(s.tables, v, s.nextId, tidied), others)
  {
    hide Filtered, DeleteVersion, Taken;
    var rest := [Switch(r, ok)] + [Tidy(r, tidied)];
    TakesOne(s, SaveCurrent(r, saved), rest);
    var u := After(s, SaveCurrent(r, saved));
    if saved {
      assert u.requests == others[r := Switching(v.file, v)];
      assert u.tables == DriveService.Snapshotted(s.tables, v.file, s.nextId);
      Switches(u, r, v, others, ok, tidied);
    } else {
      assert u.requests == others;
      TakesOne(u, Switch(r, ok), [Tidy(r, tidied)]);
    }
  }

  function AfterRead(r: Request, faults: DriveService.RestoreFaults): seq<Step> {
    [SaveCurrent(r, !faults.snapshot)] + ([Switch(r, !faults.replace)] + [Tidy(r, !faults.tidy)])
  }

  lemma Reads(s: State, r: Request, v: Version, others: map<Request, Phase>, ok: bool)
    requires r !in others && s.requests == others[r := Restoring(v.file, v)] && s.nextId !in s.tables.files
    ensures Enabled(s, ReadCurrent(r, ok))
    ensures var t, f := After(s, ReadCurrent(r, ok)), v.file;
            t == s.(requests := if ok && f in s.tables.files && s.tables.files[f].key.Some?
                                then others[r := Saving(f, v, s.tables.files[f].key.value, s.tables.files[f].mime)]
                                else others)
  {
    assert others[r := Restoring(v.file, v)] - {r} == others;
  }

  lemma NotDue(s: State, r: Request, faults: DriveService.RestoreFaults)
    requires r !in s.requests
    ensures Taken(s, AfterRead(r, faults)) == s
  {
    hide After;
  }

  lemma ReadsAndSaves(s: State, r: Request, v: Version, others: map<Request, Phase>, faults: DriveService.RestoreFaults)
    requires r !in others && s.requests == others[r := Restoring(v.file, v)]
    requires s.nextId !in s.tables.files && s.nextId + 1 !in s.tables.files
    ensures Ends(s, Taken(s, [ReadCurrent(r, !faults.read)] + AfterRead(r, faults)),
                 DriveService.AfterVersionRead(s.tables, v, s.nextId, faults), others)
  {
    hide Taken, DriveService.Snapshotted, DriveService.Restored, After, Enabled;
    TakesOne(s, ReadCurrent(r, !faults.read), AfterRead(r, faults));
    Reads(s, r, v, others, !faults.read);
    var read := After(s, ReadCurrent(r, !faults.read));
    if !faults.read && v.file in s.tables.files && s.tables.files[v.file].key.Some? {
      SavesAndSwitches(read, r, v, others, !faults.snapshot, !faults.replace, !faults.tidy);
    } else {
      NotDue(read, r, faults);
    }
  }

  /** Run alone, they leave the tables DriveService.Drive.RestoreFileVersion leaves, whatever fails. */
  lemma RestoresAlone(s: State, file: Id, index: nat, faults: DriveService.RestoreFaults)
    requires Inv(s) && index < |s.tables.versions| && !faults.readVersion
    ensures var t := Taken(s, Restore(s.nextRequest, file, index, faults));
            && t.tables == DriveService.AfterRestore(s.tables, file, Some(index), s.nextId, faults)
            && t.blobs == s.blobs && t.requests == s.requests
  {
    FreshIds(s);
    hide Inv, Taken, DriveService.Snapshotted, DriveService.Restored, ReplaceBlob, DeleteVersion;
    var r, v := s.nextRequest, s.tables.versions[index];
    var rest := [ReadCurrent(r, !faults.read)] + AfterRead(r, faults);
    assert Restore(r, file, index, faults) == [ReadVersion(file, index)] + rest;
    TakesOne(s, ReadVersion(file, index), rest);
    if v.file == file {
      var begun := After(s, ReadVersion(file, index));
      assert begun.requests == s.requests[r := Restoring(v.file, v)] && begun.tables == s.tables;
      hide After, AfterRead;
      ReadsAndSaves(begun, r, v, s.requests, faults);
    }
  }

  lemma FreshIds(s: State)
    requires Inv(s)
    ensures s.nextRequest !in s.requests && s.nextId !in s.tables.files && s.nextId + 1 !in s.tables.files
  {
    assert forall f :: f in s.tables.files ==> FileOk(s, f);
  }
}
