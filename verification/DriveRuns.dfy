/**
 Drive's requests over the blob store and the tables (internal/drive/service.go), every interleaving:
 each request is a chain of effects, any of which may fail, and any request may stop between two of
 them. Keys and row ids are fresh each time one is made.
 */
module DriveRuns {
  import opened Wrappers
  import opened DriveTables

  type Request = nat
  type Content = string

  /** Where a request is, with what it has read so far. */
  datatype Phase =
    // UploadHandler, and CopyFile once the copy is stored
    | Stored(key: Key, target: Option<Id>, parent: Option<Id>, mime: string)
    | Snapshotting(key: Key, file: Id, mime: string, current: Option<Key>, currentMime: string)
    | Replacing(key: Key, file: Id, mime: string)
    | RollingBack(key: Key)
    // CopyFile
    | Copying(source: Key, parent: Option<Id>, mime: string)
    | Holding(content: Content, parent: Option<Id>, mime: string)
    // RestoreFileVersion
    | Restoring(file: Id, version: Version)
    | Saving(file: Id, version: Version, saved: Key, savedMime: string)
    | Switching(file: Id, version: Version)
    | Tidying(version: Version)
    // DeleteForever, and the caller of PurgeTrashedOlderThan
    | Deleting(keys: set<Key>)

  /** owner records the file a key was first attached to. */
  datatype State = State(
    tables: Tables, blobs: map<Key, Content>, requests: map<Request, Phase>, owner: map<Key, Id>,
    nextKey: Key, nextId: Id, nextRequest: Request)

  const INIT: State := State(Tables(map[], []), map[], map[], map[], 0, 0, 0)

  // ---- Steps -------------------------------------------------------------------------------------

  /** ok says whether the effect succeeds where it can. */
  datatype Step =
    | PutUpload(target: Option<Id>, parent: Option<Id>, mime: string, content: Content, ok: bool)
    | InsertFile(r: Request, ok: bool)
    | ReadTarget(r: Request, ok: bool)
    | Snapshot(r: Request, ok: bool)
    | Replace(r: Request, ok: bool)
    | RollBack(r: Request, ok: bool)
    | ReadSource(file: Id)
    | ReadBlob(r: Request, ok: bool)
    | PutCopy(r: Request, ok: bool)
    | ReadVersion(file: Id, index: nat)
    | ReadCurrent(r: Request, ok: bool)
    | SaveCurrent(r: Request, ok: bool)
    | Switch(r: Request, ok: bool)
    | Tidy(r: Request, ok: bool)
    | DeleteRow(file: Id)
    | Purge(cutoff: int)
    | DeleteBlob(r: Request, key: Key, ok: bool)
    | Stop(r: Request)
    | MakeFolder(parent: Option<Id>)
    | TrashFile(file: Id, now: int)
    | UntrashFile(file: Id)
    | MoveFile(file: Id, parent: Option<Id>)

  /** A request is in the phase the step takes it from. */
  predicate Enabled(s: State, step: Step) {
    match step
    case InsertFile(r, _) => r in s.requests && s.requests[r].Stored? && s.requests[r].target.None?
    case ReadTarget(r, _) => r in s.requests && s.requests[r].Stored? && s.requests[r].target.Some?
    case Snapshot(r, _) => r in s.requests && s.requests[r].Snapshotting?
    case Replace(r, _) => r in s.requests && s.requests[r].Replacing?
    case RollBack(r, _) => r in s.requests && s.requests[r].RollingBack?
    case ReadSource(f) => f in s.tables.files && s.tables.files[f].mime != FOLDER && s.tables.files[f].key.Some?
    case ReadBlob(r, _) => r in s.requests && s.requests[r].Copying?
    case PutCopy(r, _) => r in s.requests && s.requests[r].Holding?
    case ReadVersion(f, i) => i < |s.tables.versions| && s.tables.versions[i].file == f
    case ReadCurrent(r, _) => r in s.requests && s.requests[r].Restoring?
    case SaveCurrent(r, _) => r in s.requests && s.requests[r].Saving?
    case Switch(r, _) => r in s.requests && s.requests[r].Switching?
    case Tidy(r, _) => r in s.requests && s.requests[r].Tidying?
    case DeleteRow(f) => f in s.tables.files
    case DeleteBlob(r, k, _) => r in s.requests && s.requests[r].Deleting? && k in s.requests[r].keys
    case Stop(r) => r in s.requests
    case _ => true
  }

  function Begin(s: State, phase: Phase): State {
    s.(requests := s.requests[s.nextRequest := phase], nextRequest := s.nextRequest + 1)
  }

  function Goto(s: State, r: Request, phase: Phase): State { s.(requests := s.requests[r := phase]) }

  function End(s: State, r: Request): State { s.(requests := s.requests - {r}) }

  /** A fresh key's blob is written. */
  function Put(s: State, content: Content): State {
    s.(blobs := s.blobs[s.nextKey := content], nextKey := s.nextKey + 1)
  }

  /** Reads, and writes of fresh blobs: the tables stay as they are. */
  predicate Looks(step: Step) {
    step.PutUpload? || step.ReadTarget? || step.ReadSource? || step.ReadBlob? || step.PutCopy? || step.ReadVersion? ||
    step.ReadCurrent? || step.Stop?
  }

  function AfterLook(s: State, step: Step): State
    requires Enabled(s, step) && Looks(step)
  {
    match step
    case PutUpload(target, parent, mime, content, ok) =>
      if ok then Begin(Put(s, content), Stored(s.nextKey, target, parent, mime)) else s.(nextKey := s.nextKey + 1)
    case ReadTarget(r, ok) =>
      var p := s.requests[r];
      var f := p.target.value;
      if ok && f in s.tables.files
      then Goto(s, r, Snapshotting(p.key, f, p.mime, s.tables.files[f].key, s.tables.files[f].mime))
      else Goto(s, r, RollingBack(p.key))
    case ReadSource(f) =>
      Begin(s, Copying(s.tables.files[f].key.value, s.tables.files[f].parent, s.tables.files[f].mime))
    case ReadBlob(r, ok) =>
      var p := s.requests[r];
      if ok && p.source in s.blobs then Goto(s, r, Holding(s.blobs[p.source], p.parent, p.mime)) else End(s, r)
    case PutCopy(r, ok) =>
      var p := s.requests[r];
      if ok then Goto(Put(s, p.content), r, Stored(s.nextKey, None, p.parent, p.mime)) else End(s, r)
    case ReadVersion(f, i) => Begin(s, Restoring(f, s.tables.versions[i]))
    case ReadCurrent(r, ok) =>
      var p := s.requests[r];
      if ok && p.file in s.tables.files && s.tables.files[p.file].key.Some?
      then Goto(s, r, Saving(p.file, p.version, s.tables.files[p.file].key.value, s.tables.files[p.file].mime))
      else End(s, r)
    case Stop(r) => End(s, r)
  }

  /** Writes on behalf of a request. */
  predicate Writes(step: Step) {
    step.InsertFile? || step.Snapshot? || step.Replace? || step.SaveCurrent? || step.Switch? || step.Tidy?
  }

  function AfterWrite(s: State, step: Step): State
    requires Enabled(s, step) && Writes(step) && s.nextId !in s.tables.files
  {
    match step
    case InsertFile(r, ok) =>
      var p := s.requests[r];
      var t := DriveTables.InsertFile(s.tables, s.nextId, File(p.parent, p.mime, Some(p.key), None));
      if ok && t.Some?
      then End(s.(tables := t.value, owner := s.owner[p.key := s.nextId], nextId := s.nextId + 1), r)
      else Goto(s, r, RollingBack(p.key))
    case Snapshot(r, ok) =>
      var p := s.requests[r];
      var next := Goto(s, r, Replacing(p.key, p.file, p.mime));
      if p.current.None? then next
      else
        var t := CreateVersion(s.tables, Version(s.nextId, p.file, p.current.value, p.currentMime));
        if ok && t.Some? then next.(tables := t.value, nextId := s.nextId + 1) else next
    case Replace(r, ok) =>
      var p := s.requests[r];
      var t := ReplaceBlob(s.tables, p.file, p.key, p.mime);
      if ok && t.Some? then End(s.(tables := t.value, owner := s.owner[p.key := p.file]), r)
      else Goto(s, r, RollingBack(p.key))
    case SaveCurrent(r, ok) =>
      var p := s.requests[r];
      var t := CreateVersion(s.tables, Version(s.nextId, p.file, p.saved, p.savedMime));
      if ok && t.Some? then Goto(s.(tables := t.value, nextId := s.nextId + 1), r, Switching(p.file, p.version))
      else End(s, r)
    case Switch(r, ok) =>
      var p := s.requests[r];
      var t := ReplaceBlob(s.tables, p.file, p.version.key, p.version.mime);
      if ok && t.Some? then Goto(s.(tables := t.value), r, Tidying(p.version)) else End(s, r)
    case Tidy(r, ok) =>
      End(if ok then s.(tables := DeleteVersion(s.tables, s.requests[r].version.id)) else s, r)
  }

  /** Deletions, and requests that are one statement. */
  predicate Deletes(step: Step) { step.RollBack? || step.DeleteBlob? || step.DeleteRow? || step.Purge? }

  /** The rows go, and a request begins that will delete their blobs. */
  function RowsDeleted(s: State, rows: set<Id>): State
    requires rows <= s.tables.files.Keys
  {
    Begin(s.(tables := DeleteRows(s.tables, rows)), Deleting(KeysIn(s.tables, rows)))
  }

  function AfterDelete(s: State, step: Step): State
    requires Enabled(s, step) && Deletes(step)
  {
    match step
    case RollBack(r, ok) =>
      End(if ok then s.(blobs := s.blobs - {s.requests[r].key}) else s, r)
    case DeleteBlob(r, k, ok) =>
      var next := Goto(s, r, Deleting(s.requests[r].keys - {k}));
      if ok then next.(blobs := s.blobs - {k}) else next
    case DeleteRow(f) => RowsDeleted(s, {f})
    case Purge(cutoff) => RowsDeleted(s, Purged(s.tables, cutoff))
  }

  predicate Edits(step: Step) { step.MakeFolder? || step.TrashFile? || step.UntrashFile? || step.MoveFile? }

  function AfterEdit(s: State, step: Step): State
    requires Edits(step) && s.nextId !in s.tables.files
  {
    match step
    case MakeFolder(parent) =>
      var t := DriveTables.InsertFile(s.tables, s.nextId, File(parent, FOLDER, None, None));
      if t.Some? then s.(tables := t.value, nextId := s.nextId + 1) else s
    case TrashFile(f, now) =>
      var t := Trash(s.tables, f, now);
      if t.Some? then s.(tables := t.value) else s
    case UntrashFile(f) =>
      var t := Untrash(s.tables, f);
      if t.Some? then s.(tables := t.value) else s
    case MoveFile(f, parent) =>
      var t := Move(s.tables, f, parent);
      if t.Some? then s.(tables := t.value) else s
  }

  function After(s: State, step: Step): State
    requires Enabled(s, step) && s.nextId !in s.tables.files
  {
    if Looks(step) then AfterLook(s, step)
    else if Writes(step) then AfterWrite(s, step)
    else if Deletes(step) then AfterDelete(s, step)
    else AfterEdit(s, step)
  }

  // ---- What every run keeps ----------------------------------------------------------------------

  predicate Owns(s: State, file: Id, key: Key) { key in s.owner && s.owner[key] == file }

  /** A key belongs to one file for ever, and its blob is stored for as long as the file exists. */
  ghost predicate KeyOk(s: State, k: Key)
    requires k in s.owner
  {
    k < s.nextKey && s.owner[k] < s.nextId && (s.owner[k] in s.tables.files ==> k in s.blobs)
  }

  ghost predicate FileOk(s: State, f: Id)
    requires f in s.tables.files
  {
    f < s.nextId && (s.tables.files[f].key.Some? ==> Owns(s, f, s.tables.files[f].key.value))
  }

  ghost predicate VersionOk(s: State, v: Version) {
    v.file in s.tables.files && v.id < s.nextId && Owns(s, v.file, v.key)
  }

  /** The key a request has stored and not yet attached to a file. */
  function Unattached(p: Phase): Option<Key> {
    match p
    case Stored(k, _, _, _) => Some(k)
    case Snapshotting(k, _, _, _, _) => Some(k)
    case Replacing(k, _, _) => Some(k)
    case RollingBack(k) => Some(k)
    case _ => None
  }

  ghost predicate PhaseOk(s: State, p: Phase) {
    && (Unattached(p).Some? ==>
          var k := Unattached(p).value;
          k < s.nextKey && k !in s.owner && k in s.blobs)
    && (p.Snapshotting? && p.current.Some? ==> Owns(s, p.file, p.current.value))
    && (p.Restoring? || p.Saving? || p.Switching? ==> p.version.file == p.file && Owns(s, p.file, p.version.key))
    && (p.Saving? ==> Owns(s, p.file, p.saved))
    && (p.Deleting? ==> forall k :: k in p.keys ==> DeadKey(s, k))
  }

  /** The key's file has been deleted. */
  ghost predicate DeadKey(s: State, k: Key) { k in s.owner && s.owner[k] !in s.tables.files && s.owner[k] < s.nextId }

  ghost predicate Apart(s: State, a: Request, b: Request)
    requires a in s.requests && b in s.requests
  {
    var j, k := Unattached(s.requests[a]), Unattached(s.requests[b]);
    a != b && j.Some? && k.Some? ==> j != k
  }

  ghost predicate KeysOk(s: State) { forall k :: k in s.owner ==> KeyOk(s, k) }
  ghost predicate FilesOk(s: State) { forall f :: f in s.tables.files ==> FileOk(s, f) }
  ghost predicate VersionsOk(s: State) { forall v :: v in s.tables.versions ==> VersionOk(s, v) }
  ghost predicate PhasesOk(s: State) {
    forall r :: r in s.requests ==> r < s.nextRequest && PhaseOk(s, s.requests[r])
  }
  ghost predicate AllApart(s: State) { forall a, b :: a in s.requests && b in s.requests ==> Apart(s, a, b) }

  ghost predicate Inv(s: State) {
    KeysOk(s) && FilesOk(s) && VersionsOk(s) && PhasesOk(s) && AllApart(s)
  }

  // ---- Each step keeps it ------------------------------------------------------------------------

  /** Ids, keys and ownership only grow: a key gains an owner once, files appear under fresh ids only. */
  ghost predicate Grows(s: State, t: State) {
    && s.nextKey <= t.nextKey && s.nextId <= t.nextId && s.nextRequest <= t.nextRequest
    && (forall k :: k in s.owner ==> k in t.owner && t.owner[k] == s.owner[k])
    && (forall f :: f in t.tables.files ==> f in s.tables.files || s.nextId <= f < t.nextId)
  }

  /** The key the acting request holds. */
  function KeyOf(s: State, r: Request): Option<Key> {
    if r in s.requests then Unattached(s.requests[r]) else None
  }

  /** Only the acting request's key gains an owner; a blob that goes was that key or a dead file's. */
  ghost predicate KeysMove(s: State, t: State, r: Request) {
    && (forall k :: k in t.owner && k !in s.owner ==> KeyOf(s, r) == Some(k) && KeyOk(t, k))
    && (forall k :: k in s.blobs && k !in t.blobs ==> KeyOf(s, r) == Some(k) || DeadKey(s, k))
  }

  /** Other requests stay where they are; the acting one goes on with its own key or a fresh one. */
  ghost predicate OneActs(s: State, t: State, r: Request) {
    && (forall q :: q in t.requests && q != r ==> q in s.requests && t.requests[q] == s.requests[q])
    && (r in t.requests ==>
          && r < t.nextRequest && PhaseOk(t, t.requests[r])
          && (KeyOf(t, r).Some? ==> KeyOf(t, r) == KeyOf(s, r) || KeyOf(t, r).value >= s.nextKey))
  }

  ghost predicate RowsMove(s: State, t: State) {
    && (forall f :: f in t.tables.files ==>
          (f in s.tables.files && t.tables.files[f].key == s.tables.files[f].key) || FileOk(t, f))
    && (forall v :: v in t.tables.versions ==>
          (v in s.tables.versions && v.file in t.tables.files) || VersionOk(t, v))
  }

  lemma LocalKeepsPhase(s: State, t: State, r: Request, q: Request)
    requires KeysOk(s) && PhasesOk(s) && AllApart(s) && Grows(s, t) && KeysMove(s, t, r)
    requires q in s.requests && q != r
    ensures PhaseOk(t, s.requests[q])
  {
    assert PhaseOk(s, s.requests[q]);
    assert r in s.requests ==> Apart(s, r, q);
    hide PhasesOk, AllApart, KeysOk;
  }

  lemma LocalKeepsInv(s: State, t: State, r: Request)
    requires Inv(s) && Grows(s, t) && KeysMove(s, t, r) && OneActs(s, t, r) && RowsMove(s, t)
    ensures Inv(t)
  {
    forall k | k in t.owner
      ensures KeyOk(t, k)
    {
      hide FilesOk, VersionsOk, AllApart, RowsMove, OneActs;
      assert k in s.owner ==> KeyOk(s, k);
      assert r in s.requests ==> PhaseOk(s, s.requests[r]);
    }
    forall f | f in t.tables.files
      ensures FileOk(t, f)
    {
      hide KeysOk, VersionsOk, PhasesOk, AllApart, KeysMove, OneActs;
      assert f in s.tables.files ==> FileOk(s, f);
    }
    forall v | v in t.tables.versions
      ensures VersionOk(t, v)
    {
      hide KeysOk, FilesOk, PhasesOk, AllApart, KeysMove, OneActs;
      assert v in s.tables.versions ==> VersionOk(s, v);
    }
    forall q | q in t.requests
      ensures q < t.nextRequest && PhaseOk(t, t.requests[q])
    {
      if q != r {
        hide PhaseOk, FilesOk, VersionsOk, RowsMove;
        LocalKeepsPhase(s, t, r, q);
      }
    }
    forall a, b | a in t.requests && b in t.requests
      ensures Apart(t, a, b)
    {
      hide KeysOk, FilesOk, VersionsOk, RowsMove, KeysMove;
      assert a in s.requests && b in s.requests ==> Apart(s, a, b);
      assert a in s.requests ==> PhaseOk(s, s.requests[a]);
      assert b in s.requests ==> PhaseOk(s, s.requests[b]);
    }
  }

  /** The request that acts; a step that begins one acts as it. */
  function Actor(s: State, step: Step): Request {
    if step.PutUpload? || step.ReadSource? || step.ReadVersion? || step.DeleteRow? || step.Purge? || Edits(step)
    then s.nextRequest else step.r
  }

  /** What the step does is local to its actor. */
  ghost predicate Local(s: State, t: State, r: Request) {
    Grows(s, t) && KeysMove(s, t, r) && OneActs(s, t, r) && RowsMove(s, t)
  }

  lemma LookLeavesRows(s: State, step: Step)
    requires Enabled(s, step) && Looks(step) && Inv(s)
    ensures var t := AfterLook(s, step); Grows(s, t) && KeysMove(s, t, Actor(s, step)) && RowsMove(s, t)
  {
    hide KeysOk, FilesOk, VersionsOk, PhasesOk, AllApart, FOLDER, KeyOk, FileOk, DeadKey, KeyOf;
    assert forall v :: v in s.tables.versions ==> v.file in s.tables.files by { VersionsHaveFiles(s); }
    hide Inv;
  }

  lemma VersionsHaveFiles(s: State)
    requires Inv(s)
    ensures forall v :: v in s.tables.versions ==> v.file in s.tables.files
  {
    assert forall v :: v in s.tables.versions ==> VersionOk(s, v);
  }

  lemma PutActsAlone(s: State, step: Step)
    requires Enabled(s, step) && (step.PutUpload? || step.PutCopy?) && Inv(s)
    ensures OneActs(s, AfterLook(s, step), Actor(s, step))
  {
    assert s.nextKey in s.owner ==> KeyOk(s, s.nextKey);
    hide AllApart, FOLDER, KeysOk, FilesOk, VersionsOk, KeyOk;
  }

  lemma ReadTargetActsAlone(s: State, step: Step)
    requires Enabled(s, step) && step.ReadTarget? && Inv(s)
    ensures OneActs(s, AfterLook(s, step), Actor(s, step))
  {
    hide FOLDER, AllApart, KeysOk, VersionsOk;
    assert PhaseOk(s, s.requests[step.r]);
    var f := s.requests[step.r].target.value;
    assert f in s.tables.files ==> FileOk(s, f);
    hide Inv, FilesOk, KeyOk;
  }

  lemma ReadCurrentActsAlone(s: State, step: Step)
    requires Enabled(s, step) && step.ReadCurrent? && Inv(s)
    ensures OneActs(s, AfterLook(s, step), Actor(s, step))
  {
    hide FOLDER, AllApart, KeysOk, VersionsOk;
    assert PhaseOk(s, s.requests[step.r]);
    var f := s.requests[step.r].file;
    assert f in s.tables.files ==> FileOk(s, f);
    hide Inv, FilesOk, KeyOk;
  }

  lemma ReadActsAlone(s: State, step: Step)
    requires Enabled(s, step) && (step.ReadSource? || step.ReadBlob? || step.ReadVersion? || step.Stop?) && Inv(s)
    ensures OneActs(s, AfterLook(s, step), Actor(s, step))
  {
    hide FOLDER, AllApart, KeysOk, FilesOk;
    assert step.ReadVersion? ==> VersionOk(s, s.tables.versions[step.index]);
    hide Inv, VersionsOk, KeyOk;
  }

  lemma InsertIsLocal(s: State, step: Step)
    requires Enabled(s, step) && step.InsertFile? && Inv(s) && s.nextId !in s.tables.files
    ensures Local(s, AfterWrite(s, step), Actor(s, step))
  {
    VersionsHaveFiles(s);
    hide KeysOk, FilesOk, VersionsOk, AllApart, FOLDER, Filtered, Cascade;
    assert PhaseOk(s, s.requests[step.r]);
    hide Inv, PhasesOk;
  }

  lemma ReplaceIsLocal(s: State, step: Step)
    requires Enabled(s, step) && step.Replace? && Inv(s) && s.nextId !in s.tables.files
    ensures Local(s, AfterWrite(s, step), Actor(s, step))
  {
    VersionsHaveFiles(s);
    hide KeysOk, FilesOk, VersionsOk, AllApart, FOLDER, Filtered, Cascade;
    assert PhaseOk(s, s.requests[step.r]);
    hide Inv, PhasesOk;
  }

  lemma SwitchIsLocal(s: State, step: Step)
    requires Enabled(s, step) && step.Switch? && Inv(s) && s.nextId !in s.tables.files
    ensures Local(s, AfterWrite(s, step), Actor(s, step))
  {
    VersionsHaveFiles(s);
    hide KeysOk, FilesOk, VersionsOk, AllApart, FOLDER, Filtered, Cascade;
    assert PhaseOk(s, s.requests[step.r]);
    hide Inv, PhasesOk;
  }

  lemma SnapshotIsLocal(s: State, step: Step)
    requires Enabled(s, step) && step.Snapshot? && Inv(s) && s.nextId !in s.tables.files
    ensures Local(s, AfterWrite(s, step), Actor(s, step))
  {
    VersionsHaveFiles(s);
    hide KeysOk, FilesOk, VersionsOk, AllApart, FOLDER, Filtered, Cascade;
    assert PhaseOk(s, s.requests[step.r]);
    hide Inv, PhasesOk;
  }

  lemma SaveIsLocal(s: State, step: Step)
    requires Enabled(s, step) && step.SaveCurrent? && Inv(s) && s.nextId !in s.tables.files
    ensures Local(s, AfterWrite(s, step), Actor(s, step))
  {
    VersionsHaveFiles(s);
    hide KeysOk, FilesOk, VersionsOk, AllApart, FOLDER, Filtered, Cascade;
    assert PhaseOk(s, s.requests[step.r]);
    hide Inv, PhasesOk;
  }

  lemma TidyIsLocal(s: State, step: Step)
    requires Enabled(s, step) && step.Tidy? && Inv(s) && s.nextId !in s.tables.files
    ensures Local(s, AfterWrite(s, step), Actor(s, step))
  {
    VersionsHaveFiles(s);
    hide KeysOk, FilesOk, VersionsOk, AllApart, PhasesOk, Filtered, Inv;
    var t := AfterWrite(s, step);
    forall v | v in t.tables.versions
      ensures v in s.tables.versions && v.file in t.tables.files
    {
      FilteredHas(s.tables.versions, OtherThan(s.requests[step.r].version.id), v);
    }
  }

  lemma BlobGoneIsLocal(s: State, step: Step)
    requires Enabled(s, step) && (step.RollBack? || step.DeleteBlob?) && Inv(s)
    ensures Local(s, AfterDelete(s, step), Actor(s, step))
  {
    VersionsHaveFiles(s);
    hide KeysOk, FilesOk, VersionsOk, AllApart, FOLDER, Filtered, Cascade;
    assert PhaseOk(s, s.requests[step.r]);
    hide Inv, PhasesOk;
  }

  lemma RowsGoneIsLocal(s: State, rows: set<Id>)
    requires Inv(s) && rows <= s.tables.files.Keys
    ensures Local(s, RowsDeleted(s, rows), s.nextRequest)
  {
    RowsGone(s, rows);
    hide KeysOk, FilesOk, VersionsOk, AllApart, Filtered, Cascade, DeleteRows, KeysIn, Inv;
  }

  lemma DeletesRows(s: State, step: Step)
    requires Enabled(s, step) && (step.DeleteRow? || step.Purge?) && Inv(s)
    ensures Local(s, AfterDelete(s, step), Actor(s, step))
  {
    hide Local, RowsDeleted, Inv;
    RowsGoneIsLocal(s, if step.DeleteRow? then {step.file} else Purged(s.tables, step.cutoff));
  }

  /** Deleting rows: what is left is as it was, and the keys returned belong to no file any more. */
  lemma RowsGone(s: State, rows: set<Id>)
    requires Inv(s) && rows <= s.tables.files.Keys
    ensures var u := DeleteRows(s.tables, rows);
            && (forall f :: f in u.files ==> f in s.tables.files && u.files[f] == s.tables.files[f])
            && (forall v :: v in u.versions ==> v in s.tables.versions && v.file in u.files)
            && (forall k :: k in KeysIn(s.tables, rows) ==>
                  k in s.owner && s.owner[k] !in u.files && s.owner[k] < s.nextId)
  {
    hide AllApart, Cascade, Filtered;
    var gone := Cascade(s.tables.files, rows);
    var u := DeleteRows(s.tables, rows);
    forall v | v in u.versions
      ensures v in s.tables.versions && v.file in u.files
    {
      FilteredHas(s.tables.versions, OfNone(gone), v);
      assert VersionOk(s, v);
    }
    forall k | k in KeysIn(s.tables, rows)
      ensures k in s.owner && s.owner[k] !in u.files && s.owner[k] < s.nextId
    {
      var f :| f in rows && s.tables.files[f].key == Some(k);
      assert FileOk(s, f);
    }
  }

  lemma EditLeavesKeys(s: State, step: Step)
    requires Edits(step) && s.nextId !in s.tables.files
    ensures var t := AfterEdit(s, step);
            && t == s.(tables := t.tables, nextId := t.nextId)
            && s.nextId <= t.nextId && t.tables.versions == s.tables.versions
            && (forall f :: f in s.tables.files ==> f in t.tables.files)
            && (forall f :: f in t.tables.files ==>
                  if f in s.tables.files then t.tables.files[f].key == s.tables.files[f].key
                  else f == s.nextId < t.nextId && t.tables.files[f].key.None?)
  {
    hide FOLDER;
  }

  lemma EditIsLocal(s: State, step: Step)
    requires Edits(step) && Inv(s) && s.nextId !in s.tables.files
    ensures Local(s, AfterEdit(s, step), Actor(s, step))
  {
    VersionsHaveFiles(s);
    EditLeavesKeys(s, step);
    hide KeysOk, FilesOk, VersionsOk, AllApart, AfterEdit;
    assert s.nextRequest !in s.requests;
    hide Inv, PhasesOk, PhaseOk;
  }

  lemma NextIdIsFresh(s: State)
    requires Inv(s)
    ensures s.nextId !in s.tables.files
  {
    assert s.nextId in s.tables.files ==> FileOk(s, s.nextId);
  }

  lemma KeepsInv(s: State, step: Step)
    requires Enabled(s, step) && Inv(s)
    ensures s.nextId !in s.tables.files && Inv(After(s, step))
  {
    NextIdIsFresh(s);
    hide Inv, Grows, KeysMove, OneActs, RowsMove, AfterLook, AfterWrite, AfterDelete, AfterEdit, Actor, Enabled;
    var r := Actor(s, step);
    if Looks(step) {
      LookLeavesRows(s, step);
      if step.PutUpload? || step.PutCopy? { PutActsAlone(s, step); }
      else if step.ReadTarget? { ReadTargetActsAlone(s, step); }
      else if step.ReadCurrent? { ReadCurrentActsAlone(s, step); }
      else { ReadActsAlone(s, step); }
    } else if Writes(step) {
      if step.Tidy? { TidyIsLocal(s, step); }
      else if step.Switch? { SwitchIsLocal(s, step); }
      else if step.Snapshot? { SnapshotIsLocal(s, step); }
      else if step.SaveCurrent? { SaveIsLocal(s, step); }
      else if step.Replace? { ReplaceIsLocal(s, step); }
      else { InsertIsLocal(s, step); }
    } else if Deletes(step) {
      if step.RollBack? || step.DeleteBlob? { BlobGoneIsLocal(s, step); }
      else { DeletesRows(s, step); }
    } else {
      EditIsLocal(s, step);
    }
    LocalKeepsInv(s, After(s, step), r);
  }
}
