/** What a committed creation boils down to: one transaction on a row with known columns. */
module OpShapes {
  import opened Base
  import opened FileTable
  import opened TableEdits
  import opened Sizes
  import opened Names
  import opened FileOps
  import opened Runs

  ghost predicate GoodParent(t: Table, parent: Option<Id>, user: UserId) {
    parent.Some? ==>
      && parent.value in t && t[parent.value].isDir
      && t[parent.value].owner == user && t[parent.value].Active()
  }

  function NewDir(name: string, parent: Option<Id>, user: UserId): Row {
    Row(user, parent, name, true, 0, "", "", None)
  }

  lemma CreateDirShape(s: State, name: string, parent: Option<Id>, user: UserId)
    ensures var r := CreateDir(s, name, parent, user);
            if r.outcome.Created?
            then && r == Insert(s, NewDir(name, parent, user)) && GoodParent(s.rows, parent, user)
                 && !NameTaken(s.rows, parent, user, name)
            else r.state == s && r.outcome.Failed?
  {
  }

  lemma CheckedParentIf(t: Table, parent: Option<Id>, user: UserId)
    ensures CheckParent(t, parent, user).None? ==> GoodParent(t, parent, user)
  {
  }

  /** A committed copy inserts the source's row under a name that is free in the target directory. */
  lemma CopyShape(s: State, id: Id, target: Option<Id>, user: UserId) returns (row: Row)
    ensures var r := CopyFile(s, id, target, user);
            if r.outcome.Created?
            then && r == CopyAs(s, row) && GoodParent(s.rows, target, user)
                 && id in s.rows && s.rows[id].owner == user && !s.rows[id].isDir && s.rows[id].Active()
                 && row == s.rows[id].(parent := target, name := row.name)
                 && !NameTaken(s.rows, target, user, row.name)
            else r.state == s && r.outcome.Failed?
  {
    CheckedParentIf(s.rows, target, user);
    row := NewDir("", None, user);
    if id in s.rows {
      var src := s.rows[id];
      row := src;
      match ResolveName(s.rows, target, user, src.name, Ext(src.name))
      case Ok(n) => row := src.(parent := target, name := n);
      case Err(_) =>
    }
  }

  /** The row to be replaced carries the new row's name; without one, that name is free. */
  ghost predicate VictimFits(t: Table, row: Row, victim: Option<Id>) {
    match victim
    case Some(v) => v in t && Named(t, row.parent, row.owner, row.name, v)
    case None => !NameTaken(t, row.parent, row.owner, row.name)
  }

  /** A committed upload inserts a row whose name is free, or replaces the one row it names. */
  lemma UploadShape(env: Env, s: State, name: string, bytes: Bytes, parent: Option<Id>, user: UserId,
                    key: string, dup: Option<Id>, victim: Option<Id>, now: int)
    returns (row: Row, replaced: Option<Id>)
    requires NameLookup(s.rows, parent, user, name, victim)
    ensures var r := UploadFile(env, s, name, bytes, parent, user, key, dup, victim, now);
            if r.outcome.Created?
            then && r == AddFile(s, row, bytes, dup, replaced, now) && GoodParent(s.rows, parent, user)
                 && row == UploadRow(env, s, row.name, bytes, parent, user, dup, key)
                 && VictimFits(s.rows, row, replaced)
                 && replaced == (if env.overwrite then victim else None)
            else r.state == s && r.outcome.Failed?
  {
    row, replaced := UploadRow(env, s, name, bytes, parent, user, dup, key), None;
    CheckedParentIf(s.rows, parent, user);
    if UploadCheck(env, s.rows, name, |bytes|, parent, user).None? {
      var ext := ToLower(Ext(name));
      ResolvedFits(env, s.rows, parent, user, name, ext, victim);
      match Resolve(env, s.rows, parent, user, name, ext, victim)
      case Err(_) =>
      case Ok(pair) =>
        row := UploadRow(env, s, pair.0, bytes, parent, user, dup, key);
        replaced := pair.1;
    }
  }

  lemma ResolvedFits(env: Env, t: Table, parent: Option<Id>, user: UserId, name: string, ext: string, victim: Option<Id>)
    requires NameLookup(t, parent, user, name, victim)
    ensures var r := Resolve(env, t, parent, user, name, ext, victim);
            r.Ok? ==>
              && r.value.1 == (if env.overwrite then victim else None)
              && (r.value.1.Some? ==> r.value.0 == name)
              && (r.value.1.None? ==> !NameTaken(t, parent, user, r.value.0))
  {
  }

  /** Without a victim the name resolved is taken only in overwrite mode. */
  lemma ResolvedName(env: Env, t: Table, parent: Option<Id>, user: UserId, name: string, ext: string)
    ensures var r := Resolve(env, t, parent, user, name, ext, None);
            r.Ok? ==> (NameTaken(t, parent, user, r.value.0) <==> env.overwrite && NameTaken(t, parent, user, name))
  {
  }

  /** The upload is finished without a name collision: a duplicate gets renamed, or the name is free. */
  ghost predicate FinishesUnderFreeName(env: Env, s: State, ss: Session, dup: Option<Id>) {
    (dup.Some? && !env.overwrite) || !NameTaken(s.rows, ss.parent, ss.user, ss.name)
  }

  function Closed(s: State, uploadId: string): State {
    s.(sessions := s.sessions - {uploadId})
  }

  /** A committed completion inserts a row for the merged chunks in the session's directory. */
  lemma CompleteShape(env: Env, s: State, uploadId: string, user: UserId, key: string, dup: Option<Id>)
    returns (row: Row)
    ensures var r := CompleteUpload(env, s, uploadId, user, key, dup);
            if r.outcome.Created?
            then && uploadId in s.sessions
                 && var ss := s.sessions[uploadId];
                    var bytes := Merge(ss.chunks, ss.chunkCount);
                    && AllChunksPresent(ss)
                    && r == AddFile(Closed(s, uploadId), row, bytes, dup, None, 0)
                    && row == SessionRow(env, s, ss, row.name, bytes, key, dup)
                    && (NameTaken(s.rows, ss.parent, ss.user, row.name) <==> !FinishesUnderFreeName(env, s, ss, dup))
            else (r.state == s || r.state == Closed(s, uploadId)) && r.outcome.Failed?
  {
    row := NewDir("", None, user);
    if uploadId in s.sessions {
      var ss := s.sessions[uploadId];
      var bytes := Merge(ss.chunks, ss.chunkCount);
      if dup.None? {
        row := SessionRow(env, s, ss, ss.name, bytes, key, dup);
      } else {
        ResolvedName(env, s.rows, ss.parent, ss.user, ss.name, ToLower(Ext(ss.name)));
        match Resolve(env, s.rows, ss.parent, ss.user, ss.name, ToLower(Ext(ss.name)), None)
        case Err(_) =>
        case Ok(pair) => row := SessionRow(env, s, ss, pair.0, bytes, key, dup);
      }
    }
  }

  // -------------------------------------------------------------- edits in place

  /** No row is added or removed, and owners, kinds, sizes, keys and digests stay. */
  ghost predicate EditedInPlace(s: State, s': State) {
    && s'.nextId == s.nextId && s'.blobs == s.blobs && s'.sessions == s.sessions && s'.used.Keys == s.used.Keys
    && SameFiles(s.rows, s'.rows)
  }

  ghost predicate SameFiles(t: Table, t': Table) {
    && t'.Keys == t.Keys
    && forall x :: x in t ==>
         && t'[x].owner == t[x].owner && t'[x].isDir == t[x].isDir && t'[x].size == t[x].size
         && t'[x].key == t[x].key && t'[x].hash == t[x].hash
  }

  lemma EditRows(s: State, s': State)
    requires s' == s.(rows := s'.rows, used := s'.used) && s'.used.Keys == s.used.Keys && SameFiles(s.rows, s'.rows)
    ensures EditedInPlace(s, s')
  {
  }

  lemma ReparentKeepsFiles(t: Table, ids: set<Id>, target: Option<Id>)
    ensures SameFiles(t, Reparent(t, ids, target))
  {
  }

  lemma SoftDeleteKeepsFiles(t: Table, ids: set<Id>, now: int)
    ensures SameFiles(t, SoftDelete(t, ids, now))
  {
  }

  lemma UndeleteKeepsFiles(t: Table, ids: set<Id>)
    ensures SameFiles(t, Undelete(t, ids))
  {
  }

  lemma RestoredKeepsFiles(t: Table, id: Id, user: UserId)
    requires id in t
    ensures SameFiles(t, Restored(t, id, user))
  {
    var ids := Subtree(t, id, true);
    UndeleteKeepsFiles(t, ids);
    ReparentKeepsFiles(Undelete(t, ids), {id}, None);
  }

  lemma RenameShape(s: State, id: Id, name: string, user: UserId)
    ensures EditedInPlace(s, RenameFile(s, id, name, user).state)
  {
    var s' := RenameFile(s, id, name, user).state;
    assert s' == s || (id in s.rows && s' == s.(rows := Retitle(s.rows, id, name)));
    assert SameFiles(s.rows, Retitle(s.rows, id, name));
    EditRows(s, s');
  }

  lemma MoveShape(s: State, id: Id, target: Option<Id>, user: UserId)
    ensures EditedInPlace(s, MoveFile(s, id, target, user).state)
  {
    var s' := MoveFile(s, id, target, user).state;
    assert s' == s || s' == s.(rows := Reparent(s.rows, {id}, target));
    ReparentKeepsFiles(s.rows, {id}, target);
    EditRows(s, s');
  }

  lemma BatchMoveShape(s: State, ids: seq<Id>, target: Option<Id>, user: UserId)
    ensures EditedInPlace(s, BatchMove(s, ids, target, user).state)
  {
    var s' := BatchMove(s, ids, target, user).state;
    assert s' == s || s' == s.(rows := Reparent(s.rows, IdSet(ids), target));
    ReparentKeepsFiles(s.rows, IdSet(ids), target);
    EditRows(s, s');
  }

  lemma DeleteShape(s: State, id: Id, user: UserId, now: int)
    ensures EditedInPlace(s, DeleteFile(s, id, user, now).state)
  {
    var s' := DeleteFile(s, id, user, now).state;
    if s' != s {
      SoftDeleteKeepsFiles(s.rows, Subtree(s.rows, id, false), now);
    }
    EditRows(s, s');
  }

  lemma BatchDeleteShape(s: State, ids: seq<Id>, user: UserId, now: int)
    ensures EditedInPlace(s, BatchDelete(s, ids, user, now).state)
  {
    var s' := BatchDelete(s, ids, user, now).state;
    SoftDeleteKeepsFiles(s.rows, ActiveSubtrees(s.rows, ids), now);
    EditRows(s, s');
  }

  lemma RestoreShape(s: State, id: Id, user: UserId)
    ensures EditedInPlace(s, RestoreFile(s, id, user).state)
  {
    var s' := RestoreFile(s, id, user).state;
    if s' != s {
      assert s'.rows == Restored(s.rows, id, user);
      RestoredKeepsFiles(s.rows, id, user);
    }
    EditRows(s, s');
  }

  // -------------------------------------------------------------- kinds of operations

  predicate Creates(op: Op) {
    op.MkDir? || op.Upload? || op.Copy? || op.Complete?
  }

  predicate Edits(op: Op) {
    op.Rename? || op.Move? || op.MoveMany? || op.Delete? || op.DeleteMany? || op.Restore?
  }

  predicate Purges(op: Op) {
    op.Purge? || op.AutoClean?
  }

  lemma EditShape(env: Env, s: State, op: Op)
    requires Edits(op)
    ensures EditedInPlace(s, Apply(env, s, op).state)
  {
    match op
    case Rename(id, name, user) => RenameShape(s, id, name, user);
    case Move(id, target, user) => MoveShape(s, id, target, user);
    case MoveMany(ids, target, user) => BatchMoveShape(s, ids, target, user);
    case Delete(id, user, now) => DeleteShape(s, id, user, now);
    case DeleteMany(ids, user, now) => BatchDeleteShape(s, ids, user, now);
    case Restore(id, user) => RestoreShape(s, id, user);
  }

  /** Rows and blobs stay; sessions keep owner and directory, a new one has a checked directory; accounts at most get calibrated. */
  ghost predicate QuietEffect(s: State, s': State) {
    && s'.rows == s.rows && s'.blobs == s.blobs && s'.nextId == s.nextId && s'.used.Keys == s.used.Keys
    && (forall u :: u in s.used ==> s'.used[u] == s.used[u] || s'.used[u] == ActiveSum(s.rows, u))
    && (forall k :: k in s'.sessions ==>
          || (k in s.sessions && s'.sessions[k].user == s.sessions[k].user && s'.sessions[k].parent == s.sessions[k].parent)
          || GoodParent(s.rows, s'.sessions[k].parent, s'.sessions[k].user))
  }

  lemma QuietShape(env: Env, s: State, op: Op)
    requires !Creates(op) && !Edits(op) && !Purges(op)
    ensures QuietEffect(s, Apply(env, s, op).state) && !Apply(env, s, op).outcome.Created?
  {
    match op
    case Init(user, parent, name, total, uploadId) => CheckedParentIf(s.rows, parent, user);
    case Chunk(_, _, _, _) =>
    case Cancel(_) =>
    case Calibrate(_) =>
  }

  /** The transaction of an upload adds its row and at most marks another one deleted. */
  lemma AddFileRows(s: State, row: Row, bytes: Bytes, dup: Option<Id>, victim: Option<Id>, now: int)
    requires s.nextId !in s.rows && AddFile(s, row, bytes, dup, victim, now).outcome.Created?
    ensures var r := AddFile(s, row, bytes, dup, victim, now);
            && r.outcome == Created(s.nextId) && r.state.rows.Keys == s.rows.Keys + {s.nextId}
            && r.state.rows[s.nextId] == row && r.state.sessions == s.sessions
            && (forall x :: x in s.rows ==> r.state.rows[x] == s.rows[x].(deletedAt := r.state.rows[x].deletedAt))
  {
  }

  /** The state stays, except that a failed completion may close its upload session. */
  ghost predicate Untouched(s: State, op: Op, s': State) {
    s' == s || (op.Complete? && s' == Closed(s, op.uploadId))
  }

  lemma CreationFailsClean(env: Env, s: State, op: Op)
    requires Creates(op) && Enabled(env, s, op)
    ensures var r := Apply(env, s, op);
            r.outcome.Created? || (r.outcome.Failed? && Untouched(s, op, r.state))
  {
    match op
    case MkDir(name, parent, user) => CreateDirShape(s, name, parent, user);
    case Upload(name, bytes, parent, user, key, dup, victim, now) =>
      var _, _ := UploadShape(env, s, name, bytes, parent, user, key, dup, victim, now);
    case Copy(id, target, user) => var _ := CopyShape(s, id, target, user);
    case Complete(uploadId, user, key, dup) => var _ := CompleteShape(env, s, uploadId, user, key, dup);
  }
}
