/**
  What each file operation does, column by column, and when it commits.  Rows are described by
  their columns and by the ancestor relation alone.
 */
module Effects {
  import opened Base
  import opened FileTable
  import opened TableEdits
  import opened Sizes
  import opened Names
  import opened FileOps
  import opened Runs
  import opened OpShapes
  import opened Structure
  import opened Accounting

  /** No active row of the user stands in the directory under this name. */
  ghost predicate Vacant(t: Table, parent: Option<Id>, user: UserId, name: string) {
    forall x :: x in t ==> !(t[x].owner == user && t[x].parent == parent && t[x].name == name && t[x].deletedAt.None?)
  }

  /** Accounts after `user` pays back `less` bytes, as far as the account goes, and is charged `more`. */
  ghost predicate Billed(used: map<UserId, nat>, used': map<UserId, nat>, user: UserId, less: nat, more: nat) {
    && used'.Keys == used.Keys
    && forall u :: u in used ==>
         used'[u] == if u == user then (if used[u] < less then 0 else used[u] - less) + more else used[u]
  }

  predicate LengthOk(name: string) {
    1 <= |name| <= 255
  }

  // -------------------------------------------------------------- creating rows

  lemma CreateDirEffect(s: State, name: string, parent: Option<Id>, user: UserId)
    ensures var r := CreateDir(s, name, parent, user);
            && (r.outcome.Created? <==>
                  LengthOk(name) && GoodParent(s.rows, parent, user) && Vacant(s.rows, parent, user, name) && user in s.used)
            && (r.outcome.Created? ==>
                  && r.outcome.id == s.nextId
                  && r.state == s.(rows := s.rows[s.nextId := Row(user, parent, name, true, 0, "", "", None)], nextId := s.nextId + 1))
  {
  }

  /** The name a new file gets: the desired one if vacant or overwritten, else the one the search finds. */
  ghost function NewName(env: Env, t: Table, parent: Option<Id>, user: UserId, name: string): Result<string, Error> {
    if env.overwrite || Vacant(t, parent, user, name) then Ok(name)
    else ResolveName(t, parent, user, name, ToLower(Ext(name)))
  }

  /** The active file rows with these contents. */
  ghost function Twins(t: Table, hash: string): set<Id> {
    set x | x in t && t[x].hash == hash && !t[x].isDir && t[x].deletedAt.None?
  }

  /** A new file shares the key of an active file with its digest, or has the fresh key and stores its bytes under it. */
  ghost predicate SharesOrStores(s: State, s': State, hash: string, bytes: Bytes, key: string, newKey: string) {
    if Twins(s.rows, hash) != {} then s'.blobs == s.blobs && exists x :: x in Twins(s.rows, hash) && x in s.rows && key == s.rows[x].key
    else key == newKey && s'.blobs == s.blobs[key := bytes]
  }

  lemma LookupFindsTwin(t: Table, hash: string, dup: Option<Id>)
    requires HashLookup(t, hash, dup)
    ensures dup.Some? <==> Twins(t, hash) != {}
    ensures dup.Some? ==> dup.value in Twins(t, hash)
  {
    HasElement(Twins(t, hash));
    if dup.Some? {
      assert dup.value in Twins(t, hash);
    } else if x :| x in Twins(t, hash) {
      assert false;
    }
  }

  lemma UploadCommitsIff(env: Env, s: State, op: Op)
    requires op.Upload? && Enabled(env, s, op)
    ensures Apply(env, s, op).outcome.Created? <==>
              && LengthOk(op.name) && ExtensionOk(env, ToLower(Ext(op.name))) && GoodParent(s.rows, op.parent, op.user)
              && |op.bytes| <= env.maxFileSize && op.user in s.used
              && NewName(env, s.rows, op.parent, op.user, op.name).Ok?
  {
    CheckedParentIf(s.rows, op.parent, op.user);
  }

  lemma UploadEffect(env: Env, s: State, op: Op)
    requires op.Upload? && Enabled(env, s, op) && s.nextId !in s.rows && Apply(env, s, op).outcome.Created?
    ensures var r := Apply(env, s, op);
            && r.outcome.id == s.nextId && r.state.nextId == s.nextId + 1 && r.state.sessions == s.sessions
            && r.state.rows.Keys == s.rows.Keys + {s.nextId}
            && (forall x :: x in s.rows ==>
                  r.state.rows[x] == if env.overwrite && op.victim == Some(x) then s.rows[x].(deletedAt := Some(op.now)) else s.rows[x])
            && var row := r.state.rows[s.nextId];
               && row == Row(op.user, op.parent, row.name, false, |op.bytes|, env.digest(op.bytes), row.key, None)
               && Ok(row.name) == NewName(env, s.rows, op.parent, op.user, op.name)
               && SharesOrStores(s, r.state, row.hash, op.bytes, row.key, op.key)
               && Billed(s.used, r.state.used, op.user,
                         if env.overwrite && op.victim.Some? then Weight(s.rows, op.victim.value) else 0, |op.bytes|)
  {
    var row, replaced := UploadShape(env, s, op.name, op.bytes, op.parent, op.user, op.key, op.dup, op.victim, op.now);
    UploadCommitsIff(env, s, op);
    LookupFindsTwin(s.rows, env.digest(op.bytes), op.dup);
    AddFileRows(s, row, op.bytes, op.dup, replaced, op.now);
    AddFileEffect(s, row, op.bytes, op.dup, replaced, op.now);
    UploadName(env, s, op, row);
  }

  /** The row UploadShape speaks of carries the new name. */
  lemma UploadName(env: Env, s: State, op: Op, row: Row)
    requires op.Upload? && Enabled(env, s, op) && s.nextId !in s.rows && Apply(env, s, op).outcome.Created?
    requires s.nextId in Apply(env, s, op).state.rows && Apply(env, s, op).state.rows[s.nextId] == row
    ensures Ok(row.name) == NewName(env, s.rows, op.parent, op.user, op.name)
  {
  }

  lemma AddFileEffect(s: State, row: Row, bytes: Bytes, dup: Option<Id>, victim: Option<Id>, now: int)
    requires s.nextId !in s.rows && AddFile(s, row, bytes, dup, victim, now).outcome.Created?
    ensures var s' := AddFile(s, row, bytes, dup, victim, now).state;
            && s'.nextId == s.nextId + 1 && s'.sessions == s.sessions
            && (forall x :: x in s.rows ==>
                  x in s'.rows && s'.rows[x] == if victim == Some(x) then s.rows[x].(deletedAt := Some(now)) else s.rows[x])
            && s'.blobs == (if dup.Some? then s.blobs else s.blobs[row.key := bytes])
            && Billed(s.used, s'.used, row.owner,
                      if victim.Some? && victim.value in s.rows then Weight(s.rows, victim.value) else 0, row.size)
  {
  }

  /** The name a copy gets. */
  ghost function CopyName(t: Table, id: Id, target: Option<Id>, user: UserId): Result<string, Error>
    requires id in t
  {
    if Vacant(t, target, user, t[id].name) then Ok(t[id].name)
    else ResolveName(t, target, user, t[id].name, Ext(t[id].name))
  }

  lemma CopyNameIs(t: Table, id: Id, target: Option<Id>, user: UserId)
    requires id in t
    ensures CopyName(t, id, target, user) == ResolveName(t, target, user, t[id].name, Ext(t[id].name))
  {
    VacantIff(t, target, user, t[id].name);
  }

  lemma CopyAsEffect(s: State, row: Row)
    ensures var r := CopyAs(s, row);
            && (r.outcome.Created? <==>
                  LengthOk(row.name) && row.owner in s.used && (row.parent.Some? ==> row.parent.value in s.rows))
            && (r.outcome.Created? ==>
                  && r.outcome.id == s.nextId
                  && r.state == s.(rows := s.rows[s.nextId := row], nextId := s.nextId + 1,
                                   used := s.used[row.owner := s.used[row.owner] + row.size]))
  {
  }

  /** A copy is a second row with its source's columns but directory and name, charged to its owner. */
  lemma CopyEffect(s: State, id: Id, target: Option<Id>, user: UserId)
    ensures var r := CopyFile(s, id, target, user);
            && (r.outcome.Created? <==>
                  && id in s.rows && s.rows[id].owner == user && !s.rows[id].isDir && s.rows[id].deletedAt.None?
                  && GoodParent(s.rows, target, user) && user in s.used
                  && var name := CopyName(s.rows, id, target, user); name.Ok? && LengthOk(name.value))
            && (r.outcome.Created? ==>
                  var row := s.rows[id].(parent := target, name := CopyName(s.rows, id, target, user).value);
                  && r.outcome.id == s.nextId
                  && r.state == s.(rows := s.rows[s.nextId := row], nextId := s.nextId + 1,
                                   used := s.used[user := s.used[user] + row.size]))
  {
    CheckedParentIf(s.rows, target, user);
    if id in s.rows {
      CopyNameIs(s.rows, id, target, user);
      var name := CopyName(s.rows, id, target, user);
      if name.Ok? {
        CopyAsEffect(s, s.rows[id].(parent := target, name := name.value));
      }
    }
  }

  // -------------------------------------------------------------- chunked uploads

  /** An accepted initialization opens an empty session with what was asked for, and just enough chunks. */
  lemma InitEffect(env: Env, s: State, user: UserId, parent: Option<Id>, name: string, total: int, uploadId: string)
    ensures var r := InitUpload(env, s, user, parent, name, total, uploadId);
            && (r.outcome.Done? <==>
                  && name != "" && 1 <= total <= env.maxFileSize && GoodParent(s.rows, parent, user)
                  && ExtensionOk(env, ToLower(Ext(name))))
            && (r.outcome.Done? ==>
                  && uploadId in r.state.sessions
                  && var ss := r.state.sessions[uploadId];
                     && r.state == s.(sessions := s.sessions[uploadId := ss])
                     && ss.user == user && ss.parent == parent && ss.name == name && ss.totalSize == total && ss.chunks == map[]
                     && ss.chunkSize == (if env.chunkSize > 0 then env.chunkSize else 10485760)
                     && (ss.chunkCount - 1) * ss.chunkSize < total <= ss.chunkCount * ss.chunkSize)
  {
    CheckedParentIf(s.rows, parent, user);
    if InitUpload(env, s, user, parent, name, total, uploadId).outcome.Done? {
      var size := if env.chunkSize <= 0 then DEFAULT_CHUNK_SIZE else env.chunkSize;
      RoundsUp(total, size);
    }
  }

  lemma RoundsUp(total: nat, size: nat)
    requires size > 0 && total > 0
    ensures (ChunkCount(total, size) - 1) * size < total <= ChunkCount(total, size) * size
  {
    var m := total + size - 1;
    var n := ChunkCount(total, size);
    assert m == n * size + m % size;
    assert (n - 1) * size == n * size - size;
  }

  /** An accepted chunk is stored under its index, as far as the chunk size goes; nothing else changes. */
  lemma ChunkStored(s: State, uploadId: string, index: int, data: Bytes, user: UserId)
    ensures var r := UploadChunk(s, uploadId, index, data, user);
            && (r.outcome.Done? <==>
                  && uploadId in s.sessions && s.sessions[uploadId].user == user
                  && 0 <= index < s.sessions[uploadId].chunkCount)
            && (r.outcome.Done? ==>
                  && uploadId in r.state.sessions
                  && var before, after := s.sessions[uploadId], r.state.sessions[uploadId];
                     && r.state == s.(sessions := s.sessions[uploadId := after])
                     && after == before.(chunks := after.chunks)
                     && after.chunks.Keys == before.chunks.Keys + {index}
                     && (forall i :: i in before.chunks && i != index ==> after.chunks[i] == before.chunks[i])
                     && |after.chunks[index]| == (if |data| < before.chunkSize then |data| else before.chunkSize)
                     && after.chunks[index] <= data)
  {
  }

  /** The name a finished session gives its file. */
  ghost function FinishedName(env: Env, s: State, ss: Session, dup: Option<Id>): Result<string, Error> {
    if dup.None? then Ok(ss.name) else NewName(env, s.rows, ss.parent, ss.user, ss.name)
  }

  lemma AddFileCommitsIff(s: State, row: Row, bytes: Bytes, dup: Option<Id>)
    ensures AddFile(s, row, bytes, dup, None, 0).outcome.Created? <==>
            LengthOk(row.name) && row.owner in s.used && (row.parent.Some? ==> row.parent.value in s.rows)
    ensures AddFile(s, row, bytes, dup, None, 0).outcome.Created? || AddFile(s, row, bytes, dup, None, 0).outcome.Failed?
  {
  }

  lemma ResolveIs(env: Env, t: Table, parent: Option<Id>, user: UserId, name: string)
    ensures var r := Resolve(env, t, parent, user, name, ToLower(Ext(name)), None);
            if r.Ok? then NewName(env, t, parent, user, name) == Ok(r.value.0)
            else NewName(env, t, parent, user, name) == Err(r.error)
  {
    VacantIff(t, parent, user, name);
  }

  lemma CompleteCommitsIff(env: Env, s: State, op: Op)
    requires op.Complete?
    ensures Apply(env, s, op).outcome.Created? <==>
              && op.uploadId in s.sessions && s.sessions[op.uploadId].user == op.user
              && var ss := s.sessions[op.uploadId];
                 var name := FinishedName(env, s, ss, op.dup);
                 && (forall i :: 0 <= i < ss.chunkCount ==> i in ss.chunks)
                 && op.user in s.used && (ss.parent.Some? ==> ss.parent.value in s.rows)
                 && name.Ok? && LengthOk(name.value)
  {
    if op.uploadId in s.sessions && s.sessions[op.uploadId].user == op.user {
      var ss := s.sessions[op.uploadId];
      var name := FinishedName(env, s, ss, op.dup);
      ResolveIs(env, s.rows, ss.parent, ss.user, ss.name);
      if AllChunksPresent(ss) && name.Ok? {
        var bytes := Merge(ss.chunks, ss.chunkCount);
        var row := SessionRow(env, s, ss, name.value, bytes, op.key, op.dup);
        AddFileCommitsIff(Closed(s, op.uploadId), row, bytes, op.dup);
        FinishedWith(env, s, op, name.value);
      }
    }
  }

  lemma FinishedWith(env: Env, s: State, op: Op, name: string)
    requires op.Complete? && op.uploadId in s.sessions && s.sessions[op.uploadId].user == op.user
    requires AllChunksPresent(s.sessions[op.uploadId]) && FinishedName(env, s, s.sessions[op.uploadId], op.dup) == Ok(name)
    ensures var ss, bytes := s.sessions[op.uploadId], Payload(s, op);
            CompleteUpload(env, s, op.uploadId, op.user, op.key, op.dup).outcome ==
            AddFile(Closed(s, op.uploadId), SessionRow(env, s, ss, name, bytes, op.key, op.dup), bytes, op.dup, None, 0).outcome
  {
    var ss := s.sessions[op.uploadId];
    ResolveIs(env, s.rows, ss.parent, ss.user, ss.name);
  }

  /** A committed completion adds the session's file to the session's directory and closes the session alone. */
  lemma CompleteEffect(env: Env, s: State, op: Op)
    requires op.Complete? && Enabled(env, s, op) && s.nextId !in s.rows && Apply(env, s, op).outcome.Created?
    ensures op.uploadId in s.sessions
    ensures var r, ss, bytes := Apply(env, s, op), s.sessions[op.uploadId], Payload(s, op);
            && r.outcome.id == s.nextId && r.state.nextId == s.nextId + 1 && r.state.sessions == s.sessions - {op.uploadId}
            && r.state.rows.Keys == s.rows.Keys + {s.nextId} && (forall x :: x in s.rows ==> r.state.rows[x] == s.rows[x])
            && var row := r.state.rows[s.nextId];
               && row == Row(ss.user, ss.parent, row.name, false, ss.totalSize, env.digest(bytes), row.key, None)
               && Ok(row.name) == FinishedName(env, s, ss, op.dup)
               && SharesOrStores(s, r.state, row.hash, bytes, row.key, op.key)
               && Billed(s.used, r.state.used, op.user, 0, ss.totalSize)
  {
    var row := CompleteShape(env, s, op.uploadId, op.user, op.key, op.dup);
    var ss, bytes := s.sessions[op.uploadId], Payload(s, op);
    LookupFindsTwin(s.rows, env.digest(bytes), op.dup);
    AddFileRows(Closed(s, op.uploadId), row, bytes, op.dup, None, 0);
    AddFileEffect(Closed(s, op.uploadId), row, bytes, op.dup, None, 0);
    CompleteCommitsIff(env, s, op);
  }

  /** A refused completion closes the session exactly when it got as far as naming a duplicate. */
  lemma CompleteRefused(env: Env, s: State, op: Op)
    requires op.Complete? && Apply(env, s, op).outcome.Failed?
    ensures var r := Apply(env, s, op);
            if && op.uploadId in s.sessions && s.sessions[op.uploadId].user == op.user && op.dup.Some?
               && forall i :: 0 <= i < s.sessions[op.uploadId].chunkCount ==> i in s.sessions[op.uploadId].chunks
            then r.state == s.(sessions := s.sessions - {op.uploadId})
            else r.state == s
  {
  }

  // -------------------------------------------------------------- renaming and moving

  lemma RenameEffect(s: State, id: Id, name: string, user: UserId)
    ensures var r := RenameFile(s, id, name, user);
            && (r.outcome.Done? <==>
                  && LengthOk(name) && id in s.rows && s.rows[id].owner == user
                  && (s.rows[id].name == name || Vacant(s.rows, s.rows[id].parent, user, name)))
            && (r.outcome.Done? ==> r.state == s.(rows := s.rows[id := s.rows[id].(name := name)]))
  {
    if id in s.rows && s.rows[id].name == name {
      assert s.rows[id := s.rows[id].(name := name)] == s.rows;
    }
  }

  /** What the move operations ask of one row: found, active, not the target, its name vacant there, and the guard as coded. */
  ghost predicate Movable(t: Table, id: Id, target: Option<Id>, user: UserId) {
    && id in t && t[id].owner == user && t[id].deletedAt.None? && target != Some(id)
    && Vacant(t, target, user, t[id].name)
    && (t[id].isDir && target.Some? ==> !Below(t, target.value, target.value) && !Below(t, id, target.value))
  }

  lemma MovableIff(t: Table, id: Id, target: Option<Id>, user: UserId)
    ensures MoveCheck(t, id, target, user).None? <==> Movable(t, id, target, user)
  {
    if id in t {
      VacantIff(t, target, user, t[id].name);
    }
  }

  lemma VacantIff(t: Table, parent: Option<Id>, user: UserId, name: string)
    ensures Vacant(t, parent, user, name) <==> !NameTaken(t, parent, user, name)
  {
    if x :| x in t && t[x].owner == user && t[x].parent == parent && t[x].name == name && t[x].deletedAt.None? {
      assert Named(t, parent, user, name, x);
    }
  }

  /** The listed rows end up in the target directory, the root included, and nothing else changes. */
  ghost predicate Moved(s: State, s': State, ids: set<Id>, target: Option<Id>) {
    && s' == s.(rows := s'.rows) && s'.rows.Keys == s.rows.Keys
    && forall x :: x in s.rows ==> s'.rows[x] == if x in ids then s.rows[x].(parent := target) else s.rows[x]
  }

  lemma MoveEffect(s: State, id: Id, target: Option<Id>, user: UserId)
    ensures var r := MoveFile(s, id, target, user);
            && (r.outcome.Done? <==> GoodParent(s.rows, target, user) && Movable(s.rows, id, target, user))
            && (r.outcome.Done? ==> Moved(s, r.state, {id}, target))
  {
    MovableIff(s.rows, id, target, user);
    CheckedParentIf(s.rows, target, user);
  }

  lemma {:induction false} AllMovableIff(t: Table, ids: seq<Id>, target: Option<Id>, user: UserId)
    ensures FirstMoveError(t, ids, target, user).None? <==> forall id :: id in ids ==> Movable(t, id, target, user)
  {
    if ids != [] {
      var front, id := ids[..|ids| - 1], ids[|ids| - 1];
      assert ids == front + [id];
      AllMovableIff(t, front, target, user);
      MovableIff(t, id, target, user);
    }
  }

  lemma BatchMoveEffect(s: State, ids: seq<Id>, target: Option<Id>, user: UserId)
    ensures var r := BatchMove(s, ids, target, user);
            && (r.outcome.Done? <==>
                  ids != [] && GoodParent(s.rows, target, user) && forall id :: id in ids ==> Movable(s.rows, id, target, user))
            && (r.outcome.Done? ==> Moved(s, r.state, (set x | x in ids), target))
  {
    AllMovableIff(s.rows, ids, target, user);
    CheckedParentIf(s.rows, target, user);
  }

  // -------------------------------------------------------------- deleting and restoring

  /** x is id, or lies below the directory id with this status. */
  ghost predicate Reaches(t: Table, id: Id, x: Id, deleted: bool)
    requires id in t && x in t
  {
    x == id || (t[id].isDir && Below(t, x, id) && t[x].deletedAt.Some? == deleted)
  }

  /** Exactly the marked rows carry the date, and rows keep every other column. */
  ghost predicate MarksDeleted(t: Table, t': Table, marked: set<Id>, now: int) {
    && t'.Keys == t.Keys
    && forall x :: x in t ==> t'[x] == if x in marked then t[x].(deletedAt := Some(now)) else t[x]
  }

  lemma DeleteEffect(s: State, id: Id, user: UserId, now: int)
    ensures var r := DeleteFile(s, id, user, now);
            && (r.outcome.Done? <==> id in s.rows && s.rows[id].owner == user && (s.rows[id].isDir ==> !Below(s.rows, id, id)))
            && (r.outcome.Done? ==>
                  var marked := set x | x in s.rows && Reaches(s.rows, id, x, false);
                  && r.state == s.(rows := r.state.rows, used := r.state.used)
                  && MarksDeleted(s.rows, r.state.rows, marked, now)
                  && Billed(s.used, r.state.used, user, SizeSum(s.rows, marked), 0))
  {
    if id in s.rows {
      SubtreeIs(s.rows, id, false);
    }
  }

  lemma SubtreeIs(t: Table, id: Id, deleted: bool)
    requires id in t
    ensures Subtree(t, id, deleted) == set x | x in t && Reaches(t, id, x, deleted)
  {
  }

  ghost predicate Deletable(t: Table, id: Id, user: UserId) {
    id in t && t[id].owner == user && t[id].deletedAt.None? && (t[id].isDir ==> !Below(t, id, id))
  }

  ghost function ReachedFrom(t: Table, ids: seq<Id>): set<Id> {
    set x | x in t && exists id :: id in ids && id in t && Reaches(t, id, x, false)
  }

  lemma {:induction false} BatchMarks(t: Table, ids: seq<Id>, user: UserId)
    ensures FirstDeleteError(t, ids, user).None? <==> forall id :: id in ids ==> Deletable(t, id, user)
    ensures ActiveSubtrees(t, ids) == ReachedFrom(t, ids)
  {
    if ids != [] {
      var front, id := ids[..|ids| - 1], ids[|ids| - 1];
      assert ids == front + [id];
      BatchMarks(t, front, user);
      assert DeleteCheck(t, id, user).None? <==> Deletable(t, id, user);
      assert (forall i :: i in ids ==> Deletable(t, i, user)) <==>
             (forall i :: i in front ==> Deletable(t, i, user)) && Deletable(t, id, user);
      if id in t {
        SubtreeIs(t, id, false);
      }
    }
  }

  lemma BatchDeleteEffect(s: State, ids: seq<Id>, user: UserId, now: int)
    ensures var r := BatchDelete(s, ids, user, now);
            && (r.outcome.Done? <==> ids != [] && forall id :: id in ids ==> Deletable(s.rows, id, user))
            && (r.outcome.Done? ==>
                  && r.state == s.(rows := r.state.rows, used := r.state.used)
                  && MarksDeleted(s.rows, r.state.rows, ReachedFrom(s.rows, ids), now))
  {
    BatchMarks(s.rows, ids, user);
  }

  /** The row's parent is an id without a row, or a row that is deleted or someone else's. */
  ghost predicate Orphaned(t: Table, id: Id, user: UserId)
    requires id in t
  {
    t[id].parent.Some? && (t[id].parent.value in t ==> t[t[id].parent.value].owner != user || t[t[id].parent.value].deletedAt.Some?)
  }

  lemma RestoreEffect(s: State, id: Id, user: UserId)
    ensures var r := RestoreFile(s, id, user);
            && (r.outcome.Done? <==>
                  && id in s.rows && s.rows[id].owner == user && s.rows[id].deletedAt.Some?
                  && (Orphaned(s.rows, id, user) ==> s.rows[id].isDir) && (s.rows[id].isDir ==> !Below(s.rows, id, id)))
            && (r.outcome.Done? ==>
                  var back := set x | x in s.rows && Reaches(s.rows, id, x, true);
                  && r.state == s.(rows := r.state.rows, used := r.state.used) && r.state.rows.Keys == s.rows.Keys
                  && (forall x :: x in s.rows ==>
                        r.state.rows[x] == s.rows[x].(
                          deletedAt := if x in back then None else s.rows[x].deletedAt,
                          parent := if x == id && Orphaned(s.rows, id, user) then None else s.rows[x].parent))
                  && Billed(s.used, r.state.used, user, 0, SizeSum(s.rows, back)))
  {
    if id in s.rows {
      SubtreeIs(s.rows, id, true);
    }
  }

  // -------------------------------------------------------------- purging

  /** Rows outside `gone` stay as they are, rows in it go. */
  ghost predicate Drops(t: Table, t': Table, gone: set<Id>) {
    forall x :: (x in t' <==> x in t && x !in gone) && (x in t' ==> t'[x] == t[x])
  }

  /** A blob is freed exactly when some row of `files` is the only one that holds its key. */
  ghost predicate FreesSoleBlobs(s: State, s': State, files: set<Id>) {
    forall k ::
      && (k in s'.blobs <==>
            k in s.blobs && !(k != "" && exists x :: x in files && SoleHolder(s.rows, x, k)))
      && (k in s'.blobs ==> s'.blobs[k] == s.blobs[k])
  }

  ghost predicate SoleHolder(t: Table, x: Id, k: string) {
    x in t && t[x].key == k && forall y :: y in t && t[y].key == k ==> y == x
  }

  lemma SoleHolderIff(t: Table, x: Id)
    requires x in t
    ensures |Holders(t, t[x].key)| <= 1 <==> SoleHolder(t, x, t[x].key)
  {
    var held := Holders(t, t[x].key);
    if SoleHolder(t, x, t[x].key) {
      forall y ensures y in held <==> y in {x} {}
      assert held == {x};
    }
    if |held| <= 1 {
      forall y | y in t && t[y].key == t[x].key ensures y == x {
        SubsetSize({x, y}, held);
      }
    }
  }

  lemma FreedIff(t: Table, files: set<Id>, k: string)
    ensures k in FreedKeys(t, files) <==> k != "" && exists x :: x in files && SoleHolder(t, x, k)
  {
    forall x | x in t ensures |Holders(t, t[x].key)| <= 1 <==> SoleHolder(t, x, t[x].key) {
      SoleHolderIff(t, x);
    }
  }

  lemma PurgeEffect(s: State, id: Id, user: UserId)
    ensures var r := PermanentDeleteFile(s, id, user);
            && (r.outcome.Done? <==>
                  && id in s.rows && s.rows[id].owner == user && s.rows[id].deletedAt.Some?
                  && (s.rows[id].isDir ==> !Below(s.rows, id, id)))
            && (r.outcome.Done? ==>
                  var gone := set x | x in s.rows && Reaches(s.rows, id, x, true);
                  && r.state.nextId == s.nextId && r.state.sessions == s.sessions
                  && Drops(s.rows, r.state.rows, gone) && FreesSoleBlobs(s, r.state, gone)
                  && Billed(s.used, r.state.used, user, SizeSum(s.rows, gone), 0))
  {
    var r := PermanentDeleteFile(s, id, user);
    if r.outcome.Done? {
      SubtreeIs(s.rows, id, true);
      var gone := Subtree(s.rows, id, true);
      forall k ensures k in r.state.blobs <==> k in s.blobs && !(k != "" && exists x :: x in gone && SoleHolder(s.rows, x, k)) {
        FreedIff(s.rows, gone, k);
      }
    }
  }

  /** c is a directory deleted before the cutoff, off every cycle, and x lies below it. */
  ghost predicate UnderOld(t: Table, cutoff: int, x: Id, c: Id) {
    c in t && t[c].deletedAt.Some? && t[c].deletedAt.value < cutoff && t[c].isDir && !Below(t, c, c) && Below(t, x, c)
  }

  /** A row stays iff it is active, or it was deleted no earlier than the cutoff and below no directory deleted earlier. */
  ghost predicate SurvivesCleaning(t: Table, cutoff: int, x: Id)
    requires x in t
  {
    t[x].deletedAt.None? || (t[x].deletedAt.value >= cutoff && forall c :: !UnderOld(t, cutoff, x, c))
  }

  lemma CleaningEffect(s: State, cutoff: int)
    ensures var s' := AutoCleanRecycle(s, cutoff).state;
            var gone := set x | x in s.rows && !SurvivesCleaning(s.rows, cutoff, x);
            && AutoCleanRecycle(s, cutoff).outcome.Done?
            && s'.nextId == s.nextId && s'.sessions == s.sessions && s'.used.Keys == s.used.Keys
            && Drops(s.rows, s'.rows, gone)
            && FreesSoleBlobs(s, s', (set x | x in gone && x in s.rows && !s.rows[x].isDir))
            && forall u :: u in s.used ==>
                 var owed := SizeSum(s.rows, set x | x in gone && x in s.rows && s.rows[x].owner == u);
                 s'.used[u] == if s.used[u] < owed then 0 else s.used[u] - owed
  {
    var t := s.rows;
    var s' := AutoCleanRecycle(s, cutoff).state;
    var gone := set x | x in t && !SurvivesCleaning(t, cutoff, x);
    SweptIs(t, cutoff);
    var files := set x | x in gone && x in t && !t[x].isDir;
    assert files == FilesIn(t, gone);
    forall k ensures k in s'.blobs <==> k in s.blobs && !(k != "" && exists x :: x in files && SoleHolder(t, x, k)) {
      FreedIff(t, files, k);
    }
    forall u | u in s.used
      ensures var owed := SizeSum(t, set x | x in gone && x in t && t[x].owner == u);
              s'.used[u] == if s.used[u] < owed then 0 else s.used[u] - owed
    {
      assert (set x | x in gone && x in t && t[x].owner == u) == OwnedIn(t, gone, u);
    }
  }

  lemma SweptIs(t: Table, cutoff: int)
    ensures Swept(t, cutoff) == set x | x in t && !SurvivesCleaning(t, cutoff, x)
  {
    forall x | x in t ensures x in Swept(t, cutoff) <==> !SurvivesCleaning(t, cutoff, x) {
      if c :| UnderOld(t, cutoff, x, c) {
        assert Expired(t, cutoff, c);
      }
      if t[x].deletedAt.Some? && SweptUnder(t, cutoff, x) {
        var c :| Expired(t, cutoff, c) && t[c].isDir && !Below(t, c, c) && Below(t, x, c);
        assert UnderOld(t, cutoff, x, c);
      }
    }
  }

  /** With nothing deleted before the cutoff a cleaning changes nothing. */
  lemma NothingToClean(s: State, cutoff: int)
    requires forall x :: x in s.rows && s.rows[x].deletedAt.Some? ==> s.rows[x].deletedAt.value >= cutoff
    ensures AutoCleanRecycle(s, cutoff).state == s
  {
    assert Swept(s.rows, cutoff) == {};
    assert FilesIn(s.rows, {}) == {} && FreedKeys(s.rows, {}) == {};
    forall u ensures SizeSum(s.rows, OwnedIn(s.rows, {}, u)) == 0 {
      assert OwnedIn(s.rows, {}, u) == {};
    }
    assert Remove(s.rows, {}) == s.rows && s.blobs - {} == s.blobs;
    assert AutoCleanRecycle(s, cutoff).state.used == s.used;
  }

  /** Calibration sets one account to the user's active bytes; cancelling drops one session. */
  lemma CalibrateAndCancel(env: Env, s: State, user: UserId, uploadId: string)
    ensures var r := Apply(env, s, Calibrate(user));
            && (r.outcome.Done? <==> user in s.used)
            && r.state == s.(used := if user in s.used then s.used[user := ActiveSum(s.rows, user)] else s.used)
    ensures Apply(env, s, Cancel(uploadId)) == Reply(s.(sessions := s.sessions - {uploadId}), Done)
  {
  }

  // -------------------------------------------------------------- names and extensions

  /** With a list of allowed extensions exactly those pass; without one exactly those not blocked, letter case aside. */
  lemma ExtensionRule(env: Env, ext: string)
    ensures env.allowed != [] ==> (ExtensionOk(env, ext) <==> exists i :: 0 <= i < |env.allowed| && ToLower(env.allowed[i]) == ext)
    ensures env.allowed == [] ==> (ExtensionOk(env, ext) <==> forall i :: 0 <= i < |env.blocked| ==> ToLower(env.blocked[i]) != ext)
  {
    if a :| a in env.allowed && ToLower(a) == ext {
      var i :| 0 <= i < |env.allowed| && env.allowed[i] == a;
    }
  }

  /** A file whose extension is blocked is uploaded by neither way. */
  lemma BlockedIsRefused(env: Env, s: State, op: Op)
    requires (op.Upload? || op.Init?) && env.allowed == []
    requires exists i :: 0 <= i < |env.blocked| && ToLower(env.blocked[i]) == ToLower(Ext(op.name))
    ensures Apply(env, s, op).outcome.Failed? && Apply(env, s, op).state == s
  {
    ExtensionRule(env, ToLower(Ext(op.name)));
  }

  // -------------------------------------------------------------- refusals

  /** The directory an operation names: where it creates, or moves to. */
  function DirectoryOf(s: State, op: Op): Option<Id> {
    match op
    case MkDir(_, parent, _) => parent
    case Upload(_, _, parent, _, _, _, _, _) => parent
    case Init(_, parent, _, _, _) => parent
    case Copy(_, target, _) => target
    case Move(_, target, _) => target
    case MoveMany(_, target, _) => target
    case Complete(uploadId, _, _, _) => if uploadId in s.sessions then s.sessions[uploadId].parent else None
    case _ => None
  }

  function UserOf(op: Op): UserId {
    if op.Cancel? || op.AutoClean? then 0 else op.user
  }

  /** The rows an operation names. */
  function RowsOf(op: Op): seq<Id> {
    match op
    case Copy(id, _, _) => [id]
    case Rename(id, _, _) => [id]
    case Move(id, _, _) => [id]
    case MoveMany(ids, _, _) => ids
    case Delete(id, _, _) => [id]
    case DeleteMany(ids, _, _) => ids
    case Restore(id, _) => [id]
    case Purge(id, _) => [id]
    case _ => []
  }

  /** The row is not there for this operation: missing, someone else's, or of the wrong status. */
  ghost predicate NotThere(t: Table, op: Op, id: Id) {
    || id !in t || t[id].owner != UserOf(op)
    || (t[id].deletedAt.Some? && (op.Copy? || op.Move? || op.MoveMany? || op.DeleteMany?))
    || (t[id].deletedAt.None? && (op.Restore? || op.Purge?))
    || (t[id].isDir && op.Copy?)
  }

  /** What the search for a new name answers where one is needed. */
  ghost function NameSearch(env: Env, s: State, op: Op): Result<string, Error> {
    match op
    case MkDir(name, _, _) => Ok(name)
    case Rename(_, name, _) => Ok(name)
    case Upload(name, _, parent, user, _, _, _, _) => if LengthOk(name) then NewName(env, s.rows, parent, user, name) else Ok(name)
    case Copy(id, target, user) =>
      if id in s.rows then ResolveName(s.rows, target, user, s.rows[id].name, Ext(s.rows[id].name)) else Ok("")
    case Complete(uploadId, _, _, dup) =>
      if uploadId in s.sessions then FinishedName(env, s, s.sessions[uploadId], dup) else Ok("")
    case _ => Ok("")
  }

  ghost predicate NameClashes(env: Env, s: State, op: Op) {
    match op
    case MkDir(name, parent, user) => !Vacant(s.rows, parent, user, name)
    case Rename(id, name, user) => id in s.rows && !Vacant(s.rows, s.rows[id].parent, user, name)
    case Move(_, target, user) => exists id :: id in RowsOf(op) && id in s.rows && !Vacant(s.rows, target, user, s.rows[id].name)
    case MoveMany(_, target, user) => exists id :: id in RowsOf(op) && id in s.rows && !Vacant(s.rows, target, user, s.rows[id].name)
    case _ => NameSearch(env, s, op) == Err(NameConflict)
  }

  /** The name, or the one the search would give, is empty or too long. */
  ghost predicate BadName(env: Env, s: State, op: Op) {
    if op.Init? then op.name == ""
    else
      var r := NameSearch(env, s, op);
      if r.Ok? then !LengthOk(r.value) else r.error == InvalidName
  }

  /** What each error says about the request. */
  ghost predicate Explains(env: Env, s: State, op: Op, e: Error) {
    var t, dir := s.rows, DirectoryOf(s, op);
    match e
    case NotFound =>
      || (dir.Some? && dir.value in t && t[dir.value].owner != UserOf(op))
      || exists id :: id in RowsOf(op) && NotThere(t, op, id)
    case InvalidName => BadName(env, s, op)
    case ExtensionBlocked => (op.Upload? || op.Init?) && !ExtensionOk(env, ToLower(Ext(op.name)))
    case NameConflict => NameClashes(env, s, op)
    case FileTooLarge => (op.Upload? && |op.bytes| > env.maxFileSize) || (op.Init? && op.total > env.maxFileSize)
    case InvalidSize => op.Init? && op.total <= 0
    case ParentMissing =>
      || (dir.Some? && dir.value !in t)
      || (op.Restore? && op.id in t && Orphaned(t, op.id, op.user) && !t[op.id].isDir)
    case NotADirectory => dir.Some? && dir.value in t && !t[dir.value].isDir
    case ParentDeleted => dir.Some? && dir.value in t && t[dir.value].deletedAt.Some?
    case MoveIntoSelf => dir.Some? && dir.value in RowsOf(op)
    case CycleDetected => dir.Some? && exists id :: id in RowsOf(op) && id in t && t[id].isDir && Below(t, id, dir.value)
    case QueryAborted =>
      || (dir.Some? && Below(t, dir.value, dir.value))
      || exists id :: id in RowsOf(op) && id in t && t[id].isDir && Below(t, id, id)
    case NothingSelected => RowsOf(op) == [] && (op.MoveMany? || op.DeleteMany?)
    case NoSuchUser => UserOf(op) !in s.used
    case NoSuchSession =>
      (op.Chunk? || op.Complete?) && (op.uploadId in s.sessions ==> s.sessions[op.uploadId].user != op.user)
    case IndexOutOfRange =>
      op.Chunk? && op.uploadId in s.sessions && !(0 <= op.index < s.sessions[op.uploadId].chunkCount)
    case ChunkMissing =>
      && op.Complete? && op.uploadId in s.sessions
      && exists i :: 0 <= i < s.sessions[op.uploadId].chunkCount && i !in s.sessions[op.uploadId].chunks
  }

  lemma {:induction false} MoveErrorFrom(t: Table, ids: seq<Id>, target: Option<Id>, user: UserId)
    ensures FirstMoveError(t, ids, target, user).Some? ==>
              exists id :: id in ids && MoveCheck(t, id, target, user) == FirstMoveError(t, ids, target, user)
  {
    if ids != [] {
      var front := ids[..|ids| - 1];
      MoveErrorFrom(t, front, target, user);
      assert ids == front + [ids[|ids| - 1]];
    }
  }

  lemma {:induction false} DeleteErrorFrom(t: Table, ids: seq<Id>, user: UserId)
    ensures FirstDeleteError(t, ids, user).Some? ==>
              exists id :: id in ids && DeleteCheck(t, id, user) == FirstDeleteError(t, ids, user)
  {
    if ids != [] {
      var front := ids[..|ids| - 1];
      DeleteErrorFrom(t, front, user);
      assert ids == front + [ids[|ids| - 1]];
    }
  }

  /** The operation's outcome, if it is a refusal, tells a true fault. */
  ghost predicate Truthful(env: Env, s: State, op: Op, o: Outcome) {
    o.Failed? ==> Explains(env, s, op, o.error)
  }

  lemma MkDirRefused(env: Env, s: State, op: Op)
    requires op.MkDir?
    ensures Truthful(env, s, op, CreateDir(s, op.name, op.parent, op.user).outcome)
  {
  }

  /** Where the refusal of an upload comes from: its checks, the search for a name, or a missing user. */
  lemma UploadErrorFrom(env: Env, s: State, op: Op)
    requires op.Upload? && Enabled(env, s, op)
    ensures var o := UploadFile(env, s, op.name, op.bytes, op.parent, op.user, op.key, op.dup, op.victim, op.now).outcome;
            o.Failed? ==>
              || UploadCheck(env, s.rows, op.name, |op.bytes|, op.parent, op.user) == Some(o.error)
              || (LengthOk(op.name) && NewName(env, s.rows, op.parent, op.user, op.name) == Err(o.error))
              || (o.error == NoSuchUser && op.user !in s.used)
  {
    VacantIff(s.rows, op.parent, op.user, op.name);
    CheckedParentIf(s.rows, op.parent, op.user);
  }

  lemma NewNameErrors(env: Env, t: Table, parent: Option<Id>, user: UserId, name: string)
    ensures var r := NewName(env, t, parent, user, name);
            r.Err? ==> r.error == NameConflict || r.error == InvalidName
  {
  }

  lemma UploadRefused(env: Env, s: State, op: Op)
    requires op.Upload? && Enabled(env, s, op)
    ensures Truthful(env, s, op, UploadFile(env, s, op.name, op.bytes, op.parent, op.user, op.key, op.dup, op.victim, op.now).outcome)
  {
    var o := UploadFile(env, s, op.name, op.bytes, op.parent, op.user, op.key, op.dup, op.victim, op.now).outcome;
    UploadErrorFrom(env, s, op);
    if o.Failed? {
      NewNameErrors(env, s.rows, op.parent, op.user, op.name);
      UploadFaults(env, s, op, o.error);
    }
  }

  lemma UploadFaults(env: Env, s: State, op: Op, e: Error)
    requires op.Upload?
    requires || UploadCheck(env, s.rows, op.name, |op.bytes|, op.parent, op.user) == Some(e)
             || (LengthOk(op.name) && NewName(env, s.rows, op.parent, op.user, op.name) == Err(e) && (e == NameConflict || e == InvalidName))
             || (e == NoSuchUser && op.user !in s.used)
    ensures Explains(env, s, op, e)
  {
  }

  lemma CopyRefused(env: Env, s: State, op: Op)
    requires op.Copy?
    ensures Truthful(env, s, op, CopyFile(s, op.id, op.target, op.user).outcome)
  {
    assert op.id in RowsOf(op);
  }

  lemma InitRefused(env: Env, s: State, op: Op)
    requires op.Init?
    ensures Truthful(env, s, op, InitUpload(env, s, op.user, op.parent, op.name, op.total, op.uploadId).outcome)
  {
  }

  lemma ChunkRefused(env: Env, s: State, op: Op)
    requires op.Chunk?
    ensures Truthful(env, s, op, UploadChunk(s, op.uploadId, op.index, op.data, op.user).outcome)
  {
  }

  lemma CompletionErrorFrom(env: Env, s: State, op: Op)
    requires op.Complete?
    ensures var o := CompleteUpload(env, s, op.uploadId, op.user, op.key, op.dup).outcome;
            o.Failed? && op.uploadId in s.sessions && s.sessions[op.uploadId].user == op.user && AllChunksPresent(s.sessions[op.uploadId]) ==>
              var ss := s.sessions[op.uploadId];
              var n := FinishedName(env, s, ss, op.dup);
              || n == Err(o.error)
              || (o.error == InvalidName && n.Ok? && !LengthOk(n.value))
              || (o.error == NoSuchUser && op.user !in s.used)
              || (o.error == ParentMissing && ss.parent.Some? && ss.parent.value !in s.rows)
  {
    if op.uploadId in s.sessions {
      var ss := s.sessions[op.uploadId];
      VacantIff(s.rows, ss.parent, ss.user, ss.name);
    }
  }

  lemma CompletionRefused(env: Env, s: State, op: Op)
    requires op.Complete?
    ensures Truthful(env, s, op, CompleteUpload(env, s, op.uploadId, op.user, op.key, op.dup).outcome)
  {
    var o := CompleteUpload(env, s, op.uploadId, op.user, op.key, op.dup).outcome;
    CompletionErrorFrom(env, s, op);
    if o.Failed? && op.uploadId in s.sessions && s.sessions[op.uploadId].user == op.user && AllChunksPresent(s.sessions[op.uploadId]) {
      var ss := s.sessions[op.uploadId];
      NewNameErrors(env, s.rows, ss.parent, ss.user, ss.name);
      CompletionFaults(env, s, op, o.error);
    }
  }

  lemma CompletionFaults(env: Env, s: State, op: Op, e: Error)
    requires op.Complete? && op.uploadId in s.sessions && s.sessions[op.uploadId].user == op.user
    requires var ss := s.sessions[op.uploadId];
             var n := FinishedName(env, s, ss, op.dup);
             || (n == Err(e) && (e == NameConflict || e == InvalidName))
             || (e == InvalidName && n.Ok? && !LengthOk(n.value))
             || (e == NoSuchUser && op.user !in s.used)
             || (e == ParentMissing && ss.parent.Some? && ss.parent.value !in s.rows)
    ensures Explains(env, s, op, e)
  {
  }

  lemma RowRefused(env: Env, s: State, op: Op)
    requires op.Rename? || op.Delete? || op.Restore? || op.Purge?
    ensures Truthful(env, s, op, Apply(env, s, op).outcome)
  {
    assert op.id in RowsOf(op);
  }

  lemma MoveRefused(env: Env, s: State, op: Op)
    requires op.Move?
    ensures Truthful(env, s, op, MoveFile(s, op.id, op.target, op.user).outcome)
  {
    assert op.id in RowsOf(op);
    var e := MoveCheck(s.rows, op.id, op.target, op.user);
    if e.Some? {
      MoveFaults(env, s, op, op.id, e.value);
    }
  }

  lemma MoveFaults(env: Env, s: State, op: Op, id: Id, e: Error)
    requires (op.Move? || op.MoveMany?) && id in RowsOf(op) && MoveCheck(s.rows, id, DirectoryOf(s, op), op.user) == Some(e)
    ensures Explains(env, s, op, e)
  {
    assert e == NotFound ==> NotThere(s.rows, op, id);
    if id in s.rows {
      VacantIff(s.rows, DirectoryOf(s, op), op.user, s.rows[id].name);
    }
  }

  lemma MoveManyRefused(env: Env, s: State, op: Op)
    requires op.MoveMany?
    ensures Truthful(env, s, op, BatchMove(s, op.ids, op.target, op.user).outcome)
  {
    var e := FirstMoveError(s.rows, op.ids, op.target, op.user);
    MoveErrorFrom(s.rows, op.ids, op.target, op.user);
    if e.Some? {
      var id :| id in op.ids && MoveCheck(s.rows, id, op.target, op.user) == e;
      MoveFaults(env, s, op, id, e.value);
    }
  }

  lemma DeleteManyRefused(env: Env, s: State, op: Op)
    requires op.DeleteMany?
    ensures Truthful(env, s, op, BatchDelete(s, op.ids, op.user, op.now).outcome)
  {
    var e := FirstDeleteError(s.rows, op.ids, op.user);
    DeleteErrorFrom(s.rows, op.ids, op.user);
    if e.Some? {
      var id :| id in op.ids && DeleteCheck(s.rows, id, op.user) == e;
      assert id in RowsOf(op);
      assert e.value == NotFound ==> NotThere(s.rows, op, id);
    }
  }

  /** Whatever error an operation reports, the request has that fault. */
  lemma RefusalsAreTrue(env: Env, s: State, op: Op)
    requires Enabled(env, s, op)
    ensures Truthful(env, s, op, Apply(env, s, op).outcome)
  {
    match op
    case MkDir(_, _, _) => MkDirRefused(env, s, op);
    case Upload(_, _, _, _, _, _, _, _) => UploadRefused(env, s, op);
    case Copy(_, _, _) => CopyRefused(env, s, op);
    case Init(_, _, _, _, _) => InitRefused(env, s, op);
    case Chunk(_, _, _, _) => ChunkRefused(env, s, op);
    case Complete(_, _, _, _) => CompletionRefused(env, s, op);
    case Cancel(_) =>
    case Move(_, _, _) => MoveRefused(env, s, op);
    case MoveMany(_, _, _) => MoveManyRefused(env, s, op);
    case DeleteMany(_, _, _) => DeleteManyRefused(env, s, op);
    case AutoClean(_) =>
    case Calibrate(_) =>
    case _ => RowRefused(env, s, op);
  }
}
