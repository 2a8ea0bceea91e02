/**
  What each operation of the file service does to the stored state, as a function.
  Every operation is one step: it either fails and says why, or commits.
  Two lookups are `LIMIT 1` queries without an order, so their answers are inputs here
  (`dup`, `victim`) and the predicates HashLookup and NameLookup say which answers are possible.
 */
module FileOps {
  import opened Base
  import opened FileTable
  import opened TableEdits
  import opened Sizes
  import opened Names

  newtype byte = x: int | 0 <= x < 256
  type Bytes = seq<byte>

  /** Settings the service reads, and the content hash. */
  datatype Env = Env(
    maxFileSize: int, chunkSize: int, overwrite: bool, allowed: seq<string>, blocked: seq<string>, digest: Bytes -> string)

  datatype Session = Session(
    user: UserId, parent: Option<Id>, name: string, totalSize: nat,
    chunkSize: nat, chunkCount: nat, chunks: map<int, Bytes>)

  datatype State = State(
    rows: Table, nextId: Id, used: map<UserId, nat>, blobs: map<string, Bytes>, sessions: map<string, Session>)

  datatype Outcome = Done | Created(id: Id) | Failed(error: Error)

  datatype Reply = Reply(state: State, outcome: Outcome)

  function Fail(s: State, e: Error): Reply {
    Reply(s, Failed(e))
  }

  // -------------------------------------------------------------- shared steps

  /** storage_used = GREATEST(storage_used + delta, 0) for one user. */
  function Charge(used: map<UserId, nat>, u: UserId, delta: int): map<UserId, nat> {
    if u in used then used[u := if used[u] + delta < 0 then 0 else used[u] + delta] else used
  }

  function Refund(used: map<UserId, nat>, u: UserId, size: nat): map<UserId, nat> {
    Charge(used, u, 0 - size)
  }

  /** validateParentDir; the root needs no check. */
  function CheckParent(t: Table, parent: Option<Id>, user: UserId): Option<Error> {
    if parent.None? then None
    else if parent.value !in t then Some(ParentMissing)
    else if !t[parent.value].isDir then Some(NotADirectory)
    else if t[parent.value].owner != user then Some(NotFound)
    else if t[parent.value].Deleted() then Some(ParentDeleted)
    else None
  }

  /** INSERT INTO files, with its name check and its two foreign keys. */
  function Insert(s: State, row: Row): Reply {
    if !ValidName(row.name) then Fail(s, InvalidName)
    else if row.owner !in s.used then Fail(s, NoSuchUser)
    else if row.parent.Some? && row.parent.value !in s.rows then Fail(s, ParentMissing)
    else Reply(s.(rows := s.rows[s.nextId := row], nextId := s.nextId + 1), Created(s.nextId))
  }

  /** Possible answers of the lookup of an active file by content hash. */
  ghost predicate HashLookup(t: Table, hash: string, r: Option<Id>) {
    match r
    case Some(x) => x in t && t[x].hash == hash && !t[x].isDir && t[x].Active()
    case None => forall x :: x in t ==> !(t[x].hash == hash && !t[x].isDir && t[x].Active())
  }

  /** Possible answers of the lookup of an active row by name. */
  ghost predicate NameLookup(t: Table, parent: Option<Id>, user: UserId, name: string, r: Option<Id>) {
    match r
    case Some(x) => x in t && Named(t, parent, user, name, x)
    case None => !NameTaken(t, parent, user, name)
  }

  // -------------------------------------------------------------- creating rows

  function CreateDir(s: State, name: string, parent: Option<Id>, user: UserId): Reply {
    if !ValidName(name) then Fail(s, InvalidName)
    else if CheckParent(s.rows, parent, user).Some? then Fail(s, CheckParent(s.rows, parent, user).value)
    else if NameTaken(s.rows, parent, user, name) then Fail(s, NameConflict)
    else Insert(s, Row(user, parent, name, true, 0, "", "", None))
  }

  /** resolveNameConflict: the name to use, and the row it replaces in overwrite mode. */
  function Resolve(env: Env, t: Table, parent: Option<Id>, user: UserId, name: string, ext: string, victim: Option<Id>)
    : Result<(string, Option<Id>), Error>
  {
    if env.overwrite && NameTaken(t, parent, user, name) then Ok((name, victim))
    else
      match ResolveName(t, parent, user, name, ext)
      case Ok(n) => Ok((n, None))
      case Err(e) => Err(e)
  }

  /** Soft-deletes the overwritten row, if any, and takes its size off the account. */
  function Replace(s: State, user: UserId, victim: Option<Id>, now: int): State {
    if victim.None? || victim.value !in s.rows then s
    else
      var v := victim.value;
      s.(rows := SoftDelete(s.rows, {v}, now), used := Refund(s.used, user, Weight(s.rows, v)))
  }

  /** The key a new row gets: that of the duplicate, or a fresh one. */
  function KeyFor(s: State, dup: Option<Id>, key: string): string {
    if dup.Some? && dup.value in s.rows then s.rows[dup.value].key else key
  }

  /** The transaction of an upload: replace, insert, charge; a fresh blob is stored with it. */
  function AddFile(s: State, row: Row, bytes: Bytes, dup: Option<Id>, victim: Option<Id>, now: int): Reply {
    var r := Insert(Replace(s, row.owner, victim, now), row);
    if r.outcome.Failed? then Fail(s, r.outcome.error)
    else
      var s' := r.state;
      Reply(s'.(used := Charge(s'.used, row.owner, row.size),
                blobs := if dup.Some? then s'.blobs else s'.blobs[row.key := bytes]), r.outcome)
  }

  /** validateExtension: a list of allowed extensions, if given, overrides the blocked ones. */
  predicate ExtensionOk(env: Env, ext: string) {
    if env.allowed != [] then exists a :: a in env.allowed && ToLower(a) == ext
    else forall b :: b in env.blocked ==> ToLower(b) != ext
  }

  function UploadCheck(env: Env, t: Table, name: string, size: nat, parent: Option<Id>, user: UserId): Option<Error> {
    if !ValidName(name) then Some(InvalidName)
    else if !ExtensionOk(env, ToLower(Ext(name))) then Some(ExtensionBlocked)
    else if CheckParent(t, parent, user).Some? then CheckParent(t, parent, user)
    else if size > env.maxFileSize then Some(FileTooLarge)
    else None
  }

  function UploadFile(env: Env, s: State, name: string, bytes: Bytes, parent: Option<Id>, user: UserId,
                      key: string, dup: Option<Id>, victim: Option<Id>, now: int): Reply
  {
    var e := UploadCheck(env, s.rows, name, |bytes|, parent, user);
    if e.Some? then Fail(s, e.value)
    else
      match Resolve(env, s.rows, parent, user, name, ToLower(Ext(name)), victim)
      case Err(e) => Fail(s, e)
      case Ok(pair) =>
        AddFile(s, UploadRow(env, s, pair.0, bytes, parent, user, dup, key), bytes, dup, pair.1, now)
  }

  function UploadRow(env: Env, s: State, name: string, bytes: Bytes, parent: Option<Id>, user: UserId,
                     dup: Option<Id>, key: string): Row
  {
    Row(user, parent, name, false, |bytes|, env.digest(bytes), KeyFor(s, dup, key), None)
  }

  function CopyFile(s: State, id: Id, target: Option<Id>, user: UserId): Reply {
    if id !in s.rows || s.rows[id].owner != user || s.rows[id].isDir || s.rows[id].Deleted() then Fail(s, NotFound)
    else if CheckParent(s.rows, target, user).Some? then Fail(s, CheckParent(s.rows, target, user).value)
    else
      var src := s.rows[id];
      match ResolveName(s.rows, target, user, src.name, Ext(src.name))
      case Err(e) => Fail(s, e)
      case Ok(n) => CopyAs(s, src.(parent := target, name := n))
  }

  /** The transaction of a copy: a second row with the same key, charged to its owner. */
  function CopyAs(s: State, row: Row): Reply {
    var r := Insert(s, row);
    if r.outcome.Failed? then r
    else Reply(r.state.(used := Charge(s.used, row.owner, row.size)), r.outcome)
  }

  // -------------------------------------------------------------- chunked upload

  const DEFAULT_CHUNK_SIZE: int := 10 * 1024 * 1024

  function ChunkCount(total: nat, chunkSize: nat): nat
    requires chunkSize > 0
  {
    (total + chunkSize - 1) / chunkSize
  }

  function InitUpload(env: Env, s: State, user: UserId, parent: Option<Id>, name: string, total: int, uploadId: string): Reply {
    if name == "" then Fail(s, InvalidName)
    else if total <= 0 then Fail(s, InvalidSize)
    else if total > env.maxFileSize then Fail(s, FileTooLarge)
    else if CheckParent(s.rows, parent, user).Some? then Fail(s, CheckParent(s.rows, parent, user).value)
    else if !ExtensionOk(env, ToLower(Ext(name))) then Fail(s, ExtensionBlocked)
    else
      var size := if env.chunkSize <= 0 then DEFAULT_CHUNK_SIZE else env.chunkSize;
      Reply(s.(sessions := s.sessions[uploadId := Session(user, parent, name, total, size, ChunkCount(total, size), map[])]), Done)
  }

  /** A chunk is cut to the chunk size and replaces any earlier chunk with its index. */
  function UploadChunk(s: State, uploadId: string, index: int, data: Bytes, user: UserId): Reply {
    if uploadId !in s.sessions || s.sessions[uploadId].user != user then Fail(s, NoSuchSession)
    else if !(0 <= index < s.sessions[uploadId].chunkCount) then Fail(s, IndexOutOfRange)
    else
      var ss := s.sessions[uploadId];
      var cut := if |data| <= ss.chunkSize then data else data[..ss.chunkSize];
      Reply(s.(sessions := s.sessions[uploadId := ss.(chunks := ss.chunks[index := cut])]), Done)
  }

  predicate AllChunksPresent(ss: Session) {
    forall i :: 0 <= i < ss.chunkCount ==> i in ss.chunks
  }

  /** The first n chunks, joined in index order. */
  function Merge(chunks: map<int, Bytes>, n: nat): Bytes {
    if n == 0 then [] else Merge(chunks, n - 1) + (if n - 1 in chunks then chunks[n - 1] else [])
  }

  /**
    The second half of a chunked upload.  A duplicate content resolves the name (but an overwrite
    drops the row it should replace) and drops the session first; a fresh content takes the
    session's name as it is.
   */
  function CompleteUpload(env: Env, s: State, uploadId: string, user: UserId, key: string, dup: Option<Id>): Reply {
    if uploadId !in s.sessions || s.sessions[uploadId].user != user then Fail(s, NoSuchSession)
    else if !AllChunksPresent(s.sessions[uploadId]) then Fail(s, ChunkMissing)
    else
      var ss := s.sessions[uploadId];
      var bytes := Merge(ss.chunks, ss.chunkCount);
      var closed := s.(sessions := s.sessions - {uploadId});
      if dup.Some? then
        match Resolve(env, s.rows, ss.parent, user, ss.name, ToLower(Ext(ss.name)), None)
        case Err(e) => Fail(closed, e)
        case Ok(pair) => AddFile(closed, SessionRow(env, s, ss, pair.0, bytes, key, dup), bytes, dup, None, 0)
      else
        var r := AddFile(closed, SessionRow(env, s, ss, ss.name, bytes, key, dup), bytes, dup, None, 0);
        if r.outcome.Failed? then Fail(s, r.outcome.error) else r
  }

  function SessionRow(env: Env, s: State, ss: Session, name: string, bytes: Bytes, key: string, dup: Option<Id>): Row {
    Row(ss.user, ss.parent, name, false, ss.totalSize, env.digest(bytes), KeyFor(s, dup, key), None)
  }

  // -------------------------------------------------------------- renaming and moving

  function RenameFile(s: State, id: Id, name: string, user: UserId): Reply {
    if !ValidName(name) then Fail(s, InvalidName)
    else if id !in s.rows || s.rows[id].owner != user then Fail(s, NotFound)
    else if s.rows[id].name == name then Reply(s, Done)
    else if NameTaken(s.rows, s.rows[id].parent, user, name) then Fail(s, NameConflict)
    else Reply(s.(rows := Retitle(s.rows, id, name)), Done)
  }

  /** The guard of the move operations, as coded: it asks whether `id` lies under the target. */
  ghost function CycleGuard(t: Table, id: Id, target: Option<Id>): Option<Error>
    requires id in t
  {
    if !t[id].isDir || target.None? then None
    else if Below(t, target.value, target.value) then Some(QueryAborted)
    else if id in DescendantsWhere(t, target.value, false) then Some(CycleDetected)
    else None
  }

  ghost function MoveFile(s: State, id: Id, target: Option<Id>, user: UserId): Reply {
    if target == Some(id) then Fail(s, MoveIntoSelf)
    else if CheckParent(s.rows, target, user).Some? then Fail(s, CheckParent(s.rows, target, user).value)
    else if id !in s.rows || s.rows[id].owner != user || s.rows[id].Deleted() then Fail(s, NotFound)
    else if CycleGuard(s.rows, id, target).Some? then Fail(s, CycleGuard(s.rows, id, target).value)
    else if NameTaken(s.rows, target, user, s.rows[id].name) then Fail(s, NameConflict)
    else Reply(s.(rows := Reparent(s.rows, {id}, target)), Done)
  }

  ghost function MoveCheck(t: Table, id: Id, target: Option<Id>, user: UserId): Option<Error> {
    if id !in t || t[id].owner != user || t[id].Deleted() then Some(NotFound)
    else if target == Some(id) then Some(MoveIntoSelf)
    else if CycleGuard(t, id, target).Some? then CycleGuard(t, id, target)
    else if NameTaken(t, target, user, t[id].name) then Some(NameConflict)
    else None
  }

  ghost function FirstMoveError(t: Table, ids: seq<Id>, target: Option<Id>, user: UserId): Option<Error> {
    if ids == [] then None
    else
      var e := FirstMoveError(t, ids[..|ids| - 1], target, user);
      if e.Some? then e else MoveCheck(t, ids[|ids| - 1], target, user)
  }

  ghost function IdSet(ids: seq<Id>): set<Id> {
    set x | x in ids
  }

  ghost function BatchMove(s: State, ids: seq<Id>, target: Option<Id>, user: UserId): Reply {
    if ids == [] then Fail(s, NothingSelected)
    else if CheckParent(s.rows, target, user).Some? then Fail(s, CheckParent(s.rows, target, user).value)
    else if FirstMoveError(s.rows, ids, target, user).Some? then Fail(s, FirstMoveError(s.rows, ids, target, user).value)
    else Reply(s.(rows := Reparent(s.rows, IdSet(ids), target)), Done)
  }

  // -------------------------------------------------------------- deleting and restoring

  /** The row and, for a directory, its descendants with the given deletion status. */
  ghost function Subtree(t: Table, id: Id, deleted: bool): set<Id>
    requires id in t
  {
    {id} + (if t[id].isDir then DescendantsWhere(t, id, deleted) else {})
  }

  ghost predicate SubtreeAborts(t: Table, id: Id)
    requires id in t
  {
    t[id].isDir && Below(t, id, id)
  }

  ghost function DeleteFile(s: State, id: Id, user: UserId, now: int): Reply {
    if id !in s.rows || s.rows[id].owner != user then Fail(s, NotFound)
    else if SubtreeAborts(s.rows, id) then Fail(s, QueryAborted)
    else
      var ids := Subtree(s.rows, id, false);
      Reply(s.(rows := SoftDelete(s.rows, ids, now), used := Refund(s.used, user, SizeSum(s.rows, ids))), Done)
  }

  ghost function DeleteCheck(t: Table, id: Id, user: UserId): Option<Error> {
    if id !in t || t[id].owner != user || t[id].Deleted() then Some(NotFound)
    else if SubtreeAborts(t, id) then Some(QueryAborted)
    else None
  }

  ghost function FirstDeleteError(t: Table, ids: seq<Id>, user: UserId): Option<Error> {
    if ids == [] then None
    else
      var e := FirstDeleteError(t, ids[..|ids| - 1], user);
      if e.Some? then e else DeleteCheck(t, ids[|ids| - 1], user)
  }

  ghost function ActiveSubtrees(t: Table, ids: seq<Id>): set<Id> {
    if ids == [] then {}
    else
      var id := ids[|ids| - 1];
      ActiveSubtrees(t, ids[..|ids| - 1]) + (if id in t then Subtree(t, id, false) else {})
  }

  /** The bytes BatchDelete takes off the account: a row reached from two ids counts twice. */
  ghost function CountedBytes(t: Table, ids: seq<Id>): nat {
    if ids == [] then 0
    else
      var id := ids[|ids| - 1];
      CountedBytes(t, ids[..|ids| - 1]) + (if id in t then SizeSum(t, Subtree(t, id, false)) else 0)
  }

  ghost function BatchDelete(s: State, ids: seq<Id>, user: UserId, now: int): Reply {
    if ids == [] then Fail(s, NothingSelected)
    else if FirstDeleteError(s.rows, ids, user).Some? then Fail(s, FirstDeleteError(s.rows, ids, user).value)
    else
      Reply(s.(rows := SoftDelete(s.rows, ActiveSubtrees(s.rows, ids), now),
               used := Refund(s.used, user, CountedBytes(s.rows, ids))), Done)
  }

  /** The parent of a deleted row is missing, deleted or someone else's. */
  predicate ParentGone(t: Table, id: Id, user: UserId)
    requires id in t
  {
    t[id].parent.Some? &&
    var p := t[id].parent.value; p !in t || t[p].owner != user || t[p].Deleted()
  }

  ghost function RestoreFile(s: State, id: Id, user: UserId): Reply {
    if id !in s.rows || s.rows[id].owner != user || s.rows[id].Active() then Fail(s, NotFound)
    else if ParentGone(s.rows, id, user) && !s.rows[id].isDir then Fail(s, ParentMissing)
    else if SubtreeAborts(s.rows, id) then Fail(s, QueryAborted)
    else
      Reply(s.(rows := Restored(s.rows, id, user),
               used := Charge(s.used, user, SizeSum(s.rows, Subtree(s.rows, id, true)))), Done)
  }

  ghost function Restored(t: Table, id: Id, user: UserId): Table
    requires id in t
  {
    var rows := Undelete(t, Subtree(t, id, true));
    if ParentGone(t, id, user) then Reparent(rows, {id}, None) else rows
  }

  // -------------------------------------------------------------- purging

  ghost function Holders(t: Table, key: string): set<Id> {
    set x | x in t && t[x].key == key
  }

  /** Blobs a purge frees: the keys of purged rows that at most one row holds. */
  ghost function FreedKeys(t: Table, ids: set<Id>): set<string> {
    set x | x in ids && x in t && t[x].key != "" && |Holders(t, t[x].key)| <= 1 :: t[x].key
  }

  ghost function PermanentDeleteFile(s: State, id: Id, user: UserId): Reply {
    if id !in s.rows || s.rows[id].owner != user || s.rows[id].Active() then Fail(s, NotFound)
    else if SubtreeAborts(s.rows, id) then Fail(s, QueryAborted)
    else
      var ids := Subtree(s.rows, id, true);
      Reply(s.(rows := Remove(s.rows, ids), blobs := s.blobs - FreedKeys(s.rows, ids),
               used := Refund(s.used, user, SizeSum(s.rows, ids))), Done)
  }

  ghost predicate Expired(t: Table, cutoff: int, x: Id) {
    x in t && t[x].Deleted() && t[x].deletedAt.value < cutoff
  }

  /** Rows an automatic cleaning removes: the expired ones and what is deleted below an expired directory. */
  ghost function Swept(t: Table, cutoff: int): set<Id> {
    set x | x in t && (Expired(t, cutoff, x) || SweptUnder(t, cutoff, x))
  }

  ghost predicate SweptUnder(t: Table, cutoff: int, x: Id)
    requires x in t
  {
    t[x].Deleted() && exists c :: Expired(t, cutoff, c) && t[c].isDir && !Below(t, c, c) && Below(t, x, c)
  }

  ghost function FilesIn(t: Table, ids: set<Id>): set<Id> {
    set x | x in ids && x in t && !t[x].isDir
  }

  ghost function OwnedIn(t: Table, ids: set<Id>, u: UserId): set<Id> {
    set x | x in ids && x in t && t[x].owner == u
  }

  ghost function AutoCleanRecycle(s: State, cutoff: int): Reply {
    var ids := Swept(s.rows, cutoff);
    Reply(s.(rows := Remove(s.rows, ids), blobs := s.blobs - FreedKeys(s.rows, FilesIn(s.rows, ids)),
             used := map u | u in s.used :: Refund(s.used, u, SizeSum(s.rows, OwnedIn(s.rows, ids, u)))[u]), Done)
  }

  // -------------------------------------------------------------- calibration

  ghost function CalibrateStorage(s: State, u: UserId): Reply {
    if u !in s.used then Fail(s, NoSuchUser)
    else Reply(s.(used := s.used[u := ActiveSum(s.rows, u)]), Done)
  }
}
