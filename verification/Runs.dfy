/** Runs of the file service: finite sequences of atomic operations. */
module Runs {
  import opened Base
  import opened FileTable
  import opened FileOps

  datatype Op =
    | MkDir(name: string, parent: Option<Id>, user: UserId)
    | Upload(name: string, bytes: Bytes, parent: Option<Id>, user: UserId, key: string, dup: Option<Id>, victim: Option<Id>, now: int)
    | Copy(id: Id, target: Option<Id>, user: UserId)
    | Init(user: UserId, parent: Option<Id>, name: string, total: int, uploadId: string)
    | Chunk(uploadId: string, index: int, data: Bytes, user: UserId)
    | Complete(uploadId: string, user: UserId, key: string, dup: Option<Id>)
    | Cancel(uploadId: string)
    | Rename(id: Id, name: string, user: UserId)
    | Move(id: Id, target: Option<Id>, user: UserId)
    | MoveMany(ids: seq<Id>, target: Option<Id>, user: UserId)
    | Delete(id: Id, user: UserId, now: int)
    | DeleteMany(ids: seq<Id>, user: UserId, now: int)
    | Restore(id: Id, user: UserId)
    | Purge(id: Id, user: UserId)
    | AutoClean(cutoff: int)
    | Calibrate(user: UserId)

  ghost function Apply(env: Env, s: State, op: Op): Reply {
    match op
    case MkDir(name, parent, user) => CreateDir(s, name, parent, user)
    case Upload(name, bytes, parent, user, key, dup, victim, now) =>
      UploadFile(env, s, name, bytes, parent, user, key, dup, victim, now)
    case Copy(id, target, user) => CopyFile(s, id, target, user)
    case Init(user, parent, name, total, uploadId) => InitUpload(env, s, user, parent, name, total, uploadId)
    case Chunk(uploadId, index, data, user) => UploadChunk(s, uploadId, index, data, user)
    case Complete(uploadId, user, key, dup) => CompleteUpload(env, s, uploadId, user, key, dup)
    case Cancel(uploadId) => Reply(s.(sessions := s.sessions - {uploadId}), Done)
    case Rename(id, name, user) => RenameFile(s, id, name, user)
    case Move(id, target, user) => MoveFile(s, id, target, user)
    case MoveMany(ids, target, user) => BatchMove(s, ids, target, user)
    case Delete(id, user, now) => DeleteFile(s, id, user, now)
    case DeleteMany(ids, user, now) => BatchDelete(s, ids, user, now)
    case Restore(id, user) => RestoreFile(s, id, user)
    case Purge(id, user) => PermanentDeleteFile(s, id, user)
    case AutoClean(cutoff) => AutoCleanRecycle(s, cutoff)
    case Calibrate(user) => CalibrateStorage(s, user)
  }

  /** The bytes an operation would store in a new row. */
  ghost function Payload(s: State, op: Op): Bytes {
    match op
    case Upload(_, bytes, _, _, _, _, _, _) => bytes
    case Complete(uploadId, _, _, _) =>
      if uploadId in s.sessions then Merge(s.sessions[uploadId].chunks, s.sessions[uploadId].chunkCount) else []
    case _ => []
  }

  /** What the database and the random generator guarantee: lookups answer truly, keys are fresh. */
  ghost predicate Enabled(env: Env, s: State, op: Op) {
    match op
    case Upload(name, bytes, parent, user, key, dup, victim, now) =>
      && HashLookup(s.rows, env.digest(bytes), dup)
      && NameLookup(s.rows, parent, user, name, victim)
      && key != "" && key !in s.blobs
    case Complete(uploadId, user, key, dup) =>
      && HashLookup(s.rows, env.digest(Payload(s, op)), dup)
      && key != "" && key !in s.blobs
    case Init(_, _, _, _, uploadId) => uploadId !in s.sessions
    case _ => true
  }

  /** The empty system with the given accounts. */
  function Initial(users: set<UserId>): State {
    State(map[], 1, map u | u in users :: 0, map[], map[])
  }

  ghost function Run(env: Env, s: State, ops: seq<Op>): State {
    if ops == [] then s else Apply(env, Run(env, s, ops[..|ops| - 1]), ops[|ops| - 1]).state
  }

  ghost predicate EnabledRun(env: Env, s: State, ops: seq<Op>) {
    ops == [] ||
    (EnabledRun(env, s, ops[..|ops| - 1]) && Enabled(env, Run(env, s, ops[..|ops| - 1]), ops[|ops| - 1]))
  }
}
