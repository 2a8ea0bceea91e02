/** Chunked uploads: slicing on the client, storing and merging on the server. */
module Chunks {
  import opened Base
  import opened FileTable
  import opened FileOps
  import opened OpShapes
  import opened Runs
  import opened Blobs
  import opened Effects

  // -------------------------------------------------------------- chunk counts

  /** Math.ceil */
  function Ceil(x: real): int {
    0 - (0.0 - x).Floor
  }

  /** The browser's count: Math.ceil(size / chunkSize), a division of numbers. */
  function ClientCount(size: nat, chunkSize: nat): int
    requires chunkSize > 0
  {
    Ceil(size as real / chunkSize as real)
  }

  /** Browser and server agree on the number of chunks. */
  lemma CountsAgree(size: nat, chunkSize: nat)
    requires chunkSize > 0
    ensures ClientCount(size, chunkSize) == ChunkCount(size, chunkSize)
  {
    var n := ChunkCount(size, chunkSize);
    var x := size as real / chunkSize as real;
    CountBounds(size, chunkSize);
    assert x * chunkSize as real == size as real;
    assert (n - 1) as real < x <= n as real by {
      assert (n * chunkSize) as real == n as real * chunkSize as real;
      assert ((n - 1) * chunkSize) as real == (n - 1) as real * chunkSize as real;
    }
  }

  lemma CountBounds(size: nat, chunkSize: nat)
    requires chunkSize > 0
    ensures var n := ChunkCount(size, chunkSize);
            (n - 1) * chunkSize < size <= n * chunkSize || (size == 0 && n == 0)
  {
  }

  // -------------------------------------------------------------- slices

  function SliceStart(size: nat, chunkSize: nat, i: nat): nat {
    if i * chunkSize <= size then i * chunkSize else size
  }

  /** file.slice(start, min(start + chunkSize, size)) */
  function Slice(file: Bytes, chunkSize: nat, i: nat): Bytes
    requires SliceStart(|file|, chunkSize, i) <= SliceStart(|file|, chunkSize, i + 1)
  {
    file[SliceStart(|file|, chunkSize, i)..SliceStart(|file|, chunkSize, i + 1)]
  }

  lemma SlicesAscend(size: nat, chunkSize: nat, i: nat)
    ensures SliceStart(size, chunkSize, i) <= SliceStart(size, chunkSize, i + 1)
    ensures SliceStart(size, chunkSize, i + 1) - SliceStart(size, chunkSize, i) <= chunkSize
  {
  }

  function ChunkOf(file: Bytes, chunkSize: nat, i: nat): Bytes {
    SlicesAscend(|file|, chunkSize, i);
    Slice(file, chunkSize, i)
  }

  /** Every byte of the file lies in exactly one slice, the one numbered offset / chunkSize. */
  lemma SlicesPartition(size: nat, chunkSize: nat, offset: nat, i: nat)
    requires chunkSize > 0 && offset < size
    ensures SliceStart(size, chunkSize, i) <= offset < SliceStart(size, chunkSize, i + 1) <==> i == offset / chunkSize
    ensures offset / chunkSize < ChunkCount(size, chunkSize)
  {
    var q := offset / chunkSize;
    assert offset == q * chunkSize + offset % chunkSize;
    assert (q + 1) * chunkSize == q * chunkSize + chunkSize;
    if i < q {
      assert (i + 1) * chunkSize <= q * chunkSize by { MulMonotone(i + 1, q, chunkSize); }
    } else if q < i {
      assert (q + 1) * chunkSize <= i * chunkSize by { MulMonotone(q + 1, i, chunkSize); }
    }
    var n := ChunkCount(size, chunkSize);
    CountBounds(size, chunkSize);
    if n <= q {
      MulMonotone(n, q, chunkSize);
    }
  }

  lemma MulMonotone(a: nat, b: nat, c: nat)
    requires a <= b
    ensures a * c <= b * c
  {
  }

  /** Chunks that each lead from one prefix to the next merge to the last prefix. */
  lemma {:induction false} MergedPrefix(chunks: map<int, Bytes>, prefix: nat -> Bytes, n: nat)
    requires prefix(0) == []
    requires forall i: nat :: i < n ==> i in chunks && prefix(i) + chunks[i] == prefix(i + 1)
    ensures Merge(chunks, n) == prefix(n)
  {
    if n > 0 {
      MergedPrefix(chunks, prefix, n - 1);
      assert prefix(n - 1) + chunks[n - 1] == prefix(n - 1 + 1);
    }
  }

  /** Joining the first n slices gives the file up to the n-th boundary. */
  lemma JoinedSlices(file: Bytes, chunkSize: nat, chunks: map<int, Bytes>, n: nat)
    requires forall i :: 0 <= i < n ==> i in chunks && chunks[i] == ChunkOf(file, chunkSize, i)
    ensures Merge(chunks, n) == file[..SliceStart(|file|, chunkSize, n)]
  {
    var prefix: nat -> Bytes := (i: nat) => file[..SliceStart(|file|, chunkSize, i)];
    forall i: nat | i < n ensures i in chunks && prefix(i) + chunks[i] == prefix(i + 1) {
      OneMoreSlice(file, chunkSize, i);
    }
    MergedPrefix(chunks, prefix, n);
  }

  lemma OneMoreSlice(file: Bytes, chunkSize: nat, i: nat)
    ensures file[..SliceStart(|file|, chunkSize, i)] + ChunkOf(file, chunkSize, i) == file[..SliceStart(|file|, chunkSize, i + 1)]
  {
    SlicesAscend(|file|, chunkSize, i);
  }

  // -------------------------------------------------------------- a session within a run

  /** What an operation does to a session that it leaves open. */
  function ChunkEffect(ss: Session, op: Op, uploadId: string): Session {
    if op.Chunk? && op.uploadId == uploadId && op.user == ss.user && 0 <= op.index < ss.chunkCount then
      ss.(chunks := ss.chunks[op.index := if |op.data| <= ss.chunkSize then op.data else op.data[..ss.chunkSize]])
    else ss
  }

  /** Rows may come and go without touching any session. */
  lemma SessionsStay(env: Env, s: State, op: Op)
    requires Enabled(env, s, op) && (Edits(op) || Purges(op) || op.MkDir? || op.Upload? || op.Copy? || op.Calibrate?)
    ensures Apply(env, s, op).state.sessions == s.sessions
  {
    if Edits(op) {
      EditShape(env, s, op);
    } else if op.Upload? {
      var _, _ := UploadShape(env, s, op.name, op.bytes, op.parent, op.user, op.key, op.dup, op.victim, op.now);
    } else if op.MkDir? {
      CreateDirShape(s, op.name, op.parent, op.user);
    } else if op.Copy? {
      var _ := CopyShape(s, op.id, op.target, op.user);
    }
  }

  /** Sessions change by chunks alone, and none appears but by an initialization. */
  lemma SessionEffect(env: Env, s: State, op: Op, uploadId: string)
    requires Enabled(env, s, op) && !(op.Init? && op.uploadId == uploadId)
    ensures uploadId in Apply(env, s, op).state.sessions ==>
              uploadId in s.sessions && Apply(env, s, op).state.sessions[uploadId] == ChunkEffect(s.sessions[uploadId], op, uploadId)
  {
    match op
    case Init(_, _, _, _, _) =>
    case Chunk(_, _, _, _) =>
    case Cancel(_) =>
    case Complete(id, user, key, dup) => CompletionCloses(env, s, id, user, key, dup);
    case _ => SessionsStay(env, s, op);
  }

  lemma CompletionCloses(env: Env, s: State, uploadId: string, user: UserId, key: string, dup: Option<Id>)
    ensures var s' := CompleteUpload(env, s, uploadId, user, key, dup).state;
            s'.sessions == s.sessions || s'.sessions == s.sessions - {uploadId}
  {
    var row := CompleteShape(env, s, uploadId, user, key, dup);
  }

  /** The owner sends nothing but slices of the file into this session, and its id is not drawn again. */
  ghost predicate SendsSlices(ops: seq<Op>, uploadId: string, user: UserId, file: Bytes, chunkSize: nat) {
    forall op :: op in ops ==>
      && !(op.Init? && op.uploadId == uploadId)
      && (op.Chunk? && op.uploadId == uploadId && op.user == user && op.index >= 0 ==> op.data == ChunkOf(file, chunkSize, op.index))
  }

  ghost predicate Arrived(ops: seq<Op>, uploadId: string, user: UserId, i: int) {
    exists op :: op in ops && op.Chunk? && op.uploadId == uploadId && op.user == user && op.index == i
  }

  /** ss is the session ss0 with the slices that arrived. */
  ghost predicate HoldsArrived(ss0: Session, ss: Session, ops: seq<Op>, uploadId: string, file: Bytes) {
    && ss == ss0.(chunks := ss.chunks)
    && (forall i :: i in ss.chunks <==> 0 <= i < ss0.chunkCount && Arrived(ops, uploadId, ss0.user, i))
    && (forall i :: i in ss.chunks && i >= 0 ==> ss.chunks[i] == ChunkOf(file, ss0.chunkSize, i))
  }

  lemma {:induction false} DeliveredChunks(env: Env, s: State, uploadId: string, file: Bytes, ops: seq<Op>)
    requires EnabledRun(env, s, ops) && uploadId in s.sessions && s.sessions[uploadId].chunks == map[]
    requires SendsSlices(ops, uploadId, s.sessions[uploadId].user, file, s.sessions[uploadId].chunkSize)
    ensures var s' := Run(env, s, ops);
            uploadId in s'.sessions ==> HoldsArrived(s.sessions[uploadId], s'.sessions[uploadId], ops, uploadId, file)
  {
    if ops != [] {
      var front, op := ops[..|ops| - 1], ops[|ops| - 1];
      var s1 := Run(env, s, front);
      assert ops == front + [op];
      assert op in ops;
      DeliveredChunks(env, s, uploadId, file, front);
      SessionEffect(env, s1, op, uploadId);
      if uploadId in Apply(env, s1, op).state.sessions {
        OneMoreArrival(s.sessions[uploadId], s1.sessions[uploadId], front, op, uploadId, file);
      }
    }
  }

  lemma OneMoreArrival(ss0: Session, ss: Session, front: seq<Op>, op: Op, uploadId: string, file: Bytes)
    requires HoldsArrived(ss0, ss, front, uploadId, file)
    requires SendsSlices([op], uploadId, ss0.user, file, ss0.chunkSize)
    ensures HoldsArrived(ss0, ChunkEffect(ss, op, uploadId), front + [op], uploadId, file)
  {
    assert op in [op];
    forall i
      ensures Arrived(front + [op], uploadId, ss0.user, i) <==>
              Arrived(front, uploadId, ss0.user, i) ||
              (op.Chunk? && op.uploadId == uploadId && op.user == ss0.user && op.index == i)
    {
      assert forall o :: o in front + [op] <==> o in front || o == op;
    }
    if op.Chunk? && op.index >= 0 {
      SlicesAscend(|file|, ss0.chunkSize, op.index);
    }
  }

  /**
    Round trip: whatever else happens between, and in whatever order and however often the slices
    arrive, the session is complete once every index arrived, and then the merge is the file.
   */
  lemma MergeGivesFile(env: Env, s: State, user: UserId, parent: Option<Id>, name: string, file: Bytes,
                       uploadId: string, ops: seq<Op>)
    requires InitUpload(env, s, user, parent, name, |file|, uploadId).outcome.Done?
    requires var s0 := InitUpload(env, s, user, parent, name, |file|, uploadId).state;
             EnabledRun(env, s0, ops) && SendsSlices(ops, uploadId, user, file, s0.sessions[uploadId].chunkSize)
    ensures var s0 := InitUpload(env, s, user, parent, name, |file|, uploadId).state;
            var ss0 := s0.sessions[uploadId];
            && ss0.chunkSize > 0 && ss0.chunkCount == ClientCount(|file|, ss0.chunkSize)
            && var s1 := Run(env, s0, ops);
               uploadId in s1.sessions ==>
                 var ss := s1.sessions[uploadId];
                 && ss == ss0.(chunks := ss.chunks)
                 && ss.user == user && ss.parent == parent && ss.name == name && ss.totalSize == |file|
                 && (AllChunksPresent(ss) <==> forall i :: 0 <= i < ss0.chunkCount ==> Arrived(ops, uploadId, user, i))
                 && (AllChunksPresent(ss) ==> Merge(ss.chunks, ss.chunkCount) == file)
  {
    var s0 := InitUpload(env, s, user, parent, name, |file|, uploadId).state;
    var ss0 := s0.sessions[uploadId];
    var s1 := Run(env, s0, ops);
    CountsAgree(|file|, ss0.chunkSize);
    DeliveredChunks(env, s0, uploadId, file, ops);
    if uploadId in s1.sessions {
      CompleteSession(ss0, s1.sessions[uploadId], ops, uploadId, file);
    }
  }

  lemma CompleteSession(ss0: Session, ss: Session, ops: seq<Op>, uploadId: string, file: Bytes)
    requires HoldsArrived(ss0, ss, ops, uploadId, file)
    requires ss0.chunkSize > 0 && ss0.chunkCount == ChunkCount(|file|, ss0.chunkSize)
    ensures AllChunksPresent(ss) <==> forall i :: 0 <= i < ss0.chunkCount ==> Arrived(ops, uploadId, ss0.user, i)
    ensures AllChunksPresent(ss) ==> Merge(ss.chunks, ss.chunkCount) == file
  {
    if AllChunksPresent(ss) {
      forall i | 0 <= i < ss0.chunkCount ensures Arrived(ops, uploadId, ss0.user, i) {
        assert i in ss.chunks;
      }
      JoinedSlices(file, ss0.chunkSize, ss.chunks, ss0.chunkCount);
      CountBounds(|file|, ss0.chunkSize);
      assert file[..|file|] == file;
    }
  }

  /** A committed completion adds a row of the announced size that reads back the merged chunks. */
  lemma CompletedRow(env: Env, s: State, op: Op)
    requires op.Complete? && CollisionFree(env.digest) && Stored(env, s) && Enabled(env, s, op)
    requires Apply(env, s, op).outcome.Created?
    ensures var r := Apply(env, s, op);
            && op.uploadId in s.sessions && r.outcome.id in r.state.rows
            && r.state.rows[r.outcome.id].size == s.sessions[op.uploadId].totalSize
            && Read(r.state, r.outcome.id) == Payload(s, op)
  {
  }

  lemma MissingIff(env: Env, s: State, uploadId: string, user: UserId, key: string, dup: Option<Id>)
    requires uploadId in s.sessions && s.sessions[uploadId].user == user
    ensures CompleteUpload(env, s, uploadId, user, key, dup).outcome == Failed(ChunkMissing) <==>
            !AllChunksPresent(s.sessions[uploadId])
  {
  }

  /**
    A session finished in the middle of any run: missing chunks are reported exactly when an index
    never arrived, and a committed completion leaves a row in the directory asked for, under the name
    asked for or, for a duplicate content, the one it is renamed to, that reads back the file.
   */
  lemma UploadedFileReadsBack(env: Env, s: State, user: UserId, parent: Option<Id>, name: string, file: Bytes,
                              uploadId: string, ops: seq<Op>, key: string, dup: Option<Id>)
    requires InitUpload(env, s, user, parent, name, |file|, uploadId).outcome.Done?
    requires CollisionFree(env.digest) && Stored(env, s)
    requires var s0 := InitUpload(env, s, user, parent, name, |file|, uploadId).state;
             && EnabledRun(env, s0, ops) && SendsSlices(ops, uploadId, user, file, s0.sessions[uploadId].chunkSize)
             && uploadId in Run(env, s0, ops).sessions
             && Enabled(env, Run(env, s0, ops), Complete(uploadId, user, key, dup))
    ensures var s0 := InitUpload(env, s, user, parent, name, |file|, uploadId).state;
            var r := CompleteUpload(env, Run(env, s0, ops), uploadId, user, key, dup);
            && (r.outcome == Failed(ChunkMissing) <==>
                  exists i :: 0 <= i < s0.sessions[uploadId].chunkCount && !Arrived(ops, uploadId, user, i))
            && (r.outcome.Created? ==>
                  && r.outcome.id in r.state.rows && Read(r.state, r.outcome.id) == file
                  && var row := r.state.rows[r.outcome.id];
                     && row == Row(user, parent, row.name, false, |file|, env.digest(file), row.key, None)
                     && (if dup.None? then row.name == name
                         else Ok(row.name) == NewName(env, Run(env, s0, ops).rows, parent, user, name)))
  {
    var s0 := InitUpload(env, s, user, parent, name, |file|, uploadId).state;
    var s1 := Run(env, s0, ops);
    var op := Complete(uploadId, user, key, dup);
    MergeGivesFile(env, s, user, parent, name, file, uploadId, ops);
    SameBlobs(env, s, s0);
    DeduplicationIsInvisible(env, s0, ops);
    MissingIff(env, s1, uploadId, user, key, dup);
    if Apply(env, s1, op).outcome.Created? {
      CompletedRow(env, s1, op);
      CompleteEffect(env, s1, op);
    }
  }
}
