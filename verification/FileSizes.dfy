/** The size column against the bytes a file reads back. */
module FileSizes {
  import opened Base
  import opened FileTable
  import opened TableEdits
  import opened FileOps
  import opened Runs
  import opened OpShapes
  import opened Accounting
  import opened Blobs

  ghost predicate SizesTrue(s: State) {
    forall x :: x in s.rows && !s.rows[x].isDir ==> s.rows[x].size == |Read(s, x)|
  }

  /** Chunks may be cut short or fill up on the way: the announced size is not compared with them. */
  ghost predicate MergesAnnouncedSize(s: State, op: Op) {
    op.Complete? && op.uploadId in s.sessions ==> |Payload(s, op)| == s.sessions[op.uploadId].totalSize
  }

  /** Rows keep their kind and size, and only a creation adds one. */
  ghost predicate KeepsSizes(s: State, r: Reply) {
    forall x :: x in r.state.rows ==>
      if x in s.rows then r.state.rows[x].isDir == s.rows[x].isDir && r.state.rows[x].size == s.rows[x].size
      else r.outcome == Created(x)
  }

  /** r adds one row of this kind and size. */
  ghost predicate AddsRow(s: State, r: Reply, isDir: bool, size: nat) {
    && r.outcome == Created(s.nextId) && s.nextId !in s.rows && s.nextId in r.state.rows && s.rows.Keys <= r.state.rows.Keys
    && r.state.rows[s.nextId].isDir == isDir && r.state.rows[s.nextId].size == size
  }

  lemma UploadAddsRow(env: Env, s: State, op: Op)
    requires op.Upload? && Enabled(env, s, op) && Apply(env, s, op).outcome.Created? && s.nextId !in s.rows
    ensures KeepsSizes(s, Apply(env, s, op)) && AddsRow(s, Apply(env, s, op), false, |op.bytes|)
  {
    var row, replaced := UploadShape(env, s, op.name, op.bytes, op.parent, op.user, op.key, op.dup, op.victim, op.now);
    AddFileRows(s, row, op.bytes, op.dup, replaced, op.now);
  }

  lemma CompleteAddsRow(env: Env, s: State, op: Op)
    requires op.Complete? && Apply(env, s, op).outcome.Created? && s.nextId !in s.rows
    ensures op.uploadId in s.sessions
    ensures KeepsSizes(s, Apply(env, s, op)) && AddsRow(s, Apply(env, s, op), false, s.sessions[op.uploadId].totalSize)
  {
    var row := CompleteShape(env, s, op.uploadId, op.user, op.key, op.dup);
    AddFileRows(Closed(s, op.uploadId), row, Payload(s, op), op.dup, None, 0);
  }

  lemma MkDirAddsRow(env: Env, s: State, op: Op)
    requires op.MkDir? && Apply(env, s, op).outcome.Created? && s.nextId !in s.rows
    ensures KeepsSizes(s, Apply(env, s, op)) && AddsRow(s, Apply(env, s, op), true, 0)
  {
    CreateDirShape(s, op.name, op.parent, op.user);
  }

  lemma CopyAddsRow(env: Env, s: State, op: Op)
    requires op.Copy? && Apply(env, s, op).outcome.Created? && s.nextId !in s.rows
    ensures op.id in s.rows && !s.rows[op.id].isDir
    ensures KeepsSizes(s, Apply(env, s, op)) && AddsRow(s, Apply(env, s, op), false, s.rows[op.id].size)
  {
    var row := CopyShape(s, op.id, op.target, op.user);
  }

  lemma OthersKeepSizes(env: Env, s: State, op: Op)
    requires !Creates(op)
    ensures KeepsSizes(s, Apply(env, s, op)) && !Apply(env, s, op).outcome.Created?
  {
    if Edits(op) {
      EditShape(env, s, op);
    } else if !Purges(op) {
      QuietShape(env, s, op);
    }
  }

  /** A file row that stays reads back what it did. */
  lemma StayingReadsSame(env: Env, s: State, op: Op, x: Id)
    requires Matches(env, s, op, Apply(env, s, op)) && KeepsSizes(s, Apply(env, s, op))
    requires x in s.rows && x in Apply(env, s, op).state.rows && !s.rows[x].isDir
    requires Apply(env, s, op).outcome != Created(x)
    ensures Read(Apply(env, s, op).state, x) == Read(s, x)
  {
    var s' := Apply(env, s, op).state;
    assert x in Contents(s') && Contents(s')[x] == Contents(s)[x];
  }

  /** A committed operation keeps every size true exactly when it is not a completion that merged another number of bytes. */
  lemma StepSizesIff(env: Env, s: State, op: Op)
    requires CollisionFree(env.digest) && Stored(env, s) && SizesTrue(s) && Enabled(env, s, op)
    requires !Apply(env, s, op).outcome.Failed?
    ensures SizesTrue(Apply(env, s, op).state) <==> MergesAnnouncedSize(s, op)
  {
    var r := Apply(env, s, op);
    StepRefines(env, s, op);
    if Creates(op) {
      CreatedSizeIff(env, s, op);
    } else {
      OthersKeepSizes(env, s, op);
      forall x | x in r.state.rows && !r.state.rows[x].isDir ensures r.state.rows[x].size == |Read(r.state, x)| {
        StayingReadsSame(env, s, op, x);
      }
    }
  }

  lemma CreatedSizeIff(env: Env, s: State, op: Op)
    requires Creates(op) && Stored(env, s) && SizesTrue(s) && Enabled(env, s, op)
    requires !Apply(env, s, op).outcome.Failed? && Matches(env, s, op, Apply(env, s, op))
    ensures SizesTrue(Apply(env, s, op).state) <==> MergesAnnouncedSize(s, op)
  {
    var r := Apply(env, s, op);
    CreationFailsClean(env, s, op);
    match op
    case MkDir(_, _, _) => MkDirAddsRow(env, s, op); NewSizeDecides(env, s, op, true, 0);
    case Upload(_, bytes, _, _, _, _, _, _) => UploadAddsRow(env, s, op); NewSizeDecides(env, s, op, false, |bytes|);
    case Copy(id, _, _) => CopyAddsRow(env, s, op); NewSizeDecides(env, s, op, false, s.rows[id].size);
    case Complete(uploadId, _, _, _) =>
      CompleteAddsRow(env, s, op);
      NewSizeDecides(env, s, op, false, s.sessions[uploadId].totalSize);
  }

  /** The sizes stay true exactly when the new file's is. */
  lemma NewSizeDecides(env: Env, s: State, op: Op, isDir: bool, size: nat)
    requires Matches(env, s, op, Apply(env, s, op)) && SizesTrue(s) && isDir == op.MkDir?
    requires KeepsSizes(s, Apply(env, s, op)) && AddsRow(s, Apply(env, s, op), isDir, size)
    ensures SizesTrue(Apply(env, s, op).state) <==>
            isDir || size == if op.Copy? then if op.id in Contents(s) then |Contents(s)[op.id]| else 0 else |Payload(s, op)|
  {
    var r := Apply(env, s, op);
    forall x | x in s.rows && !s.rows[x].isDir ensures r.state.rows[x].size == |Read(r.state, x)| {
      StayingReadsSame(env, s, op, x);
    }
    if !isDir {
      assert s.nextId in Contents(r.state);
    }
  }
}
