/** What holds after every run of the file service, and the exact condition for each step. */
module Reachable {
  import opened Base
  import opened FileTable
  import opened TableEdits
  import opened Sizes
  import opened Names
  import opened FileOps
  import opened OpShapes
  import opened Runs
  import opened Structure
  import opened Accounting
  import opened SiblingNames
  import opened Blobs
  import opened Stranding
  import opened FileSizes

  // -------------------------------------------------------------- failures

  /** A failed operation leaves the state as it was, except that it may close an upload session. */
  lemma FailureIsClean(env: Env, s: State, op: Op)
    requires Enabled(env, s, op) && Apply(env, s, op).outcome.Failed?
    ensures Untouched(s, op, Apply(env, s, op).state)
  {
    if Creates(op) {
      CreationFailsClean(env, s, op);
    }
  }

  // -------------------------------------------------------------- one step

  lemma QuietStepKeeps(s: State, s': State)
    requires WellFormed(s) && QuietEffect(s, s')
    ensures WellFormed(s')
  {
    forall k | k in s'.sessions ensures SessionOk(s', k) {
      assert k in s.sessions ==> SessionOk(s, k);
    }
  }

  lemma EditStepKeeps(env: Env, s: State, op: Op)
    requires WellFormed(s) && !Creates(op)
    ensures WellFormed(Apply(env, s, op).state)
    ensures Acyclic(s.rows) && !op.Move? && !op.MoveMany? ==> Acyclic(Apply(env, s, op).state.rows)
  {
    match op
    case Rename(id, name, user) => RenameKeeps(s, id, name, user);
    case Move(id, target, user) => MoveKeeps(s, id, target, user);
    case MoveMany(ids, target, user) => BatchMoveKeeps(s, ids, target, user);
    case Delete(id, user, now) => DeleteKeeps(s, id, user, now);
    case DeleteMany(ids, user, now) => BatchDeleteKeeps(s, ids, user, now);
    case Restore(id, user) => RestoreKeeps(s, id, user);
    case Purge(id, user) => PurgeKeeps(s, id, user);
    case AutoClean(cutoff) => AutoCleanKeeps(s, cutoff);
    case _ =>
      QuietShape(env, s, op);
      QuietStepKeeps(s, Apply(env, s, op).state);
  }

  lemma CreationSoundIff(env: Env, s: State, op: Op)
    requires WellFormed(s) && Enabled(env, s, op) && Creates(op)
    requires !Apply(env, s, op).outcome.Failed?
    ensures WellFormed(Apply(env, s, op).state) <==> KeepsSubtreesWhole(env, s, op)
    ensures Acyclic(s.rows) && KeepsSubtreesWhole(env, s, op) ==> Acyclic(Apply(env, s, op).state.rows)
  {
    CreationFailsClean(env, s, op);
    match op
    case MkDir(name, parent, user) => CreateDirKeeps(s, name, parent, user);
    case Upload(_, _, _, _, _, _, _, _) => UploadSoundIff(env, s, op);
    case Copy(id, target, user) => CopyKeeps(s, id, target, user);
    case Complete(_, _, _, _) => CompleteSoundIff(env, s, op);
  }

  /**
    A committed operation keeps every active row below active directories of its owner exactly
    when it neither overwrites a directory with active children nor fills a deleted one.
   */
  lemma StepSoundIff(env: Env, s: State, op: Op)
    requires WellFormed(s) && Enabled(env, s, op) && !Apply(env, s, op).outcome.Failed?
    ensures WellFormed(Apply(env, s, op).state) <==> KeepsSubtreesWhole(env, s, op)
  {
    if Creates(op) {
      CreationSoundIff(env, s, op);
    } else {
      EditStepKeeps(env, s, op);
    }
  }

  /** Moves into one's own subtree are the only way a committed operation can close a cycle. */
  ghost predicate KeepsForest(s: State, op: Op) {
    match op
    case Move(id, target, _) => !MovesUnderItself(s.rows, {id}, target)
    case MoveMany(ids, target, _) => !MovesUnderItself(s.rows, IdSet(ids), target)
    case _ => true
  }

  lemma CreationClosesNoCycle(env: Env, s: State, op: Op)
    requires Tidy(s) && Acyclic(s.rows) && Creates(op) && Enabled(env, s, op) && Apply(env, s, op).outcome.Created?
    ensures Acyclic(Apply(env, s, op).state.rows)
  {
    match op
    case MkDir(name, parent, user) =>
      CreateDirShape(s, name, parent, user);
      NewRowNoCycle(s.rows, s.nextId, NewDir(name, parent, user));
    case Upload(name, bytes, parent, user, key, dup, victim, now) =>
      var row, replaced := UploadShape(env, s, name, bytes, parent, user, key, dup, victim, now);
      AddFileClosesNoCycle(s, row, bytes, dup, replaced, now);
    case Copy(id, target, user) =>
      var row := CopyShape(s, id, target, user);
      NewRowNoCycle(s.rows, s.nextId, row);
    case Complete(uploadId, user, key, dup) =>
      var row := CompleteShape(env, s, uploadId, user, key, dup);
      AddFileClosesNoCycle(Closed(s, uploadId), row, Payload(s, op), dup, None, 0);
  }

  lemma AddFileClosesNoCycle(s: State, row: Row, bytes: Bytes, dup: Option<Id>, victim: Option<Id>, now: int)
    requires Tidy(s) && Acyclic(s.rows) && row.parent != Some(s.nextId)
    requires AddFile(s, row, bytes, dup, victim, now).outcome.Created?
    ensures Acyclic(AddFile(s, row, bytes, dup, victim, now).state.rows)
  {
    var t1 := Replace(s, row.owner, victim, now).rows;
    FewerLinksNoCycle(s.rows, t1);
    NewRowNoCycle(t1, s.nextId, row);
  }

  /** Operations that move nothing but to the root only drop links. */
  lemma OthersCloseNoCycle(env: Env, s: State, op: Op)
    requires Acyclic(s.rows) && !Creates(op) && !op.Move? && !op.MoveMany?
    ensures Acyclic(Apply(env, s, op).state.rows)
  {
    var t' := Apply(env, s, op).state.rows;
    if Edits(op) {
      EditDropsLinks(env, s, op);
    } else if !Purges(op) {
      QuietShape(env, s, op);
    }
    FewerLinksNoCycle(s.rows, t');
  }

  ghost predicate DropsLinks(t: Table, t': Table) {
    forall x :: x in t' && t'[x].parent.Some? ==> x in t && t[x].parent == t'[x].parent
  }

  lemma EditDropsLinks(env: Env, s: State, op: Op)
    requires op.Rename? || op.Delete? || op.DeleteMany? || op.Restore?
    ensures DropsLinks(s.rows, Apply(env, s, op).state.rows)
  {
    match op
    case Rename(_, _, _) =>
    case Delete(_, _, _) =>
    case DeleteMany(_, _, _) =>
    case Restore(id, user) => RestoreDropsLinks(s, id, user);
  }

  lemma RestoreDropsLinks(s: State, id: Id, user: UserId)
    ensures DropsLinks(s.rows, RestoreFile(s, id, user).state.rows)
  {
    assert id in s.rows ==> DropsLinks(s.rows, Restored(s.rows, id, user));
  }

  /** A committed operation keeps the forest acyclic exactly when it does not move a row below itself. */
  lemma StepAcyclicIff(env: Env, s: State, op: Op)
    requires Tidy(s) && Acyclic(s.rows) && Enabled(env, s, op) && !Apply(env, s, op).outcome.Failed?
    ensures Acyclic(Apply(env, s, op).state.rows) <==> KeepsForest(s, op)
  {
    match op
    case Move(id, target, user) => MoveAcyclicIff(s, id, target, user);
    case MoveMany(ids, target, user) => BatchMoveAcyclicIff(s, ids, target, user);
    case _ =>
      if Creates(op) {
        CreationFailsClean(env, s, op);
        CreationClosesNoCycle(env, s, op);
      } else {
        OthersCloseNoCycle(env, s, op);
      }
  }

  // -------------------------------------------------------------- books kept exactly

  ghost predicate AllInSync(s: State) {
    forall u :: u in s.used ==> InSync(s, u)
  }

  /** The condition, operation by operation, under which the books stay exact. */
  ghost predicate KeepsBooksExact(s: State, op: Op) {
    match op
    case Delete(id, user, _) =>
      id in s.rows && user in s.used ==>
        s.rows[id].Active() || s.rows[id].isDir || s.rows[id].size == 0 || ActiveSum(s.rows, user) == 0
    case DeleteMany(ids, user, _) =>
      user in s.used ==> !SharesFile(s.rows, ids) || SelectsEveryByte(s.rows, ids, user)
    case Purge(id, user) =>
      id in s.rows && user in s.used ==>
        SizeSum(s.rows, Subtree(s.rows, id, true)) == 0 || ActiveSum(s.rows, user) == 0
    case AutoClean(cutoff) =>
      forall u :: u in s.used ==>
        SizeSum(s.rows, OwnedIn(s.rows, Swept(s.rows, cutoff), u)) == 0 || ActiveSum(s.rows, u) == 0
    case _ => true
  }

  lemma OthersStayInSync(s: State, s': State, u: UserId, counted: nat, actual: nat)
    requires Loses(s, s', u, counted, actual) && actual <= counted && AllInSync(s)
    ensures AllInSync(s') <==> (u in s.used ==> InSync(s', u))
  {
  }

  lemma SubtractionExactIff(env: Env, s: State, op: Op)
    requires Tidy(s) && AllInSync(s) && Subtracts(op) && !Apply(env, s, op).outcome.Failed?
    ensures AllInSync(Apply(env, s, op).state) <==> KeepsBooksExact(s, op)
  {
    var s' := Apply(env, s, op).state;
    match op
    case Delete(id, user, now) =>
      DeleteBalance(s, id, user, now);
      var ids := Subtree(s.rows, id, false);
      OthersStayInSync(s, s', user, SizeSum(s.rows, ids), SizeSum(s.rows, ids * ActiveOf(s.rows, user)));
      if user in s.used {
        assert InSync(s, user);
        DeleteExactIff(s, id, user, now);
      }
    case DeleteMany(ids, user, now) =>
      BatchDeleteBalance(s, ids, user, now);
      OthersStayInSync(s, s', user, CountedBytes(s.rows, ids), SizeSum(s.rows, ActiveSubtrees(s.rows, ids)));
      if user in s.used {
        assert InSync(s, user);
        BatchDeleteExactIff(s, ids, user, now);
      }
    case Purge(id, user) =>
      PurgeBalance(s, id, user);
      OthersStayInSync(s, s', user, SizeSum(s.rows, Subtree(s.rows, id, true)), 0);
      if user in s.used {
        assert InSync(s, user);
        PurgeExactIff(s, id, user);
      }
    case AutoClean(cutoff) => AutoCleanExactIff(s, cutoff);
  }

  /** A committed operation keeps storage_used equal to the active bytes exactly under that condition. */
  lemma StepExactIff(env: Env, s: State, op: Op)
    requires Tidy(s) && AllInSync(s) && Enabled(env, s, op) && !Apply(env, s, op).outcome.Failed?
    ensures AllInSync(Apply(env, s, op).state) <==> KeepsBooksExact(s, op)
  {
    if Subtracts(op) {
      SubtractionExactIff(env, s, op);
    } else {
      StepKeepsAccounts(env, s, op);
      OtherStepsKeepSync(s, Apply(env, s, op).state);
    }
  }

  lemma OtherStepsKeepSync(s: State, s': State)
    requires AllInSync(s) && KeepsSync(s, s') && s'.used.Keys == s.used.Keys
    ensures AllInSync(s')
  {
  }

  lemma AutoCleanExactIff(s: State, cutoff: int)
    requires Tidy(s) && AllInSync(s)
    ensures AllInSync(AutoCleanRecycle(s, cutoff).state) <==> KeepsBooksExact(s, AutoClean(cutoff))
  {
    AutoCleanBalance(s, cutoff);
    var s' := AutoCleanRecycle(s, cutoff).state;
    forall u | u in s.used
      ensures InSync(s', u) <==>
              SizeSum(s.rows, OwnedIn(s.rows, Swept(s.rows, cutoff), u)) == 0 || ActiveSum(s.rows, u) == 0
    {
      assert InSync(s, u);
    }
  }

  // -------------------------------------------------------------- whole runs

  /** p holds in the first state of the run and after each of its operations. */
  ghost predicate Always(env: Env, s: State, ops: seq<Op>, p: State -> bool) {
    p(Run(env, s, ops)) && (ops == [] || Always(env, s, ops[..|ops| - 1], p))
  }

  /** Every operation of the run that was not refused met the condition. */
  ghost predicate Throughout(env: Env, s: State, ops: seq<Op>, good: (State, Op) -> bool) {
    if ops == [] then true
    else
      var front, op := ops[..|ops| - 1], ops[|ops| - 1];
      var s1 := Run(env, s, front);
      Throughout(env, s, front, good) && (Apply(env, s1, op).outcome.Failed? || good(s1, op))
  }

  lemma {:induction false} RunKeeps(env: Env, s: State, ops: seq<Op>, inv: State -> bool)
    requires EnabledRun(env, s, ops) && inv(s)
    requires forall s1, op :: inv(s1) && Enabled(env, s1, op) ==> inv(Apply(env, s1, op).state)
    ensures inv(Run(env, s, ops))
  {
    if ops != [] {
      RunKeeps(env, s, ops[..|ops| - 1], inv);
    }
  }

  /** What one operation keeps exactly under a condition, a run keeps throughout exactly under it. */
  lemma {:induction false} RunIff(env: Env, s: State, ops: seq<Op>, inv: State -> bool, p: State -> bool, good: (State, Op) -> bool)
    requires EnabledRun(env, s, ops) && inv(s) && p(s)
    requires forall s1, op :: inv(s1) && Enabled(env, s1, op) ==> inv(Apply(env, s1, op).state)
    requires forall s1, op :: inv(s1) && p(s1) && Enabled(env, s1, op) ==>
      (p(Apply(env, s1, op).state) <==> Apply(env, s1, op).outcome.Failed? || good(s1, op))
    ensures Always(env, s, ops, p) <==> Throughout(env, s, ops, good)
  {
    if ops != [] {
      var front, op := ops[..|ops| - 1], ops[|ops| - 1];
      RunIff(env, s, front, inv, p, good);
      RunKeeps(env, s, front, inv);
    }
  }

  /** The empty system meets everything the results on runs start from. */
  lemma EmptyIsFine(env: Env, users: set<UserId>)
    ensures var s := Initial(users);
            && WellFormed(s) && Acyclic(s.rows) && DistinctNames(s.rows) && Stored(env, s)
            && Tidy(s) && Accounted(s) && AllInSync(s) && AllHeld(s) && SizesTrue(s)
  {
  }

  lemma TidySteps(env: Env)
    ensures forall s, op :: Tidy(s) && Enabled(env, s, op) ==> Tidy(Apply(env, s, op).state)
  {
    forall s, op | Tidy(s) && Enabled(env, s, op) ensures Tidy(Apply(env, s, op).state) {
      StepKeepsAccounts(env, s, op);
    }
  }

  /** Over every run, whatever the operations, storage_used never exceeds the active bytes. */
  lemma AccountsOverEveryRun(env: Env, s: State, ops: seq<Op>)
    requires EnabledRun(env, s, ops) && Tidy(s) && Accounted(s)
    ensures Tidy(Run(env, s, ops)) && Accounted(Run(env, s, ops))
  {
    forall s, op | Tidy(s) && Accounted(s) && Enabled(env, s, op)
      ensures Tidy(Apply(env, s, op).state) && Accounted(Apply(env, s, op).state)
    {
      StepKeepsAccounts(env, s, op);
    }
    RunKeeps(env, s, ops, s => Tidy(s) && Accounted(s));
  }

  /** The books are exact throughout a run exactly when nothing in it is counted twice, re-deleted or purged with bytes. */
  lemma BooksExactOverRun(env: Env, s: State, ops: seq<Op>)
    requires EnabledRun(env, s, ops) && Tidy(s) && AllInSync(s)
    ensures Always(env, s, ops, AllInSync) <==> Throughout(env, s, ops, KeepsBooksExact)
  {
    TidySteps(env);
    forall s, op | Tidy(s) && AllInSync(s) && Enabled(env, s, op)
      ensures AllInSync(Apply(env, s, op).state) <==> Apply(env, s, op).outcome.Failed? || KeepsBooksExact(s, op)
    {
      if Apply(env, s, op).outcome.Failed? {
        FailureIsClean(env, s, op);
        SameBooks(s, Apply(env, s, op).state);
      } else {
        StepExactIff(env, s, op);
      }
    }
    RunIff(env, s, ops, Tidy, AllInSync, KeepsBooksExact);
  }

  lemma SameBooks(s: State, s': State)
    requires AllInSync(s) && s'.rows == s.rows && s'.used == s.used
    ensures AllInSync(s')
  {
    forall u | u in s'.used ensures InSync(s', u) {
      assert InSync(s, u);
    }
  }

  /**
    Throughout a run parents exist, belong to the same owner, and nothing active lies under a deleted
    directory, exactly when no committed upload overwrites a directory with active children or fills a deleted one.
   */
  lemma StructureOverRun(env: Env, s: State, ops: seq<Op>)
    requires EnabledRun(env, s, ops) && WellFormed(s)
    ensures Always(env, s, ops, WellFormed) <==> Throughout(env, s, ops, (s, op) => KeepsSubtreesWhole(env, s, op))
  {
    forall s, op | WellFormed(s) && Enabled(env, s, op)
      ensures WellFormed(Apply(env, s, op).state) <==> Apply(env, s, op).outcome.Failed? || KeepsSubtreesWhole(env, s, op)
    {
      if Apply(env, s, op).outcome.Failed? {
        FailureIsClean(env, s, op);
        SameTables(s, Apply(env, s, op).state);
      } else {
        StepSoundIff(env, s, op);
      }
    }
    RunIff(env, s, ops, s => true, WellFormed, (s, op) => KeepsSubtreesWhole(env, s, op));
  }

  ghost predicate IsForest(s: State) {
    Acyclic(s.rows)
  }

  /** The parent links form a forest throughout a run exactly when no committed move goes below its own row. */
  lemma ForestOverRun(env: Env, s: State, ops: seq<Op>)
    requires EnabledRun(env, s, ops) && Tidy(s) && IsForest(s)
    ensures Always(env, s, ops, IsForest) <==> Throughout(env, s, ops, KeepsForest)
  {
    TidySteps(env);
    forall s, op | Tidy(s) && IsForest(s) && Enabled(env, s, op)
      ensures IsForest(Apply(env, s, op).state) <==> Apply(env, s, op).outcome.Failed? || KeepsForest(s, op)
    {
      if Apply(env, s, op).outcome.Failed? {
        FailureIsClean(env, s, op);
      } else {
        StepAcyclicIff(env, s, op);
      }
    }
    RunIff(env, s, ops, Tidy, IsForest, KeepsForest);
  }

  ghost predicate NamesDiffer(s: State) {
    DistinctNames(s.rows)
  }

  /** Active siblings of one owner carry distinct names throughout a run exactly under the condition on each step. */
  lemma NamesOverRun(env: Env, s: State, ops: seq<Op>)
    requires EnabledRun(env, s, ops) && Tidy(s) && NamesDiffer(s)
    ensures Always(env, s, ops, NamesDiffer) <==> Throughout(env, s, ops, (s, op) => KeepsNamesApart(env, s, op))
  {
    TidySteps(env);
    forall s, op | Tidy(s) && NamesDiffer(s) && Enabled(env, s, op)
      ensures NamesDiffer(Apply(env, s, op).state) <==> Apply(env, s, op).outcome.Failed? || KeepsNamesApart(env, s, op)
    {
      if Apply(env, s, op).outcome.Failed? {
        FailureIsClean(env, s, op);
      } else {
        StepDistinctIff(env, s, op);
      }
    }
    RunIff(env, s, ops, Tidy, NamesDiffer, (s, op) => KeepsNamesApart(env, s, op));
  }

  /** Every blob is held throughout a run exactly when no committed purge takes all of a blob's several holders. */
  lemma BlobsHeldOverRun(env: Env, s: State, ops: seq<Op>)
    requires EnabledRun(env, s, ops) && Tidy(s) && AllHeld(s)
    ensures Always(env, s, ops, AllHeld) <==> Throughout(env, s, ops, StrandsNothing)
  {
    TidySteps(env);
    forall s, op | Tidy(s) && AllHeld(s) && Enabled(env, s, op)
      ensures AllHeld(Apply(env, s, op).state) <==> Apply(env, s, op).outcome.Failed? || StrandsNothing(s, op)
    {
      if Apply(env, s, op).outcome.Failed? {
        FailureIsClean(env, s, op);
      } else {
        StepHeldIff(env, s, op);
      }
    }
    RunIff(env, s, ops, Tidy, AllHeld, StrandsNothing);
  }

  /** Sizes tell the bytes a file reads back throughout a run exactly when every committed completion merged the announced number. */
  lemma SizesTrueOverRun(env: Env, s: State, ops: seq<Op>)
    requires CollisionFree(env.digest) && EnabledRun(env, s, ops) && Stored(env, s) && SizesTrue(s)
    ensures Always(env, s, ops, SizesTrue) <==> Throughout(env, s, ops, MergesAnnouncedSize)
  {
    forall s, op | Stored(env, s) && Enabled(env, s, op) ensures Stored(env, Apply(env, s, op).state) {
      StepRefines(env, s, op);
    }
    forall s, op | Stored(env, s) && SizesTrue(s) && Enabled(env, s, op)
      ensures SizesTrue(Apply(env, s, op).state) <==> Apply(env, s, op).outcome.Failed? || MergesAnnouncedSize(s, op)
    {
      if Apply(env, s, op).outcome.Failed? {
        FailureIsClean(env, s, op);
      } else {
        StepSizesIff(env, s, op);
      }
    }
    RunIff(env, s, ops, s => Stored(env, s), SizesTrue, MergesAnnouncedSize);
  }

  /** From the empty system on, every surviving file reads back the bytes it was created with. */
  lemma ContentsOverEveryRun(env: Env, users: set<UserId>, ops: seq<Op>)
    requires CollisionFree(env.digest) && EnabledRun(env, Initial(users), ops)
    ensures Contents(Run(env, Initial(users), ops)) == PlainRun(env, Initial(users), ops)
    ensures forall x :: x in Run(env, Initial(users), ops).rows ==> RowStored(env, Run(env, Initial(users), ops), x)
  {
    EmptyIsFine(env, users);
    DeduplicationIsInvisible(env, Initial(users), ops);
  }
}
