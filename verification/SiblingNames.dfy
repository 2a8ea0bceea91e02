/** Active siblings of one owner carry distinct names, and when an operation can break that. */
module SiblingNames {
  import opened Base
  import opened FileTable
  import opened TableEdits
  import opened Names
  import opened FileOps
  import opened Runs
  import opened OpShapes
  import opened Structure
  import opened Accounting

  ghost predicate Clash(t: Table, x: Id, y: Id)
    requires x in t && y in t
  {
    && x != y && t[x].Active() && t[y].Active()
    && t[x].owner == t[y].owner && t[x].parent == t[y].parent && t[x].name == t[y].name
  }

  ghost predicate DistinctNames(t: Table) {
    forall x, y :: x in t && y in t ==> !Clash(t, x, y)
  }

  // -------------------------------------------------------------- edits

  lemma InsertDistinctIff(t: Table, id: Id, row: Row)
    requires DistinctNames(t) && id !in t && row.Active()
    ensures DistinctNames(t[id := row]) <==> !NameTaken(t, row.parent, row.owner, row.name)
  {
    var t' := t[id := row];
    if x :| x in t && Named(t, row.parent, row.owner, row.name, x) {
      assert Clash(t', x, id);
    } else {
      forall x, y | x in t' && y in t'
        ensures !Clash(t', x, y)
      {
        if x in t && y in t {
          assert !Clash(t, x, y);
        } else if x in t {
          assert !Named(t, row.parent, row.owner, row.name, x);
        } else if y in t {
          assert !Named(t, row.parent, row.owner, row.name, y);
        }
      }
    }
  }

  /** Edits that only take rows out of the active set. */
  lemma FewerActive(t: Table, t': Table)
    requires DistinctNames(t)
    requires forall x :: x in t' && t'[x].Active() ==> x in t && t'[x] == t[x]
    ensures DistinctNames(t')
  {
  }

  /** Moved rows whose names are free at the target stay distinct iff they differ from each other. */
  lemma ReparentDistinctIff(t: Table, ids: set<Id>, target: Option<Id>, user: UserId)
    requires DistinctNames(t)
    requires forall x :: x in ids ==>
      x in t && t[x].Active() && t[x].owner == user && !NameTaken(t, target, user, t[x].name)
    ensures DistinctNames(Reparent(t, ids, target)) <==>
            forall x, y :: x in ids && y in ids && x != y ==> t[x].name != t[y].name
  {
    var t' := Reparent(t, ids, target);
    if x, y :| x in ids && y in ids && x != y && t[x].name == t[y].name {
      assert Clash(t', x, y);
    } else {
      forall x, y | x in t' && y in t'
        ensures !Clash(t', x, y)
      {
        assert !Clash(t, x, y);
        if x in ids && y !in ids {
          assert !Named(t, target, user, t[x].name, y);
        } else if y in ids && x !in ids {
          assert !Named(t, target, user, t[y].name, x);
        }
      }
    }
  }

  // -------------------------------------------------------------- operations

  /** Where a row of the subtree restored from id ends up. */
  function LandsIn(t: Table, id: Id, user: UserId, x: Id): Option<Id>
    requires id in t && x in t
  {
    if x == id && ParentGone(t, id, user) then None else t[x].parent
  }

  /** No restored row meets an active sibling of its name, nor another restored row. */
  ghost predicate RestoresApart(t: Table, id: Id, user: UserId)
    requires id in t
  {
    && (forall x :: x in Subtree(t, id, true) && x in t ==> !NameTaken(t, LandsIn(t, id, user, x), user, t[x].name))
    && (forall x, y :: x in Subtree(t, id, true) && y in Subtree(t, id, true) && x in t && y in t ==>
          !SameSlot(t, id, user, x, y))
  }

  ghost predicate SameSlot(t: Table, id: Id, user: UserId, x: Id, y: Id)
    requires id in t && x in t && y in t
  {
    x != y && LandsIn(t, id, user, x) == LandsIn(t, id, user, y) && t[x].name == t[y].name
  }

  /**
    Restoring keeps names distinct exactly when no restored row's name is taken where the row lands
    and no two restored rows land in one directory under one name.
   */
  lemma RestoreDistinctIff(s: State, id: Id, user: UserId)
    requires Tidy(s) && DistinctNames(s.rows) && RestoreFile(s, id, user).outcome.Done?
    ensures DistinctNames(RestoreFile(s, id, user).state.rows) <==> RestoresApart(s.rows, id, user)
  {
    var t, t' := s.rows, Restored(s.rows, id, user);
    SubtreeOwner(t, id, true);
    if RestoresApart(t, id, user) {
      forall x, y | x in t' && y in t'
        ensures !Clash(t', x, y)
      {
        RestoredPairApart(t, id, user, x, y);
      }
    } else {
      RestoredPairClashes(t, id, user);
    }
  }

  ghost predicate RestorableBy(t: Table, id: Id, user: UserId) {
    && id in t && t[id].owner == user && t[id].Deleted()
    && forall x :: x in Subtree(t, id, true) ==> x in t && t[x].owner == user
  }

  lemma RestoredPairApart(t: Table, id: Id, user: UserId, x: Id, y: Id)
    requires DistinctNames(t) && RestorableBy(t, id, user) && RestoresApart(t, id, user) && x in t && y in t
    ensures !Clash(Restored(t, id, user), x, y)
  {
    var ids := Subtree(t, id, true);
    assert !Clash(t, x, y);
    if x in ids && y in ids {
      assert !SameSlot(t, id, user, x, y);
    } else if x in ids {
      assert !Named(t, LandsIn(t, id, user, x), user, t[x].name, y);
    } else if y in ids {
      assert !Named(t, LandsIn(t, id, user, y), user, t[y].name, x);
    }
  }

  lemma RestoredPairClashes(t: Table, id: Id, user: UserId)
    requires RestorableBy(t, id, user) && !RestoresApart(t, id, user)
    ensures !DistinctNames(Restored(t, id, user))
  {
    var t' := Restored(t, id, user);
    var ids := Subtree(t, id, true);
    if x :| x in ids && x in t && NameTaken(t, LandsIn(t, id, user, x), user, t[x].name) {
      var y :| y in t && Named(t, LandsIn(t, id, user, x), user, t[x].name, y);
      assert Clash(t', x, y);
    } else {
      var x, y :| x in ids && y in ids && x in t && y in t && SameSlot(t, id, user, x, y);
      assert Clash(t', x, y);
    }
  }

  lemma {:induction false} MovedNamesFree(t: Table, ids: seq<Id>, target: Option<Id>, user: UserId)
    requires FirstMoveError(t, ids, target, user).None?
    ensures forall x :: x in IdSet(ids) ==>
              x in t && t[x].Active() && t[x].owner == user && !NameTaken(t, target, user, t[x].name)
  {
    MoveChecksPassed(t, ids, target, user);
    forall x | x in IdSet(ids)
      ensures x in t && t[x].Active() && t[x].owner == user && !NameTaken(t, target, user, t[x].name)
    {
      assert MoveCheck(t, x, target, user).None?;
    }
  }

  lemma AddFileDistinctIff(s: State, row: Row, bytes: Bytes, dup: Option<Id>, victim: Option<Id>, now: int)
    requires DistinctNames(s.rows) && s.nextId !in s.rows && row.Active()
    requires victim.Some? ==> victim.value in s.rows && Named(s.rows, row.parent, row.owner, row.name, victim.value)
    requires AddFile(s, row, bytes, dup, victim, now).outcome.Created?
    ensures DistinctNames(AddFile(s, row, bytes, dup, victim, now).state.rows) <==>
            victim.Some? || !NameTaken(s.rows, row.parent, row.owner, row.name)
  {
    var t1 := Replace(s, row.owner, victim, now).rows;
    FewerActive(s.rows, t1);
    if victim.Some? {
      if x :| x in t1 && Named(t1, row.parent, row.owner, row.name, x) {
        assert Clash(s.rows, x, victim.value);
        assert false;
      }
    }
    InsertDistinctIff(t1, s.nextId, row);
  }

  lemma UploadKeepsDistinct(env: Env, s: State, op: Op)
    requires op.Upload? && Tidy(s) && DistinctNames(s.rows) && Enabled(env, s, op)
    ensures DistinctNames(Apply(env, s, op).state.rows)
  {
    var row, replaced := UploadShape(env, s, op.name, op.bytes, op.parent, op.user, op.key, op.dup, op.victim, op.now);
    if Apply(env, s, op).outcome.Created? {
      AddFileDistinctIff(s, row, op.bytes, op.dup, replaced, op.now);
    }
  }

  /** Finishing a chunked upload keeps names distinct iff a duplicate was renamed or the name is free. */
  lemma CompleteDistinctIff(env: Env, s: State, op: Op)
    requires op.Complete? && Tidy(s) && DistinctNames(s.rows) && Apply(env, s, op).outcome.Created?
    ensures DistinctNames(Apply(env, s, op).state.rows) <==>
            FinishesUnderFreeName(env, s, s.sessions[op.uploadId], op.dup)
  {
    var row := CompleteShape(env, s, op.uploadId, op.user, op.key, op.dup);
    AddFileDistinctIff(Closed(s, op.uploadId), row, Payload(s, op), op.dup, None, 0);
  }

  lemma CopyKeepsDistinct(s: State, id: Id, target: Option<Id>, user: UserId)
    requires Tidy(s) && DistinctNames(s.rows)
    ensures DistinctNames(CopyFile(s, id, target, user).state.rows)
  {
    var row := CopyShape(s, id, target, user);
    if CopyFile(s, id, target, user).outcome.Created? {
      InsertDistinctIff(s.rows, s.nextId, row);
    }
  }

  lemma CreateDirKeepsDistinct(s: State, name: string, parent: Option<Id>, user: UserId)
    requires Tidy(s) && DistinctNames(s.rows)
    ensures DistinctNames(CreateDir(s, name, parent, user).state.rows)
  {
  }

  lemma RenameKeepsDistinct(s: State, id: Id, name: string, user: UserId)
    requires Tidy(s) && DistinctNames(s.rows)
    ensures DistinctNames(RenameFile(s, id, name, user).state.rows)
  {
  }

  lemma BatchMoveDistinctIff(s: State, ids: seq<Id>, target: Option<Id>, user: UserId)
    requires DistinctNames(s.rows) && BatchMove(s, ids, target, user).outcome.Done?
    ensures DistinctNames(BatchMove(s, ids, target, user).state.rows) <==>
            forall x, y :: x in IdSet(ids) && y in IdSet(ids) && x in s.rows && y in s.rows && x != y ==>
              s.rows[x].name != s.rows[y].name
  {
    MovedNamesFree(s.rows, ids, target, user);
    ReparentDistinctIff(s.rows, IdSet(ids), target, user);
  }

  lemma MoveKeepsDistinct(s: State, id: Id, target: Option<Id>, user: UserId)
    requires DistinctNames(s.rows)
    ensures DistinctNames(MoveFile(s, id, target, user).state.rows)
  {
  }

  /** The condition, operation by operation, under which sibling names stay distinct. */
  ghost predicate KeepsNamesApart(env: Env, s: State, op: Op) {
    match op
    case Complete(uploadId, _, _, dup) =>
      uploadId in s.sessions ==> FinishesUnderFreeName(env, s, s.sessions[uploadId], dup)
    case Restore(id, user) =>
      id in s.rows ==> RestoresApart(s.rows, id, user)
    case MoveMany(ids, _, _) =>
      forall x, y :: x in IdSet(ids) && y in IdSet(ids) && x in s.rows && y in s.rows && x != y ==>
        s.rows[x].name != s.rows[y].name
    case _ => true
  }

  /** Operations that take rows out of the active set, or out of the table, keep names distinct. */
  lemma RemovalKeepsDistinct(env: Env, s: State, op: Op)
    requires DistinctNames(s.rows)
    requires op.Delete? || op.DeleteMany? || op.Purge? || op.AutoClean?
    ensures DistinctNames(Apply(env, s, op).state.rows)
  {
  }

  lemma CreationDistinctIff(env: Env, s: State, op: Op)
    requires Tidy(s) && DistinctNames(s.rows) && Enabled(env, s, op) && Creates(op)
    requires !Apply(env, s, op).outcome.Failed?
    ensures DistinctNames(Apply(env, s, op).state.rows) <==> KeepsNamesApart(env, s, op)
  {
    CreationFailsClean(env, s, op);
    match op
    case MkDir(name, parent, user) => CreateDirKeepsDistinct(s, name, parent, user);
    case Upload(_, _, _, _, _, _, _, _) => UploadKeepsDistinct(env, s, op);
    case Copy(id, target, user) => CopyKeepsDistinct(s, id, target, user);
    case Complete(_, _, _, _) => CompleteDistinctIff(env, s, op);
  }

  lemma LinkEditDistinctIff(env: Env, s: State, op: Op)
    requires Tidy(s) && DistinctNames(s.rows) && (op.Rename? || op.Move? || op.MoveMany? || op.Restore?)
    requires !Apply(env, s, op).outcome.Failed?
    ensures DistinctNames(Apply(env, s, op).state.rows) <==> KeepsNamesApart(env, s, op)
  {
    match op
    case Rename(id, name, user) => RenameKeepsDistinct(s, id, name, user);
    case Move(id, target, user) => MoveKeepsDistinct(s, id, target, user);
    case MoveMany(ids, target, user) => BatchMoveDistinctIff(s, ids, target, user);
    case Restore(id, user) => RestoreDistinctIff(s, id, user);
  }

  /** A committed operation keeps sibling names distinct exactly under that condition. */
  lemma StepDistinctIff(env: Env, s: State, op: Op)
    requires Tidy(s) && DistinctNames(s.rows) && Enabled(env, s, op)
    requires !Apply(env, s, op).outcome.Failed?
    ensures DistinctNames(Apply(env, s, op).state.rows) <==> KeepsNamesApart(env, s, op)
  {
    if Creates(op) {
      CreationDistinctIff(env, s, op);
    } else if op.Delete? || op.DeleteMany? || Purges(op) {
      RemovalKeepsDistinct(env, s, op);
    } else if Edits(op) {
      LinkEditDistinctIff(env, s, op);
    } else {
      QuietShape(env, s, op);
    }
  }
}
