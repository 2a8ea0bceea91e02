/**
  The shape of the stored forest in every reachable state: parents exist, are directories
  of the same owner, and everything below a deleted directory is deleted.
 */
module Structure {
  import opened Base
  import opened FileTable
  import opened TableEdits
  import opened Names
  import opened FileOps
  import opened Runs
  import opened OpShapes

  ghost predicate SessionOk(s: State, k: string)
    requires k in s.sessions
  {
    s.sessions[k].parent.Some? ==>
      var p := s.sessions[k].parent.value;
      p < s.nextId && (p in s.rows ==> s.rows[p].isDir && s.rows[p].owner == s.sessions[k].user)
  }

  ghost predicate WellFormed(s: State) {
    && Sound(s.rows)
    && (forall x :: x in s.rows ==> x < s.nextId)
    && (forall k :: k in s.sessions ==> SessionOk(s, k))
  }

  ghost predicate ActiveOrRoot(t: Table, parent: Option<Id>) {
    parent.Some? && parent.value in t ==> t[parent.value].Active()
  }

  /**
    The two ways the code can leave an active row under a deleted directory: overwriting a
    directory that still has active children, and finishing a chunked upload whose directory
    was deleted meanwhile.
   */
  ghost predicate KeepsSubtreesWhole(env: Env, s: State, op: Op) {
    match op
    case Upload(name, _, parent, user, _, _, victim, _) =>
      env.overwrite && victim.Some? ==>
        forall x :: x in s.rows && s.rows[x].Active() ==> s.rows[x].parent != victim
    case Complete(uploadId, _, _, _) =>
      uploadId in s.sessions ==> ActiveOrRoot(s.rows, s.sessions[uploadId].parent)
    case _ => true
  }

  // -------------------------------------------------------------- insertion

  /** Inserting a row below a directory of its owner is sound iff that directory is active. */
  lemma InsertSoundIff(s: State, row: Row)
    requires WellFormed(s) && row.Active()
    requires row.parent.Some? && row.parent.value in s.rows ==>
      s.rows[row.parent.value].isDir && s.rows[row.parent.value].owner == row.owner
    ensures Insert(s, row).outcome.Created? ==>
              (WellFormed(Insert(s, row).state) <==> ActiveOrRoot(s.rows, row.parent))
    ensures Acyclic(s.rows) ==> Acyclic(Insert(s, row).state.rows)
  {
    var r := Insert(s, row);
    if r.outcome.Created? {
      InsertKeepsForest(s.rows, s.nextId, row);
      forall k | k in r.state.sessions ensures SessionOk(r.state, k) {
        assert SessionOk(s, k);
      }
    }
  }

  lemma CreateDirKeeps(s: State, name: string, parent: Option<Id>, user: UserId)
    requires WellFormed(s)
    ensures WellFormed(CreateDir(s, name, parent, user).state)
    ensures Acyclic(s.rows) ==> Acyclic(CreateDir(s, name, parent, user).state.rows)
  {
    CreateDirShape(s, name, parent, user);
    if CreateDir(s, name, parent, user).outcome.Created? {
      InsertSoundIff(s, NewDir(name, parent, user));
    }
  }

  lemma CopyKeeps(s: State, id: Id, target: Option<Id>, user: UserId)
    requires WellFormed(s)
    ensures WellFormed(CopyFile(s, id, target, user).state)
    ensures Acyclic(s.rows) ==> Acyclic(CopyFile(s, id, target, user).state.rows)
  {
    var row := CopyShape(s, id, target, user);
    if CopyFile(s, id, target, user).outcome.Created? {
      InsertSoundIff(s, row);
      SameTables(Insert(s, row).state, CopyAs(s, row).state);
    }
  }

  /** Well-formedness looks at the rows, the row counter and the sessions only. */
  lemma SameTables(s: State, s': State)
    requires s.rows == s'.rows && s.nextId == s'.nextId
    requires forall k :: k in s'.sessions ==>
      && k in s.sessions
      && s'.sessions[k].user == s.sessions[k].user && s'.sessions[k].parent == s.sessions[k].parent
    requires WellFormed(s)
    ensures WellFormed(s')
  {
  }

  /** An edit that keeps ids, owners and kinds of the surviving rows keeps the sessions valid. */
  lemma SessionsSurvive(s: State, s': State)
    requires WellFormed(s) && s'.sessions == s.sessions && s'.nextId == s.nextId
    requires Sound(s'.rows)
    requires forall x :: x in s'.rows ==>
      x in s.rows && s'.rows[x].isDir == s.rows[x].isDir && s'.rows[x].owner == s.rows[x].owner
    ensures WellFormed(s')
  {
  }

  // -------------------------------------------------------------- uploads

  /**
    The transaction of an upload keeps the state well-formed exactly when the new row's
    directory is active and no active row is left under an overwritten one.
   */
  lemma AddFileSoundIff(s: State, row: Row, bytes: Bytes, dup: Option<Id>, victim: Option<Id>, now: int)
    requires WellFormed(s) && row.Active() && !row.isDir
    requires row.parent.Some? && row.parent.value in s.rows ==>
      s.rows[row.parent.value].isDir && s.rows[row.parent.value].owner == row.owner
    requires victim.Some? ==> victim.value in s.rows && s.rows[victim.value].Active() && s.rows[victim.value].parent == row.parent
    requires AddFile(s, row, bytes, dup, victim, now).outcome.Created?
    ensures WellFormed(AddFile(s, row, bytes, dup, victim, now).state) <==>
              && ActiveOrRoot(s.rows, row.parent)
              && (victim.Some? ==> forall x :: x in s.rows && s.rows[x].Active() ==> s.rows[x].parent != victim)
    ensures Acyclic(s.rows) && WellFormed(AddFile(s, row, bytes, dup, victim, now).state) ==>
              Acyclic(AddFile(s, row, bytes, dup, victim, now).state.rows)
  {
    var s1 := Replace(s, row.owner, victim, now);
    var r := AddFile(s, row, bytes, dup, victim, now);
    var s2 := Insert(s1, row).state;
    if victim.None? {
      InsertSoundIff(s, row);
    } else if x :| x in s.rows && s.rows[x].Active() && s.rows[x].parent == victim {
      var y := if x == victim.value then s.nextId else x;
      assert !LinkOk(r.state.rows, y);
    } else {
      var v := victim.value;
      VictimOffCycle(s.rows, v);
      SoftDeleteKeepsForest(s.rows, {v}, now);
      SessionsSurvive(s, s1);
      InsertSoundIff(s1, row);
      if row.parent == Some(v) {
        assert false;
      }
    }
    if WellFormed(s2) {
      SameTables(s2, r.state);
    }
    if WellFormed(r.state) {
      SameTables(r.state, s2);
    }
  }

  /** A row without active children lies on no cycle. */
  lemma VictimOffCycle(t: Table, v: Id)
    requires Sound(t) && v in t && t[v].Active()
    requires forall x :: x in t && t[x].Active() ==> t[x].parent != Some(v)
    ensures !Below(t, v, v)
  {
    if Below(t, v, v) {
      var n: nat :| n > 0 && Up(t, Some(v), n) == Some(v);
      UpInTable(t, Some(v), n - 1, n);
      var y := Up(t, Some(v), n - 1).value;
      AncestorLinked(t, v, y, n - 1);
      assert false;
    }
  }

  lemma UploadSoundIff(env: Env, s: State, op: Op)
    requires op.Upload? && WellFormed(s) && Enabled(env, s, op) && Apply(env, s, op).outcome.Created?
    ensures WellFormed(Apply(env, s, op).state) <==> KeepsSubtreesWhole(env, s, op)
    ensures Acyclic(s.rows) && WellFormed(Apply(env, s, op).state) ==> Acyclic(Apply(env, s, op).state.rows)
  {
    var row, replaced := UploadShape(env, s, op.name, op.bytes, op.parent, op.user, op.key, op.dup, op.victim, op.now);
    AddFileSoundIff(s, row, op.bytes, op.dup, replaced, op.now);
  }

  lemma CompleteSoundIff(env: Env, s: State, op: Op)
    requires op.Complete? && WellFormed(s) && Apply(env, s, op).outcome.Created?
    ensures WellFormed(Apply(env, s, op).state) <==> KeepsSubtreesWhole(env, s, op)
    ensures Acyclic(s.rows) && WellFormed(Apply(env, s, op).state) ==> Acyclic(Apply(env, s, op).state.rows)
  {
    var row := CompleteShape(env, s, op.uploadId, op.user, op.key, op.dup);
    var ss := s.sessions[op.uploadId];
    assert SessionOk(s, op.uploadId);
    SameTables(s, Closed(s, op.uploadId));
    AddFileSoundIff(Closed(s, op.uploadId), row, Merge(ss.chunks, ss.chunkCount), op.dup, None, 0);
  }

  // -------------------------------------------------------------- deletion and restoration

  /** With a row, ids contains its children of the given status. */
  ghost predicate ClosedBelow(t: Table, ids: set<Id>, deleted: bool) {
    forall x :: x in t && t[x].Deleted() == deleted && t[x].parent.Some? && t[x].parent.value in ids ==> x in ids
  }

  /** The rows a deletion collects: off any cycle, closed downwards among the active rows. */
  lemma SubtreeIsClosed(t: Table, id: Id, deleted: bool)
    requires Linked(t) && id in t && !SubtreeAborts(t, id)
    ensures Subtree(t, id, deleted) <= t.Keys
    ensures ClosedBelow(t, Subtree(t, id, deleted), deleted)
    ensures forall x :: x in Subtree(t, id, deleted) ==> !Below(t, x, x) && t[x].owner == t[id].owner
    ensures forall x :: x in Subtree(t, id, deleted) && x != id ==>
              t[x].parent.Some? && (t[x].parent == Some(id) || t[x].parent.value in Descendants(t, id))
  {
    var ids := Subtree(t, id, deleted);
    forall x | x in t && t[x].Deleted() == deleted && t[x].parent.Some? && t[x].parent.value in ids
      ensures x in ids
    {
      var p := t[x].parent.value;
      assert LinkOk(t, x);
      BelowStep(t, x, p);
      if p != id {
        BelowTransitive(t, x, p, id);
      }
    }
    forall x | x in ids
      ensures !Below(t, x, x) && t[x].owner == t[id].owner
    {
      if x != id {
        BelowLinked(t, x, id);
        if Below(t, x, x) {
          CycleAbove(t, x, id);
        }
      } else if Below(t, id, id) {
        BelowLinked(t, id, id);
      }
    }
    forall x | x in ids && x != id
      ensures t[x].parent.Some? && (t[x].parent == Some(id) || t[x].parent.value in Descendants(t, id))
    {
      BelowStep(t, x, id);
      assert LinkOk(t, x);
    }
  }

  lemma DeleteKeeps(s: State, id: Id, user: UserId, now: int)
    requires WellFormed(s)
    ensures WellFormed(DeleteFile(s, id, user, now).state)
    ensures Acyclic(s.rows) ==> Acyclic(DeleteFile(s, id, user, now).state.rows)
  {
    var s' := DeleteFile(s, id, user, now).state;
    if DeleteFile(s, id, user, now).outcome.Done? {
      SubtreeIsClosed(s.rows, id, false);
      SoftDeleteKeepsForest(s.rows, Subtree(s.rows, id, false), now);
      SessionsSurvive(s, s');
    }
  }

  lemma {:induction false} SubtreesAreClosed(t: Table, ids: seq<Id>, user: UserId)
    requires Linked(t) && FirstDeleteError(t, ids, user).None?
    ensures ActiveSubtrees(t, ids) <= t.Keys
    ensures ClosedBelow(t, ActiveSubtrees(t, ids), false)
    ensures forall x :: x in ActiveSubtrees(t, ids) ==> !Below(t, x, x) && t[x].owner == user && t[x].Active()
    ensures forall id :: id in ids ==> id in t && id in ActiveSubtrees(t, ids)
  {
    if ids != [] {
      var front, id := ids[..|ids| - 1], ids[|ids| - 1];
      SubtreesAreClosed(t, front, user);
      SubtreeIsClosed(t, id, false);
      assert ids == front + [id];
      UnionIsClosed(t, ActiveSubtrees(t, front), Subtree(t, id, false));
    }
  }

  lemma UnionIsClosed(t: Table, a: set<Id>, b: set<Id>)
    requires ClosedBelow(t, a, false) && ClosedBelow(t, b, false)
    ensures ClosedBelow(t, a + b, false)
  {
  }

  lemma BatchDeleteKeeps(s: State, ids: seq<Id>, user: UserId, now: int)
    requires WellFormed(s)
    ensures WellFormed(BatchDelete(s, ids, user, now).state)
    ensures Acyclic(s.rows) ==> Acyclic(BatchDelete(s, ids, user, now).state.rows)
  {
    var s' := BatchDelete(s, ids, user, now).state;
    if BatchDelete(s, ids, user, now).outcome.Done? {
      SubtreesAreClosed(s.rows, ids, user);
      SoftDeleteKeepsForest(s.rows, ActiveSubtrees(s.rows, ids), now);
      SessionsSurvive(s, s');
    }
  }

  lemma RestoreTableSound(t: Table, id: Id)
    requires Sound(t) && id in t && t[id].Deleted() && !SubtreeAborts(t, id)
    requires t[id].parent.Some? ==> t[t[id].parent.value].Active()
    ensures Sound(Undelete(t, Subtree(t, id, true)))
    ensures Acyclic(t) ==> Acyclic(Undelete(t, Subtree(t, id, true)))
  {
    var ids := Subtree(t, id, true);
    SubtreeIsClosed(t, id, true);
    forall x | x in ids && t[x].parent.Some?
      ensures t[x].parent.value in ids || t[t[x].parent.value].Active()
    {
      if x != id {
        assert LinkOk(t, x);
      }
    }
    UndeleteKeepsForest(t, ids);
  }

  /** Re-linking the root of a subtree to the top does not change what lies below it. */
  lemma SubtreeAfterDetach(t: Table, id: Id, deleted: bool)
    requires Linked(t) && id in t && !Below(t, id, id)
    ensures Subtree(Reparent(t, {id}, None), id, deleted) == Subtree(t, id, deleted)
    ensures !Below(Reparent(t, {id}, None), id, id)
  {
    var t' := Reparent(t, {id}, None);
    BelowStep(t', id, id);
    forall x | x in t && x != id
      ensures Below(t', x, id) <==> Below(t, x, id)
    {
      if n: nat :| n > 0 && Up(t, Some(x), n) == Some(id) {
        var k := FirstHit(t, x, {id}, n);
        UpUntilHit(t, t', {id}, x, k);
        assert k > 0 by { assert Up(t, Some(x), 0) == Some(x); }
      }
      if n: nat :| n > 0 && Up(t', Some(x), n) == Some(id) {
        var k := FirstHit(t', x, {id}, n);
        UpUntilHit(t', t, {id}, x, k);
        assert k > 0 by { assert Up(t', Some(x), 0) == Some(x); }
      }
    }
    assert Subtree(t', id, deleted) == Subtree(t, id, deleted);
  }

  lemma DetachThenUndelete(t: Table, id: Id, ids: set<Id>)
    ensures Reparent(Undelete(t, ids), {id}, None) == Undelete(Reparent(t, {id}, None), ids)
  {
  }

  lemma RestoredSound(t: Table, id: Id, user: UserId)
    requires Sound(t) && id in t && t[id].owner == user && t[id].Deleted() && !SubtreeAborts(t, id)
    ensures Sound(Restored(t, id, user))
    ensures Acyclic(t) ==> Acyclic(Restored(t, id, user))
  {
    assert LinkOk(t, id);
    if ParentGone(t, id, user) {
      var t1 := Reparent(t, {id}, None);
      ReparentKeepsSound(t, {id}, None);
      SubtreeAfterDetach(t, id, true);
      RestoreTableSound(t1, id);
      DetachThenUndelete(t, id, Subtree(t, id, true));
      if Acyclic(t) {
        ReparentAcyclicIff(t, {id}, None);
      }
    } else {
      RestoreTableSound(t, id);
    }
  }

  lemma RestoreKeeps(s: State, id: Id, user: UserId)
    requires WellFormed(s)
    ensures WellFormed(RestoreFile(s, id, user).state)
    ensures Acyclic(s.rows) ==> Acyclic(RestoreFile(s, id, user).state.rows)
  {
    var r := RestoreFile(s, id, user);
    if r.outcome.Done? {
      RestoredSound(s.rows, id, user);
      SessionsSurvive(s, r.state);
    }
  }

  lemma PurgeKeeps(s: State, id: Id, user: UserId)
    requires WellFormed(s)
    ensures WellFormed(PermanentDeleteFile(s, id, user).state)
    ensures Acyclic(s.rows) ==> Acyclic(PermanentDeleteFile(s, id, user).state.rows)
  {
    var r := PermanentDeleteFile(s, id, user);
    if r.outcome.Done? {
      var t := s.rows;
      var ids := Subtree(t, id, true);
      SubtreeIsClosed(t, id, true);
      forall x | x in t && t[x].parent.Some? && t[x].parent.value in ids
        ensures x in ids
      {
        assert LinkOk(t, x);
      }
      RemoveKeepsForest(t, ids);
      SessionsSurvive(s, r.state);
    }
  }

  /** The swept rows are deleted and closed downwards. */
  lemma SweptIsClosed(t: Table, cutoff: int)
    requires Sound(t)
    ensures forall x :: x in Swept(t, cutoff) ==> t[x].Deleted()
    ensures forall x :: x in t && t[x].parent.Some? && t[x].parent.value in Swept(t, cutoff) ==> x in Swept(t, cutoff)
  {
    forall x | x in t && t[x].parent.Some? && t[x].parent.value in Swept(t, cutoff)
      ensures x in Swept(t, cutoff)
    {
      var p := t[x].parent.value;
      assert LinkOk(t, x);
      BelowStep(t, x, p);
      if Expired(t, cutoff, p) {
        assert SweptUnder(t, cutoff, x);
      } else {
        var c :| Expired(t, cutoff, c) && t[c].isDir && !Below(t, c, c) && Below(t, p, c);
        BelowTransitive(t, x, p, c);
        assert SweptUnder(t, cutoff, x);
      }
    }
  }

  lemma AutoCleanKeeps(s: State, cutoff: int)
    requires WellFormed(s)
    ensures WellFormed(AutoCleanRecycle(s, cutoff).state)
    ensures Acyclic(s.rows) ==> Acyclic(AutoCleanRecycle(s, cutoff).state.rows)
  {
    SweptIsClosed(s.rows, cutoff);
    RemoveKeepsForest(s.rows, Swept(s.rows, cutoff));
    SessionsSurvive(s, AutoCleanRecycle(s, cutoff).state);
  }

  lemma RenameKeeps(s: State, id: Id, name: string, user: UserId)
    requires WellFormed(s)
    ensures WellFormed(RenameFile(s, id, name, user).state)
    ensures Acyclic(s.rows) ==> Acyclic(RenameFile(s, id, name, user).state.rows)
  {
    var s' := RenameFile(s, id, name, user).state;
    if s' != s {
      RetitleKeepsForest(s.rows, id, name);
      SessionsSurvive(s, s');
    }
  }

  // -------------------------------------------------------------- moves

  lemma MoveKeeps(s: State, id: Id, target: Option<Id>, user: UserId)
    requires WellFormed(s)
    ensures WellFormed(MoveFile(s, id, target, user).state)
  {
    var r := MoveFile(s, id, target, user);
    if r.outcome.Done? {
      ReparentKeepsSound(s.rows, {id}, target);
      SessionsSurvive(s, r.state);
    }
  }

  lemma {:induction false} MoveChecksPassed(t: Table, ids: seq<Id>, target: Option<Id>, user: UserId)
    requires FirstMoveError(t, ids, target, user).None?
    ensures forall id :: id in ids ==> MoveCheck(t, id, target, user).None?
  {
    if ids != [] {
      MoveChecksPassed(t, ids[..|ids| - 1], target, user);
      assert ids == ids[..|ids| - 1] + [ids[|ids| - 1]];
    }
  }

  lemma BatchMoveKeeps(s: State, ids: seq<Id>, target: Option<Id>, user: UserId)
    requires WellFormed(s)
    ensures WellFormed(BatchMove(s, ids, target, user).state)
  {
    var r := BatchMove(s, ids, target, user);
    if r.outcome.Done? {
      MoveChecksPassed(s.rows, ids, target, user);
      ReparentKeepsSound(s.rows, IdSet(ids), target);
      SessionsSurvive(s, r.state);
    }
  }

  /** A move under one of the ids' own subtrees; the guard as coded does not refuse it. */
  ghost predicate MovesUnderItself(t: Table, ids: set<Id>, target: Option<Id>) {
    target.Some? && exists y :: y in ids && (y == target.value || Below(t, target.value, y))
  }

  /** A committed move keeps the forest acyclic exactly when the target is not below the moved row. */
  lemma MoveAcyclicIff(s: State, id: Id, target: Option<Id>, user: UserId)
    requires Acyclic(s.rows) && MoveFile(s, id, target, user).outcome.Done?
    ensures Acyclic(MoveFile(s, id, target, user).state.rows) <==> !MovesUnderItself(s.rows, {id}, target)
  {
    ReparentAcyclicIff(s.rows, {id}, target);
    assert id in {id};
  }

  lemma BatchMoveAcyclicIff(s: State, ids: seq<Id>, target: Option<Id>, user: UserId)
    requires Acyclic(s.rows) && BatchMove(s, ids, target, user).outcome.Done?
    ensures Acyclic(BatchMove(s, ids, target, user).state.rows) <==> !MovesUnderItself(s.rows, IdSet(ids), target)
  {
    MoveChecksPassed(s.rows, ids, target, user);
    forall id | id in IdSet(ids) ensures id in s.rows {
      assert MoveCheck(s.rows, id, target, user).None?;
    }
    ReparentAcyclicIff(s.rows, IdSet(ids), target);
  }

  /** The test the error message promises, target below row, is the exact one. */
  lemma IntendedGuardIsExact(t: Table, id: Id, target: Id)
    requires Linked(t) && id in t && target in t && t[target].Active()
    ensures MovesUnderItself(t, {id}, Some(target)) <==>
            id == target || (t[id].isDir && target in DescendantsWhere(t, id, false))
  {
    if Below(t, target, id) {
      BelowLinked(t, target, id);
    }
    assert id in {id};
  }

  /** Every move the guard refuses as a cycle would have kept the forest acyclic. */
  lemma RefusedMoveWasHarmless(t: Table, id: Id, target: Option<Id>)
    requires Acyclic(t) && id in t && CycleGuard(t, id, target) == Some(CycleDetected)
    ensures Acyclic(Reparent(t, {id}, target))
  {
    var p := target.value;
    assert Below(t, id, p);
    if p == id || Below(t, p, id) {
      if p != id {
        BelowTransitive(t, id, p, id);
      }
      assert false;
    }
    ReparentAcyclicIff(t, {id}, target);
  }

  /** On an acyclic table the guard refuses a directory exactly when it lies under the target. */
  lemma GuardIsReversed(t: Table, id: Id, target: Id)
    requires Acyclic(t) && id in t && t[id].isDir && t[id].Active() && target in t
    ensures CycleGuard(t, id, Some(target)).Some? <==> Below(t, id, target)
  {
  }
}
