/**
  `storage_used` against the sum of active file sizes.
  The inequality holds over every run, with no restriction on the operations; for the
  operations that can open a gap, the exact condition under which they do not is given.
 */
module Accounting {
  import opened Base
  import opened FileTable
  import opened TableEdits
  import opened Sizes
  import opened Names
  import opened FileOps
  import opened Runs
  import opened OpShapes
  import opened Structure

  // -------------------------------------------------------------- what never breaks

  /** An existing parent is a directory of the same owner; it may be deleted under an active row. */
  ghost predicate ParentFits(t: Table, x: Id)
    requires x in t
  {
    t[x].parent.Some? && t[x].parent.value in t ==>
      t[t[x].parent.value].isDir && t[t[x].parent.value].owner == t[x].owner
  }

  /** Row and parent ids were handed out before, and every link leads to a directory of the same user, if anywhere. */
  ghost predicate Tidy(s: State) {
    && (forall x :: x in s.rows ==>
          && x < s.nextId && ParentFits(s.rows, x)
          && (s.rows[x].parent.Some? ==> s.rows[x].parent.value < s.nextId))
    && (forall k :: k in s.sessions && s.sessions[k].parent.Some? ==>
          && s.sessions[k].parent.value < s.nextId
          && (s.sessions[k].parent.value in s.rows ==>
                && s.rows[s.sessions[k].parent.value].isDir
                && s.rows[s.sessions[k].parent.value].owner == s.sessions[k].user))
  }

  ghost predicate Accounted(s: State) {
    forall u :: u in s.used ==> s.used[u] <= ActiveSum(s.rows, u)
  }

  lemma {:induction false} OwnerAlongChain(t: Table, x: Id, r: Id, n: nat)
    requires (forall y :: y in t ==> ParentFits(t, y)) && x in t && r in t && Up(t, Some(x), n) == Some(r)
    ensures t[r].owner == t[x].owner && (n > 0 ==> t[r].isDir)
    decreases n
  {
    if n > 0 {
      var q := Up(t, Some(x), n - 1).value;
      assert q in t;
      OwnerAlongChain(t, x, q, n - 1);
      assert ParentFits(t, q);
    }
  }

  lemma SubtreeOwner(t: Table, id: Id, deleted: bool)
    requires (forall y :: y in t ==> ParentFits(t, y)) && id in t
    ensures forall x :: x in Subtree(t, id, deleted) ==> x in t && t[x].owner == t[id].owner
  {
    forall x | x in Subtree(t, id, deleted)
      ensures x in t && t[x].owner == t[id].owner
    {
      if x != id {
        var n: nat :| n > 0 && Up(t, Some(x), n) == Some(id);
        OwnerAlongChain(t, x, id, n);
      }
    }
  }

  // -------------------------------------------------------------- balances

  /** u gains `size` on both sides of the balance; nobody else's balance moves. */
  ghost predicate Gains(s: State, s': State, u: UserId, size: nat) {
    && s'.used.Keys == s.used.Keys
    && forall v :: v in s.used ==>
         var n := if v == u then size else 0;
         s'.used[v] == s.used[v] + n && ActiveSum(s'.rows, v) == ActiveSum(s.rows, v) + n
  }

  /** u is charged back `counted` bytes while files of `actual` bytes leave the active set. */
  ghost predicate Loses(s: State, s': State, u: UserId, counted: nat, actual: nat) {
    && s'.used.Keys == s.used.Keys
    && (forall v :: v in s.used && v != u ==> s'.used[v] == s.used[v] && ActiveSum(s'.rows, v) == ActiveSum(s.rows, v))
    && (u in s.used ==>
          && s'.used[u] == (if s.used[u] <= counted then 0 else s.used[u] - counted)
          && actual <= ActiveSum(s.rows, u) && ActiveSum(s'.rows, u) == ActiveSum(s.rows, u) - actual)
  }

  ghost predicate InSync(s: State, u: UserId) {
    u in s.used && s.used[u] == ActiveSum(s.rows, u)
  }

  ghost predicate KeepsAccounts(s: State, s': State) {
    Tidy(s') && s'.used.Keys == s.used.Keys && (Accounted(s) ==> Accounted(s'))
  }

  ghost predicate KeepsSync(s: State, s': State) {
    forall u :: InSync(s, u) ==> InSync(s', u)
  }

  lemma GainKeepsAccounts(s: State, s': State, u: UserId, size: nat)
    requires Gains(s, s', u, size)
    ensures Accounted(s) ==> Accounted(s')
    ensures forall v :: InSync(s, v) ==> InSync(s', v)
  {
  }

  /** A loss counted at least in full keeps the inequality; it keeps equality iff counted exactly, or nothing is left. */
  lemma LossKeepsAccounts(s: State, s': State, u: UserId, counted: nat, actual: nat)
    requires Loses(s, s', u, counted, actual) && actual <= counted
    ensures Accounted(s) ==> Accounted(s')
    ensures forall v :: v != u && InSync(s, v) ==> InSync(s', v)
    ensures InSync(s, u) ==> (InSync(s', u) <==> counted == actual || ActiveSum(s.rows, u) == actual)
  {
  }

  // -------------------------------------------------------------- creating rows

  lemma InsertBalance(s: State, row: Row)
    requires Tidy(s) && row.Active()
    requires row.parent.Some? && row.parent.value in s.rows ==> s.rows[row.parent.value].isDir && s.rows[row.parent.value].owner == row.owner
    ensures var r := Insert(s, row);
            r.outcome.Created? ==>
              && Tidy(r.state) && r.state.used == s.used
              && forall v :: ActiveSum(r.state.rows, v) ==
                   ActiveSum(s.rows, v) + if v == row.owner && !row.isDir then row.size else 0
  {
    var r := Insert(s, row);
    if r.outcome.Created? {
      forall v ensures ActiveSum(r.state.rows, v) ==
        ActiveSum(s.rows, v) + if v == row.owner && !row.isDir then row.size else 0
      {
        SumAfterInsert(s.rows, s.nextId, row, v);
      }
      forall x | x in r.state.rows ensures ParentFits(r.state.rows, x) {
        assert x in s.rows ==> ParentFits(s.rows, x);
      }
    }
  }

  lemma CreateDirBalance(s: State, name: string, parent: Option<Id>, user: UserId)
    requires Tidy(s)
    ensures Tidy(CreateDir(s, name, parent, user).state)
    ensures Gains(s, CreateDir(s, name, parent, user).state, user, 0)
  {
    CreateDirShape(s, name, parent, user);
    if CreateDir(s, name, parent, user).outcome.Created? {
      InsertBalance(s, NewDir(name, parent, user));
    }
  }

  lemma CopyBalance(s: State, id: Id, target: Option<Id>, user: UserId)
    requires Tidy(s)
    ensures Tidy(CopyFile(s, id, target, user).state)
    ensures var r := CopyFile(s, id, target, user);
            Gains(s, r.state, user, if r.outcome.Created? then s.rows[id].size else 0)
  {
    var row := CopyShape(s, id, target, user);
    if CopyFile(s, id, target, user).outcome.Created? {
      InsertBalance(s, row);
    }
  }

  lemma ReplaceBalance(s: State, user: UserId, v: Id, now: int)
    requires Tidy(s) && v in s.rows && s.rows[v].Active() && s.rows[v].owner == user
    ensures Tidy(Replace(s, user, Some(v), now))
    ensures Loses(s, Replace(s, user, Some(v), now), user, Weight(s.rows, v), Weight(s.rows, v))
  {
    var s' := Replace(s, user, Some(v), now);
    forall u | u in s.used
      ensures ActiveSum(s'.rows, u) == ActiveSum(s.rows, u) - if u == user then Weight(s.rows, v) else 0
      ensures u == user ==> Weight(s.rows, v) <= ActiveSum(s.rows, u)
    {
      SumAfterSoftDelete(s.rows, {v}, now, u);
      SizeSumOne(s.rows, v);
      assert {v} * ActiveOf(s.rows, u) == if u == user then {v} else {};
    }
    forall x | x in s'.rows ensures ParentFits(s'.rows, x) {
      assert ParentFits(s.rows, x);
    }
  }

  /** An upload keeps both the inequality and, wherever it holds, equality. */
  lemma AddFileBalance(s: State, row: Row, bytes: Bytes, dup: Option<Id>, victim: Option<Id>, now: int)
    requires Tidy(s) && row.Active() && !row.isDir
    requires row.parent.Some? && row.parent.value in s.rows ==> s.rows[row.parent.value].isDir && s.rows[row.parent.value].owner == row.owner
    requires victim.Some? ==>
      victim.value in s.rows && s.rows[victim.value].Active() && s.rows[victim.value].owner == row.owner
    ensures var s' := AddFile(s, row, bytes, dup, victim, now).state;
            KeepsAccounts(s, s') && KeepsSync(s, s')
  {
    var r := AddFile(s, row, bytes, dup, victim, now);
    if r.outcome.Created? {
      var s1 := Replace(s, row.owner, victim, now);
      if victim.Some? {
        ReplaceBalance(s, row.owner, victim.value, now);
        var w := Weight(s.rows, victim.value);
        LossKeepsAccounts(s, s1, row.owner, w, w);
      }
      InsertBalance(s1, row);
      assert Gains(s1, r.state, row.owner, row.size);
      GainKeepsAccounts(s1, r.state, row.owner, row.size);
    }
  }

  lemma UploadBalance(env: Env, s: State, op: Op)
    requires op.Upload? && Tidy(s) && Enabled(env, s, op)
    ensures var s' := Apply(env, s, op).state;
            KeepsAccounts(s, s') && KeepsSync(s, s')
  {
    var row, replaced := UploadShape(env, s, op.name, op.bytes, op.parent, op.user, op.key, op.dup, op.victim, op.now);
    if Apply(env, s, op).outcome.Created? {
      AddFileBalance(s, row, op.bytes, op.dup, replaced, op.now);
    }
  }

  lemma CompleteBalance(env: Env, s: State, op: Op)
    requires op.Complete? && Tidy(s)
    ensures var s' := Apply(env, s, op).state;
            KeepsAccounts(s, s') && KeepsSync(s, s')
  {
    var row := CompleteShape(env, s, op.uploadId, op.user, op.key, op.dup);
    if Apply(env, s, op).outcome.Created? {
      var ss := s.sessions[op.uploadId];
      AddFileBalance(Closed(s, op.uploadId), row, Merge(ss.chunks, ss.chunkCount), op.dup, None, 0);
    }
  }

  // -------------------------------------------------------------- deleting

  /** Edits that keep parents, owners and sizes keep the state tidy. */
  lemma TidySurvives(s: State, s': State)
    requires Tidy(s) && s'.nextId == s.nextId && s'.sessions == s.sessions
    requires forall x :: x in s'.rows ==>
      && x in s.rows && s'.rows[x].owner == s.rows[x].owner && s'.rows[x].isDir == s.rows[x].isDir
      && (s'.rows[x].parent == s.rows[x].parent || s'.rows[x].parent.None?)
    ensures Tidy(s')
  {
  }

  lemma DeleteBalance(s: State, id: Id, user: UserId, now: int)
    requires Tidy(s) && DeleteFile(s, id, user, now).outcome.Done?
    ensures var s' := DeleteFile(s, id, user, now).state;
            var ids := Subtree(s.rows, id, false);
            var active := ids * ActiveOf(s.rows, user);
            && Tidy(s') && SizeSum(s.rows, active) <= SizeSum(s.rows, ids)
            && Loses(s, s', user, SizeSum(s.rows, ids), SizeSum(s.rows, active))
  {
    var s' := DeleteFile(s, id, user, now).state;
    var ids := Subtree(s.rows, id, false);
    TidySurvives(s, s');
    SubtreeOwner(s.rows, id, false);
    SizeSumSplit(s.rows, ActiveOf(s.rows, user), ids);
    assert ActiveOf(s.rows, user) * ids == ids * ActiveOf(s.rows, user);
    forall u
      ensures ActiveSum(s'.rows, u) == ActiveSum(s.rows, u) - SizeSum(s.rows, ids * ActiveOf(s.rows, u))
      ensures SizeSum(s.rows, ids * ActiveOf(s.rows, u)) <= ActiveSum(s.rows, u)
      ensures u != user ==> ids * ActiveOf(s.rows, u) == {}
    {
      SumAfterSoftDelete(s.rows, ids, now, u);
    }
  }

  /** The active bytes among the rows a deletion collects: all of them, unless a file is deleted again. */
  lemma CollectedBytes(t: Table, id: Id, user: UserId)
    requires (forall y :: y in t ==> ParentFits(t, y)) && id in t && t[id].owner == user
    ensures var ids := Subtree(t, id, false);
            SizeSum(t, ids * ActiveOf(t, user)) ==
            if t[id].Active() || t[id].isDir then SizeSum(t, ids) else 0
    ensures t[id].Deleted() && !t[id].isDir ==> SizeSum(t, Subtree(t, id, false)) == Weight(t, id)
  {
    var ids := Subtree(t, id, false);
    SubtreeOwner(t, id, false);
    if t[id].Active() {
      assert ids * ActiveOf(t, user) == ids;
    } else {
      forall x ensures x in ids * ActiveOf(t, user) <==> x in ids - {id} {}
      assert ids * ActiveOf(t, user) == ids - {id};
      SizeSumWithout(t, ids, id);
      if !t[id].isDir {
        assert ids - {id} == {};
      }
    }
  }

  /** Deleting keeps the books exact unless it re-deletes a file with bytes while others are active. */
  lemma DeleteExactIff(s: State, id: Id, user: UserId, now: int)
    requires Tidy(s) && InSync(s, user) && DeleteFile(s, id, user, now).outcome.Done?
    ensures InSync(DeleteFile(s, id, user, now).state, user) <==>
            s.rows[id].Active() || s.rows[id].isDir || s.rows[id].size == 0 || ActiveSum(s.rows, user) == 0
  {
    var t := s.rows;
    var ids := Subtree(t, id, false);
    DeleteBalance(s, id, user, now);
    CollectedBytes(t, id, user);
    LossKeepsAccounts(s, DeleteFile(s, id, user, now).state, user, SizeSum(t, ids), SizeSum(t, ids * ActiveOf(t, user)));
  }

  lemma {:induction false} CountedCovers(t: Table, ids: seq<Id>, user: UserId)
    requires FirstDeleteError(t, ids, user).None?
    ensures ActiveSubtrees(t, ids) <= t.Keys
    ensures SizeSum(t, ActiveSubtrees(t, ids)) <= CountedBytes(t, ids)
  {
    if ids != [] {
      var front, id := ids[..|ids| - 1], ids[|ids| - 1];
      CountedCovers(t, front, user);
      var a, b := ActiveSubtrees(t, front), Subtree(t, id, false);
      SizeSumUnion(t, a, b - a);
      assert a + b == a + (b - a);
      SizeSumSplit(t, a, b);
    } else {
      assert ActiveSubtrees(t, ids) == {};
    }
  }

  lemma {:induction false} SubtreesOwner(t: Table, ids: seq<Id>, user: UserId)
    requires (forall y :: y in t ==> ParentFits(t, y)) && FirstDeleteError(t, ids, user).None?
    ensures forall x :: x in ActiveSubtrees(t, ids) ==> x in t && t[x].owner == user && t[x].Active()
  {
    if ids != [] {
      SubtreesOwner(t, ids[..|ids| - 1], user);
      SubtreeOwner(t, ids[|ids| - 1], false);
    }
  }

  /** Batch deletion loses the distinct rows' bytes and charges back the counted ones. */
  lemma BatchDeleteBalance(s: State, ids: seq<Id>, user: UserId, now: int)
    requires Tidy(s) && BatchDelete(s, ids, user, now).outcome.Done?
    ensures ActiveSubtrees(s.rows, ids) <= s.rows.Keys
    ensures var s' := BatchDelete(s, ids, user, now).state;
            var counted, actual := CountedBytes(s.rows, ids), SizeSum(s.rows, ActiveSubtrees(s.rows, ids));
            Tidy(s') && actual <= counted && Loses(s, s', user, counted, actual)
  {
    var s' := BatchDelete(s, ids, user, now).state;
    var all := ActiveSubtrees(s.rows, ids);
    TidySurvives(s, s');
    CountedCovers(s.rows, ids, user);
    SubtreesOwner(s.rows, ids, user);
    forall u
      ensures ActiveSum(s'.rows, u) == ActiveSum(s.rows, u) - SizeSum(s.rows, all * ActiveOf(s.rows, u))
      ensures SizeSum(s.rows, all * ActiveOf(s.rows, u)) <= ActiveSum(s.rows, u)
      ensures all * ActiveOf(s.rows, u) == if u == user then all else {}
    {
      SumAfterSoftDelete(s.rows, all, now, u);
      if u == user {
        forall x | x in all ensures x in ActiveOf(s.rows, u) {}
      } else {
        assert all * ActiveOf(s.rows, u) == {};
      }
    }
  }

  /** x is a file with bytes that the i-th and the j-th selected row both reach. */
  ghost predicate SharedFile(t: Table, ids: seq<Id>, i: nat, j: nat, x: Id) {
    && i < j < |ids| && ids[i] in t && ids[j] in t && x in t && Weight(t, x) > 0
    && x in Subtree(t, ids[i], false) && x in Subtree(t, ids[j], false)
  }

  ghost predicate SharesFile(t: Table, ids: seq<Id>) {
    exists i: nat, j: nat, x :: SharedFile(t, ids, i, j, x)
  }

  lemma {:induction false} SubtreesInclude(t: Table, ids: seq<Id>, i: nat)
    requires i < |ids| && ids[i] in t
    ensures Subtree(t, ids[i], false) <= ActiveSubtrees(t, ids)
  {
    var n := |ids| - 1;
    if i < n {
      SubtreesInclude(t, ids[..n], i);
    }
  }

  /** One more selected row shares a file if it does with the rows before it. */
  lemma SharesFileStep(t: Table, ids: seq<Id>)
    requires ids != [] && ids[|ids| - 1] in t
    ensures var front, id := ids[..|ids| - 1], ids[|ids| - 1];
            SharesFile(t, ids) <==>
            SharesFile(t, front) ||
            exists x :: x in ActiveSubtrees(t, front) && x in Subtree(t, id, false) && x in t && Weight(t, x) > 0
  {
    var n := |ids| - 1;
    var front, id := ids[..n], ids[n];
    if i: nat, j: nat, x :| SharedFile(t, ids, i, j, x) {
      if j < n {
        assert SharedFile(t, front, i, j, x);
      } else {
        SubtreesInclude(t, front, i);
      }
    }
    if i: nat, j: nat, x :| SharedFile(t, front, i, j, x) {
      assert SharedFile(t, ids, i, j, x);
    }
    if x :| x in ActiveSubtrees(t, front) && x in Subtree(t, id, false) && x in t && Weight(t, x) > 0 {
      SubtreesReached(t, front, x);
      var i :| 0 <= i < |front| && front[i] in t && x in Subtree(t, front[i], false);
      assert SharedFile(t, ids, i, n, x);
    }
  }

  /** Bytes are counted once exactly when no two selected rows reach the same non-empty file. */
  lemma {:induction false} CountedOnceIff(t: Table, ids: seq<Id>, user: UserId)
    requires FirstDeleteError(t, ids, user).None?
    ensures ActiveSubtrees(t, ids) <= t.Keys
    ensures CountedBytes(t, ids) == SizeSum(t, ActiveSubtrees(t, ids)) <==> !SharesFile(t, ids)
  {
    CountedCovers(t, ids, user);
    if ids == [] {
      assert ActiveSubtrees(t, ids) == {};
    } else {
      var front, id := ids[..|ids| - 1], ids[|ids| - 1];
      var a, b := ActiveSubtrees(t, front), Subtree(t, id, false);
      CountedOnceIff(t, front, user);
      CountedCovers(t, front, user);
      SizeSumUnion(t, a, b - a);
      assert a + b == a + (b - a);
      SizeSumSplit(t, a, b);
      SizeSumZero(t, a * b);
      SharesFileStep(t, ids);
    }
  }

  /** Every non-empty active file of the user is about to be deleted. */
  ghost predicate SelectsEveryByte(t: Table, ids: seq<Id>, user: UserId) {
    forall x :: x in ActiveOf(t, user) && Weight(t, x) > 0 ==> x in ActiveSubtrees(t, ids)
  }

  lemma SelectsEveryByteIff(t: Table, ids: seq<Id>, user: UserId)
    requires (forall y :: y in t ==> ParentFits(t, y)) && FirstDeleteError(t, ids, user).None?
    ensures ActiveSubtrees(t, ids) <= t.Keys
    ensures ActiveSum(t, user) == SizeSum(t, ActiveSubtrees(t, ids)) <==> SelectsEveryByte(t, ids, user)
  {
    var all, active := ActiveSubtrees(t, ids), ActiveOf(t, user);
    SubtreesOwner(t, ids, user);
    SizeSumSplit(t, all, active);
    forall x ensures x in all * active <==> x in all {}
    assert all * active == all;
    SizeSumZero(t, active - all);
  }

  /** Batch deletion keeps the books exact iff no two selected rows share a non-empty file, or every byte goes. */
  lemma BatchDeleteExactIff(s: State, ids: seq<Id>, user: UserId, now: int)
    requires Tidy(s) && InSync(s, user) && BatchDelete(s, ids, user, now).outcome.Done?
    ensures InSync(BatchDelete(s, ids, user, now).state, user) <==>
            !SharesFile(s.rows, ids) || SelectsEveryByte(s.rows, ids, user)
  {
    BatchDeleteBalance(s, ids, user, now);
    CountedOnceIff(s.rows, ids, user);
    SelectsEveryByteIff(s.rows, ids, user);
    LossKeepsAccounts(s, BatchDelete(s, ids, user, now).state, user,
                      CountedBytes(s.rows, ids), SizeSum(s.rows, ActiveSubtrees(s.rows, ids)));
  }

  /** Selections whose subtrees do not meet are never counted twice. */
  lemma DisjointSelectionsCountOnce(t: Table, ids: seq<Id>, user: UserId)
    requires FirstDeleteError(t, ids, user).None? && NoDuplicates(ids)
    requires forall i, j :: 0 <= i < |ids| && 0 <= j < |ids| && i != j ==> !Below(t, ids[i], ids[j])
    ensures ActiveSubtrees(t, ids) <= t.Keys
    ensures CountedBytes(t, ids) == SizeSum(t, ActiveSubtrees(t, ids))
  {
    CountedOnceIff(t, ids, user);
    if i: nat, j: nat, x :| SharedFile(t, ids, i, j, x) {
      if x != ids[i] && x != ids[j] {
        AncestorsRelated(t, x, ids[i], ids[j]);
      }
      assert false;
    }
  }

  lemma {:induction false} SubtreesReached(t: Table, ids: seq<Id>, x: Id)
    requires x in ActiveSubtrees(t, ids)
    ensures exists i :: 0 <= i < |ids| && ids[i] in t && x in Subtree(t, ids[i], false)
  {
    var n := |ids| - 1;
    if x in ActiveSubtrees(t, ids[..n]) {
      SubtreesReached(t, ids[..n], x);
      var i :| 0 <= i < n && ids[..n][i] in t && x in Subtree(t, ids[..n][i], false);
      assert ids[i] in t && x in Subtree(t, ids[i], false);
    } else {
      assert ids[n] in t && x in Subtree(t, ids[n], false);
    }
  }

  // -------------------------------------------------------------- restoring and purging

  lemma RestoredSum(t: Table, id: Id, user: UserId, u: UserId)
    requires (forall y :: y in t ==> ParentFits(t, y)) && id in t && t[id].owner == user && t[id].Deleted()
    ensures ActiveSum(Restored(t, id, user), u) ==
            ActiveSum(t, u) + if u == user then SizeSum(t, Subtree(t, id, true)) else 0
  {
    var ids := Subtree(t, id, true);
    SubtreeOwner(t, id, true);
    SumAfterUndelete(t, ids, u);
    assert ids * DeletedOf(t, u) == if u == user then ids else {};
    SumUnchanged(Undelete(t, ids), Restored(t, id, user), u);
  }

  /** Restoring credits exactly the bytes that become active. */
  lemma RestoreBalance(s: State, id: Id, user: UserId)
    requires Tidy(s) && RestoreFile(s, id, user).outcome.Done?
    ensures Tidy(RestoreFile(s, id, user).state)
    ensures Gains(s, RestoreFile(s, id, user).state, user, SizeSum(s.rows, Subtree(s.rows, id, true)))
  {
    var s' := RestoreFile(s, id, user).state;
    TidySurvives(s, s');
    forall u
      ensures ActiveSum(s'.rows, u) ==
              ActiveSum(s.rows, u) + if u == user then SizeSum(s.rows, Subtree(s.rows, id, true)) else 0
    {
      RestoredSum(s.rows, id, user, u);
    }
  }

  /** Purging frees no active byte, yet charges the purged bytes back once more. */
  lemma PurgeBalance(s: State, id: Id, user: UserId)
    requires Tidy(s) && PermanentDeleteFile(s, id, user).outcome.Done?
    ensures Tidy(PermanentDeleteFile(s, id, user).state)
    ensures Loses(s, PermanentDeleteFile(s, id, user).state, user, SizeSum(s.rows, Subtree(s.rows, id, true)), 0)
  {
    var s' := PermanentDeleteFile(s, id, user).state;
    TidySurvives(s, s');
    forall u ensures ActiveSum(s'.rows, u) == ActiveSum(s.rows, u) {
      SumAfterRemove(s.rows, Subtree(s.rows, id, true), u);
    }
  }

  /** Purging keeps the books exact iff the purged rows hold no bytes or the user has none active. */
  lemma PurgeExactIff(s: State, id: Id, user: UserId)
    requires Tidy(s) && InSync(s, user) && PermanentDeleteFile(s, id, user).outcome.Done?
    ensures InSync(PermanentDeleteFile(s, id, user).state, user) <==>
            SizeSum(s.rows, Subtree(s.rows, id, true)) == 0 || ActiveSum(s.rows, user) == 0
  {
    PurgeBalance(s, id, user);
    LossKeepsAccounts(s, PermanentDeleteFile(s, id, user).state, user, SizeSum(s.rows, Subtree(s.rows, id, true)), 0);
  }

  lemma AutoCleanBalance(s: State, cutoff: int)
    requires Tidy(s)
    ensures var s' := AutoCleanRecycle(s, cutoff).state;
            && Tidy(s') && (Accounted(s) ==> Accounted(s'))
            && forall u :: InSync(s, u) ==>
                 (InSync(s', u) <==>
                  SizeSum(s.rows, OwnedIn(s.rows, Swept(s.rows, cutoff), u)) == 0 || ActiveSum(s.rows, u) == 0)
  {
    var s' := AutoCleanRecycle(s, cutoff).state;
    TidySurvives(s, s');
    forall u ensures ActiveSum(s'.rows, u) == ActiveSum(s.rows, u) {
      SumAfterRemove(s.rows, Swept(s.rows, cutoff), u);
    }
  }

  lemma MovedBalance(s: State, ids: set<Id>, target: Option<Id>, user: UserId)
    requires Tidy(s) && CheckParent(s.rows, target, user).None?
    requires forall x :: x in ids ==> x in s.rows && s.rows[x].owner == user
    ensures var s' := s.(rows := Reparent(s.rows, ids, target));
            Tidy(s') && Gains(s, s', user, 0)
  {
    var s' := s.(rows := Reparent(s.rows, ids, target));
    forall x | x in s'.rows ensures ParentFits(s'.rows, x) {
      assert ParentFits(s.rows, x);
    }
    forall u ensures ActiveSum(s'.rows, u) == ActiveSum(s.rows, u) {
      SumUnchanged(s.rows, s'.rows, u);
    }
  }

  lemma RenameBalance(s: State, id: Id, name: string, user: UserId)
    requires Tidy(s) && id in s.rows
    ensures var s' := s.(rows := Retitle(s.rows, id, name));
            Tidy(s') && Gains(s, s', user, 0)
  {
    var s' := s.(rows := Retitle(s.rows, id, name));
    TidySurvives(s, s');
    forall u ensures ActiveSum(s'.rows, u) == ActiveSum(s.rows, u) {
      SumUnchanged(s.rows, s'.rows, u);
    }
  }

  // -------------------------------------------------------------- steps

  /** Operations that can open a gap between storage_used and the active bytes. */
  predicate Subtracts(op: Op) {
    op.Delete? || op.DeleteMany? || op.Purge? || op.AutoClean?
  }

  lemma CreationKeepsAccounts(env: Env, s: State, op: Op)
    requires Tidy(s) && Enabled(env, s, op) && (op.MkDir? || op.Upload? || op.Copy? || op.Complete?)
    ensures KeepsAccounts(s, Apply(env, s, op).state) && KeepsSync(s, Apply(env, s, op).state)
  {
    var r := Apply(env, s, op);
    match op
    case MkDir(name, parent, user) =>
      CreateDirBalance(s, name, parent, user);
      GainKeepsAccounts(s, r.state, user, 0);
    case Upload(_, _, _, _, _, _, _, _) => UploadBalance(env, s, op);
    case Copy(id, target, user) =>
      CopyBalance(s, id, target, user);
      GainKeepsAccounts(s, r.state, user, if r.outcome.Created? then s.rows[id].size else 0);
    case Complete(_, _, _, _) => CompleteBalance(env, s, op);
  }

  lemma LinkEditKeepsAccounts(env: Env, s: State, op: Op)
    requires Tidy(s) && (op.Rename? || op.Move? || op.MoveMany? || op.Restore?)
    ensures KeepsAccounts(s, Apply(env, s, op).state) && KeepsSync(s, Apply(env, s, op).state)
  {
    var r := Apply(env, s, op);
    if r.outcome.Done? {
      match op
      case Rename(id, name, user) =>
        RenameBalance(s, id, name, user);
        GainKeepsAccounts(s, s.(rows := Retitle(s.rows, id, name)), user, 0);
      case Move(id, target, user) =>
        MovedBalance(s, {id}, target, user);
        GainKeepsAccounts(s, r.state, user, 0);
      case MoveMany(ids, target, user) =>
        MoveChecksPassed(s.rows, ids, target, user);
        MovedBalance(s, IdSet(ids), target, user);
        GainKeepsAccounts(s, r.state, user, 0);
      case Restore(id, user) =>
        RestoreBalance(s, id, user);
        GainKeepsAccounts(s, r.state, user, SizeSum(s.rows, Subtree(s.rows, id, true)));
    }
  }

  lemma SubtractionKeepsAccounts(env: Env, s: State, op: Op)
    requires Tidy(s) && Subtracts(op)
    ensures KeepsAccounts(s, Apply(env, s, op).state)
  {
    var r := Apply(env, s, op);
    if op.AutoClean? {
      AutoCleanBalance(s, op.cutoff);
    } else if r.outcome.Done? {
      match op
      case Delete(id, user, now) =>
        DeleteBalance(s, id, user, now);
        var ids := Subtree(s.rows, id, false);
        LossKeepsAccounts(s, r.state, user, SizeSum(s.rows, ids), SizeSum(s.rows, ids * ActiveOf(s.rows, user)));
      case DeleteMany(ids, user, now) =>
        BatchDeleteBalance(s, ids, user, now);
        LossKeepsAccounts(s, r.state, user, CountedBytes(s.rows, ids), SizeSum(s.rows, ActiveSubtrees(s.rows, ids)));
      case Purge(id, user) =>
        PurgeBalance(s, id, user);
        LossKeepsAccounts(s, r.state, user, SizeSum(s.rows, Subtree(s.rows, id, true)), 0);
    }
  }

  lemma QuietKeepsAccounts(s: State, s': State)
    requires Tidy(s) && QuietEffect(s, s')
    ensures KeepsAccounts(s, s') && KeepsSync(s, s')
  {
  }

  lemma StepKeepsAccounts(env: Env, s: State, op: Op)
    requires Tidy(s) && Enabled(env, s, op)
    ensures KeepsAccounts(s, Apply(env, s, op).state)
    ensures !Subtracts(op) ==> KeepsSync(s, Apply(env, s, op).state)
  {
    if Creates(op) {
      CreationKeepsAccounts(env, s, op);
    } else if Subtracts(op) {
      SubtractionKeepsAccounts(env, s, op);
    } else if Edits(op) {
      LinkEditKeepsAccounts(env, s, op);
    } else {
      QuietShape(env, s, op);
      QuietKeepsAccounts(s, Apply(env, s, op).state);
    }
  }
}
