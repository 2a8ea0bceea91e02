/** Every stored blob is held by some row, and when an operation can break that. */
module Stranding {
  import opened Base
  import opened FileTable
  import opened TableEdits
  import opened FileOps
  import opened Runs
  import opened OpShapes
  import opened Accounting
  import opened Blobs

  ghost predicate AllHeld(s: State) {
    && (forall x :: x in s.rows && s.rows[x].isDir ==> s.rows[x].key == "")
    && (forall k :: k in s.blobs ==> k != "" && Holders(s.rows, k) != {})
  }

  /** No blob loses all of its several holders at once. */
  ghost predicate StrandsNothing(s: State, op: Op) {
    match op
    case Purge(id, _) => id in s.rows ==> forall k :: k in s.blobs ==> !SharedWithin(s.rows, Subtree(s.rows, id, true), k)
    case AutoClean(cutoff) => forall k :: k in s.blobs ==> !SharedWithin(s.rows, Swept(s.rows, cutoff), k)
    case _ => true
  }

  /** A new row, and at most the blob it holds, leave everything held. */
  lemma HeldAfterInsert(s: State, s': State, row: Row)
    requires AllHeld(s) && s.nextId !in s.rows && s.nextId in s'.rows && s'.rows[s.nextId] == row
    requires forall x :: x in s'.rows <==> x in s.rows || x == s.nextId
    requires forall x :: x in s.rows ==> s'.rows[x].key == s.rows[x].key && s'.rows[x].isDir == s.rows[x].isDir
    requires row.isDir ==> row.key == ""
    requires s'.blobs == s.blobs || (row.key != "" && s'.blobs.Keys == s.blobs.Keys + {row.key})
    ensures AllHeld(s')
  {
    forall k | k in s'.blobs ensures k != "" && Holders(s'.rows, k) != {} {
      if k in s.blobs {
        HasElement(Holders(s.rows, k));
        var x :| x in Holders(s.rows, k);
        assert x in Holders(s'.rows, k);
      } else {
        assert s.nextId in Holders(s'.rows, k);
      }
    }
  }

  lemma HeldAfterEdit(s: State, s': State)
    requires AllHeld(s) && EditedInPlace(s, s')
    ensures AllHeld(s')
  {
    forall k | k in s'.blobs ensures k != "" && Holders(s'.rows, k) != {} {
      HasElement(Holders(s.rows, k));
      var x :| x in Holders(s.rows, k);
      assert x in Holders(s'.rows, k);
    }
  }

  lemma HeldAfterPurgeIff(s: State, s': State, ids: set<Id>, purged: set<Id>)
    requires AllHeld(s) && purged <= ids && forall x :: x in ids && x in s.rows && !s.rows[x].isDir ==> x in purged
    requires s'.rows == Remove(s.rows, ids) && s'.blobs == s.blobs - FreedKeys(s.rows, purged)
    ensures AllHeld(s') <==> forall k :: k in s.blobs ==> !SharedWithin(s.rows, ids, k)
  {
    forall k | k in s.blobs
      ensures k != "" && ((k in s'.blobs && Holders(s'.rows, k) == {}) <==> SharedWithin(s.rows, ids, k))
    {
      StrandedByPurge(s.rows, s.blobs, ids, purged, k);
    }
  }

  lemma HeldAfterAddFile(s: State, row: Row, bytes: Bytes, dup: Option<Id>, victim: Option<Id>, now: int)
    requires AllHeld(s) && s.nextId !in s.rows && !row.isDir && (dup.None? ==> row.key != "")
    ensures AddFile(s, row, bytes, dup, victim, now).outcome.Created? ==>
              AllHeld(AddFile(s, row, bytes, dup, victim, now).state)
  {
    var r := AddFile(s, row, bytes, dup, victim, now);
    if r.outcome.Created? {
      AddFileRows(s, row, bytes, dup, victim, now);
      HeldAfterInsert(s, r.state, row);
    }
  }

  lemma CreationKeepsHeld(env: Env, s: State, op: Op)
    requires Tidy(s) && AllHeld(s) && Enabled(env, s, op) && Apply(env, s, op).outcome.Created?
    requires Creates(op)
    ensures AllHeld(Apply(env, s, op).state)
  {
    var s' := Apply(env, s, op).state;
    match op
    case MkDir(name, parent, user) =>
      CreateDirShape(s, name, parent, user);
      HeldAfterInsert(s, s', NewDir(name, parent, user));
    case Upload(name, bytes, parent, user, key, dup, victim, now) =>
      var row, replaced := UploadShape(env, s, name, bytes, parent, user, key, dup, victim, now);
      HeldAfterAddFile(s, row, bytes, dup, replaced, now);
    case Copy(id, target, user) =>
      var row := CopyShape(s, id, target, user);
      HeldAfterInsert(s, s', row);
    case Complete(uploadId, user, key, dup) =>
      var row := CompleteShape(env, s, uploadId, user, key, dup);
      HeldAfterAddFile(Closed(s, uploadId), row, Payload(s, op), dup, None, 0);
  }

  lemma PurgeHeldIff(env: Env, s: State, op: Op)
    requires AllHeld(s) && Purges(op) && !Apply(env, s, op).outcome.Failed?
    ensures AllHeld(Apply(env, s, op).state) <==> StrandsNothing(s, op)
  {
    if op.Purge? {
      var ids := Subtree(s.rows, op.id, true);
      HeldAfterPurgeIff(s, PermanentDeleteFile(s, op.id, op.user).state, ids, ids);
    } else {
      var ids := Swept(s.rows, op.cutoff);
      HeldAfterPurgeIff(s, AutoCleanRecycle(s, op.cutoff).state, ids, FilesIn(s.rows, ids));
    }
  }

  /** A committed operation leaves every blob held exactly when it does not purge all of a blob's several holders. */
  lemma StepHeldIff(env: Env, s: State, op: Op)
    requires Tidy(s) && AllHeld(s) && Enabled(env, s, op) && !Apply(env, s, op).outcome.Failed?
    ensures AllHeld(Apply(env, s, op).state) <==> StrandsNothing(s, op)
  {
    if Creates(op) {
      CreationKeepsHeld(env, s, op);
    } else if Purges(op) {
      PurgeHeldIff(env, s, op);
    } else if Edits(op) {
      EditShape(env, s, op);
      HeldAfterEdit(s, Apply(env, s, op).state);
    } else {
      QuietShape(env, s, op);
    }
  }
}
