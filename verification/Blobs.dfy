/**
  The deduplicated blob store against a plain one that keeps separate bytes per file row.
 */
module Blobs {
  import opened Base
  import opened FileTable
  import opened TableEdits
  import opened Names
  import opened FileOps
  import opened Runs
  import opened OpShapes

  ghost predicate CollisionFree(digest: Bytes -> string) {
    forall a, b :: digest(a) == digest(b) ==> a == b
  }

  /** A file row leads to a blob whose digest it carries; a directory holds no key. */
  ghost predicate RowStored(env: Env, s: State, x: Id)
    requires x in s.rows
  {
    var row := s.rows[x];
    if row.isDir then row.key == ""
    else row.key != "" && row.key in s.blobs && row.hash == env.digest(s.blobs[row.key])
  }

  ghost predicate Stored(env: Env, s: State) {
    && (forall x :: x in s.rows ==> x < s.nextId)
    && (forall x :: x in s.rows ==> RowStored(env, s, x))
  }

  /** What opening file x gives. */
  function Read(s: State, x: Id): Bytes
    requires x in s.rows
  {
    if s.rows[x].key in s.blobs then s.blobs[s.rows[x].key] else []
  }

  /** The deduplicated store seen as a plain one. */
  ghost function Contents(s: State): map<Id, Bytes> {
    map x | x in s.rows && !s.rows[x].isDir :: Read(s, x)
  }

  // -------------------------------------------------------------- the plain store

  /**
    The reference store: a new file row gets its own copy of the bytes, a removed row drops its
    own copy, and nothing else changes.  It never looks at keys, digests or reference counts.
   */
  ghost function PlainStep(plain: map<Id, Bytes>, s: State, op: Op, r: Reply): map<Id, Bytes> {
    var kept := DropRemoved(plain, s, r.state);
    if !r.outcome.Created? || op.MkDir? then kept
    else if op.Copy? then kept[r.outcome.id := if op.id in plain then plain[op.id] else []]
    else kept[r.outcome.id := Payload(s, op)]
  }

  ghost function DropRemoved(plain: map<Id, Bytes>, s: State, s': State): map<Id, Bytes> {
    plain - (s.rows.Keys - s'.rows.Keys)
  }

  /** The deduplicated store did to every file's bytes what the plain store does. */
  ghost predicate Matches(env: Env, s: State, op: Op, r: Reply) {
    Stored(env, r.state) && Contents(r.state) == PlainStep(Contents(s), s, op, r)
  }

  lemma NothingDropped(plain: map<Id, Bytes>, s: State, s': State)
    requires s.rows.Keys <= s'.rows.Keys
    ensures DropRemoved(plain, s, s') == plain
  {
  }

  ghost function PlainRun(env: Env, s: State, ops: seq<Op>): map<Id, Bytes> {
    if ops == [] then Contents(s)
    else
      var front, op := ops[..|ops| - 1], ops[|ops| - 1];
      var s1 := Run(env, s, front);
      PlainStep(PlainRun(env, s, front), s1, op, Apply(env, s1, op))
  }

  // -------------------------------------------------------------- edits

  /** Edits that leave kinds, keys and digests alone leave every file's bytes alone. */
  lemma SameBlobs(env: Env, s: State, s': State)
    requires Stored(env, s) && s'.blobs == s.blobs && s'.nextId == s.nextId && s'.rows.Keys == s.rows.Keys
    requires forall x :: x in s.rows ==>
      s'.rows[x].isDir == s.rows[x].isDir && s'.rows[x].key == s.rows[x].key && s'.rows[x].hash == s.rows[x].hash
    ensures Stored(env, s') && Contents(s') == Contents(s)
  {
  }

  /** Adding a file row whose key already holds, or is freshly given, the right bytes. */
  lemma AddRow(env: Env, s: State, s': State, row: Row, bytes: Bytes)
    requires Stored(env, s) && !row.isDir && row.key != "" && row.hash == env.digest(bytes)
    requires s'.rows == s.rows[s.nextId := row] && s'.nextId == s.nextId + 1
    requires row.key in s.blobs ==> s.blobs[row.key] == bytes
    requires s'.blobs == s.blobs[row.key := bytes]
    ensures Stored(env, s') && Contents(s') == Contents(s)[s.nextId := bytes]
  {
    forall x | x in s'.rows ensures RowStored(env, s', x) {
      assert x in s.rows ==> RowStored(env, s, x);
    }
    forall x | x in s.rows && !s.rows[x].isDir
      ensures Read(s', x) == Read(s, x)
    {
      assert RowStored(env, s, x);
    }
    assert Contents(s') == Contents(s)[s.nextId := bytes];
  }

  /** A purge never frees the blob of a row that survives it. */
  lemma FreedKeysUnused(t: Table, ids: set<Id>, purged: set<Id>, x: Id)
    requires purged <= ids && x in t && x !in ids
    ensures t[x].key !in FreedKeys(t, purged)
  {
    if t[x].key in FreedKeys(t, purged) {
      var y :| y in purged && y in t && t[y].key == t[x].key && |Holders(t, t[y].key)| <= 1;
      var two := {x, y};
      assert two <= Holders(t, t[x].key);
      SubsetSize(two, Holders(t, t[x].key));
      assert false;
    }
  }

  lemma PurgeKeepsBlobs(env: Env, s: State, s': State, ids: set<Id>, purged: set<Id>)
    requires Stored(env, s) && purged <= ids && s'.nextId == s.nextId
    requires s'.rows == Remove(s.rows, ids) && s'.blobs == s.blobs - FreedKeys(s.rows, purged)
    ensures Stored(env, s') && Contents(s') == Contents(s) - ids
  {
    forall x | x in s'.rows
      ensures RowStored(env, s', x) && Read(s', x) == Read(s, x)
    {
      assert RowStored(env, s, x);
      FreedKeysUnused(s.rows, ids, purged, x);
    }
    assert Contents(s') == Contents(s) - ids;
  }

  // -------------------------------------------------------------- operations

  lemma DuplicateHoldsBytes(env: Env, s: State, bytes: Bytes, dup: Option<Id>, key: string)
    requires CollisionFree(env.digest) && Stored(env, s) && HashLookup(s.rows, env.digest(bytes), dup)
    requires key != "" && key !in s.blobs
    ensures var k := KeyFor(s, dup, key);
            && k != "" && (dup.None? ==> k == key)
            && (dup.Some? ==> k in s.blobs && s.blobs[k] == bytes)
  {
  }

  lemma AddFileRefines(env: Env, s: State, row: Row, bytes: Bytes, dup: Option<Id>, victim: Option<Id>, now: int)
    requires Stored(env, s) && !row.isDir && row.key != "" && row.hash == env.digest(bytes)
    requires if dup.Some? then row.key in s.blobs && s.blobs[row.key] == bytes else row.key !in s.blobs
    ensures var r := AddFile(s, row, bytes, dup, victim, now);
            if r.outcome.Created?
            then && Stored(env, r.state) && r.outcome.id == s.nextId && s.rows.Keys <= r.state.rows.Keys
                 && Contents(r.state) == Contents(s)[s.nextId := bytes]
            else r.state == s
  {
    var r := AddFile(s, row, bytes, dup, victim, now);
    if r.outcome.Created? {
      var s1 := Replace(s, row.owner, victim, now);
      SameBlobs(env, s, s1);
      assert dup.Some? ==> s1.blobs[row.key := bytes] == s1.blobs;
      AddRow(env, s1, r.state, row, bytes);
    }
  }

  /** Operations that neither create nor remove a row, nor touch kinds, keys and digests. */
  lemma QuietStep(env: Env, s: State, op: Op, r: Reply)
    requires Stored(env, s) && !r.outcome.Created?
    requires r.state.blobs == s.blobs && r.state.nextId == s.nextId && r.state.rows.Keys == s.rows.Keys
    requires forall x :: x in s.rows ==>
      && r.state.rows[x].isDir == s.rows[x].isDir && r.state.rows[x].key == s.rows[x].key
      && r.state.rows[x].hash == s.rows[x].hash
    ensures Matches(env, s, op, r)
  {
    SameBlobs(env, s, r.state);
    NothingDropped(Contents(s), s, r.state);
  }

  lemma PurgeStep(env: Env, s: State, op: Op, r: Reply, ids: set<Id>, purged: set<Id>)
    requires Stored(env, s) && purged <= ids && !r.outcome.Created? && r.state.nextId == s.nextId
    requires r.state.rows == Remove(s.rows, ids) && r.state.blobs == s.blobs - FreedKeys(s.rows, purged)
    ensures Matches(env, s, op, r)
  {
    PurgeKeepsBlobs(env, s, r.state, ids, purged);
    assert Contents(s) - ids == DropRemoved(Contents(s), s, r.state);
  }

  lemma MkDirStep(env: Env, s: State, op: Op, r: Reply)
    requires op.MkDir? && Stored(env, s) && r == CreateDir(s, op.name, op.parent, op.user)
    ensures Matches(env, s, op, r)
  {
    CreateDirShape(s, op.name, op.parent, op.user);
    if r.outcome.Created? {
      forall x | x in r.state.rows ensures RowStored(env, r.state, x) {
        assert x in s.rows ==> RowStored(env, s, x);
      }
      assert Contents(r.state) == Contents(s);
      NothingDropped(Contents(s), s, r.state);
    } else {
      QuietStep(env, s, op, r);
    }
  }

  lemma UploadStep(env: Env, s: State, op: Op, r: Reply)
    requires op.Upload? && CollisionFree(env.digest) && Stored(env, s) && Enabled(env, s, op)
    requires r == UploadFile(env, s, op.name, op.bytes, op.parent, op.user, op.key, op.dup, op.victim, op.now)
    ensures Matches(env, s, op, r)
  {
    var row, replaced := UploadShape(env, s, op.name, op.bytes, op.parent, op.user, op.key, op.dup, op.victim, op.now);
    if r.outcome.Created? {
      DuplicateHoldsBytes(env, s, op.bytes, op.dup, op.key);
      AddFileRefines(env, s, row, op.bytes, op.dup, replaced, op.now);
      NothingDropped(Contents(s), s, r.state);
    } else {
      QuietStep(env, s, op, r);
    }
  }

  lemma CompleteStep(env: Env, s: State, op: Op, r: Reply)
    requires op.Complete? && CollisionFree(env.digest) && Stored(env, s) && Enabled(env, s, op)
    requires r == CompleteUpload(env, s, op.uploadId, op.user, op.key, op.dup)
    ensures Matches(env, s, op, r)
  {
    var row := CompleteShape(env, s, op.uploadId, op.user, op.key, op.dup);
    if r.outcome.Created? {
      SameBlobs(env, s, Closed(s, op.uploadId));
      DuplicateHoldsBytes(env, s, Payload(s, op), op.dup, op.key);
      AddFileRefines(env, Closed(s, op.uploadId), row, Payload(s, op), op.dup, None, 0);
      NothingDropped(Contents(s), s, r.state);
    } else {
      QuietStep(env, s, op, r);
    }
  }

  lemma CopyStep(env: Env, s: State, op: Op, r: Reply)
    requires op.Copy? && Stored(env, s) && r == CopyFile(s, op.id, op.target, op.user)
    ensures Matches(env, s, op, r)
  {
    var row := CopyShape(s, op.id, op.target, op.user);
    if r.outcome.Created? {
      assert RowStored(env, s, op.id);
      assert s.blobs[row.key := Read(s, op.id)] == s.blobs;
      AddRow(env, s, r.state, row, Read(s, op.id));
      NothingDropped(Contents(s), s, r.state);
    } else {
      QuietStep(env, s, op, r);
    }
  }

  lemma EditStep(env: Env, s: State, op: Op, r: Reply)
    requires Stored(env, s) && EditedInPlace(s, r.state) && !r.outcome.Created?
    ensures Matches(env, s, op, r)
  {
    QuietStep(env, s, op, r);
  }

  lemma PurgingStep(env: Env, s: State, op: Op, r: Reply)
    requires Stored(env, s)
    requires match op
             case Purge(id, user) => r == PermanentDeleteFile(s, id, user)
             case AutoClean(cutoff) => r == AutoCleanRecycle(s, cutoff)
             case _ => false
    ensures Matches(env, s, op, r)
  {
    if op.AutoClean? {
      var ids := Swept(s.rows, op.cutoff);
      PurgeStep(env, s, op, r, ids, FilesIn(s.rows, ids));
    } else if r.outcome.Done? {
      var ids := Subtree(s.rows, op.id, true);
      PurgeStep(env, s, op, r, ids, ids);
    } else {
      QuietStep(env, s, op, r);
    }
  }

  lemma SessionStep(env: Env, s: State, op: Op, r: Reply)
    requires Stored(env, s) && (op.Init? || op.Chunk? || op.Cancel? || op.Calibrate?) && r == Apply(env, s, op)
    ensures Matches(env, s, op, r)
  {
    QuietStep(env, s, op, r);
  }

  /** One operation on the deduplicated store does to every file's bytes what the plain store does. */
  lemma StepRefines(env: Env, s: State, op: Op)
    requires CollisionFree(env.digest) && Stored(env, s) && Enabled(env, s, op)
    ensures Matches(env, s, op, Apply(env, s, op))
  {
    var r := Apply(env, s, op);
    match op
    case MkDir(_, _, _) => MkDirStep(env, s, op, r);
    case Upload(_, _, _, _, _, _, _, _) => UploadStep(env, s, op, r);
    case Copy(_, _, _) => CopyStep(env, s, op, r);
    case Complete(_, _, _, _) => CompleteStep(env, s, op, r);
    case Purge(_, _) => PurgingStep(env, s, op, r);
    case AutoClean(_) => PurgingStep(env, s, op, r);
    case _ =>
      if Edits(op) {
        EditShape(env, s, op);
        EditStep(env, s, op, r);
      } else {
        SessionStep(env, s, op, r);
      }
  }

  // -------------------------------------------------------------- runs

  /** After any run every surviving file row reads back the bytes the plain store keeps for it. */
  lemma {:induction false} DeduplicationIsInvisible(env: Env, s: State, ops: seq<Op>)
    requires CollisionFree(env.digest) && Stored(env, s) && EnabledRun(env, s, ops)
    ensures Stored(env, Run(env, s, ops))
    ensures Contents(Run(env, s, ops)) == PlainRun(env, s, ops)
  {
    if ops != [] {
      DeduplicationIsInvisible(env, s, ops[..|ops| - 1]);
      StepRefines(env, Run(env, s, ops[..|ops| - 1]), ops[|ops| - 1]);
    }
  }

  // -------------------------------------------------------------- what a purge leaves behind

  /** All rows that hold the key, two or more, are among ids. */
  ghost predicate SharedWithin(t: Table, ids: set<Id>, k: string) {
    Holders(t, k) <= ids && |Holders(t, k)| >= 2
  }

  /** Removing ids strands a blob, unused but not freed, exactly when ids takes all of its several holders. */
  lemma StrandedByPurge(t: Table, blobs: map<string, Bytes>, ids: set<Id>, purged: set<Id>, k: string)
    requires purged <= ids && forall x :: x in ids && x in t && t[x].key == k ==> x in purged
    requires k in blobs && k != "" && Holders(t, k) != {}
    ensures (k in blobs - FreedKeys(t, purged) && Holders(Remove(t, ids), k) == {}) <==> SharedWithin(t, ids, k)
  {
    var before := Holders(t, k);
    assert Holders(Remove(t, ids), k) == before - ids;
    EmptyDifference(before, ids);
    HasElement(before);
    var x :| x in before;
    if before <= ids {
      assert x in purged && t[x].key == k;
      if |before| >= 2 {
        assert k !in FreedKeys(t, purged);
      } else {
        assert k in FreedKeys(t, purged);
      }
    }
  }

  /** A purge strands a blob exactly when it removes two or more rows sharing it and no other row does. */
  lemma StrandedIff(env: Env, s: State, id: Id, user: UserId, k: string)
    requires Stored(env, s) && PermanentDeleteFile(s, id, user).outcome.Done?
    requires k in s.blobs && k != "" && Holders(s.rows, k) != {}
    ensures var s' := PermanentDeleteFile(s, id, user).state;
            (k in s'.blobs && Holders(s'.rows, k) == {}) <==>
            Holders(s.rows, k) <= Subtree(s.rows, id, true) && |Holders(s.rows, k)| >= 2
  {
    var ids := Subtree(s.rows, id, true);
    StrandedByPurge(s.rows, s.blobs, ids, ids, k);
  }

  /** So does an automatic cleaning. */
  lemma SweepStrandedIff(env: Env, s: State, cutoff: int, k: string)
    requires Stored(env, s) && k in s.blobs && k != "" && Holders(s.rows, k) != {}
    ensures var s' := AutoCleanRecycle(s, cutoff).state;
            (k in s'.blobs && Holders(s'.rows, k) == {}) <==>
            Holders(s.rows, k) <= Swept(s.rows, cutoff) && |Holders(s.rows, k)| >= 2
  {
    var ids := Swept(s.rows, cutoff);
    forall x | x in ids && x in s.rows && s.rows[x].key == k ensures x in FilesIn(s.rows, ids) {
      assert RowStored(env, s, x);
    }
    StrandedByPurge(s.rows, s.blobs, ids, FilesIn(s.rows, ids), k);
  }
}
