/**
  The file service as the program runs it: fields changed step by step, loops written out.
  Each method is proved to do what the function of the same name in FileOps says.
 */
module Service {
  import opened Base
  import opened FileTable
  import opened TableEdits
  import opened FileQueries
  import opened Sizes
  import opened Names
  import opened Decimal
  import opened FileOps
  import opened Runs

  // -------------------------------------------------------------- lists of rows

  lemma PrefixIds(xs: seq<Id>, i: nat)
    requires i < |xs|
    ensures IdSet(xs[..i + 1]) == IdSet(xs[..i]) + {xs[i]}
  {
  }

  lemma PrefixSum(t: Table, xs: seq<Id>, i: nat)
    requires i < |xs| && NoDuplicates(xs) && IdSet(xs) <= t.Keys
    ensures IdSet(xs[..i]) <= t.Keys && IdSet(xs[..i + 1]) <= t.Keys
    ensures SizeSum(t, IdSet(xs[..i + 1])) == SizeSum(t, IdSet(xs[..i])) + Weight(t, xs[i])
  {
    PrefixIds(xs, i);
    assert xs[i] in IdSet(xs);
    forall x | x in xs[..i + 1] ensures x in t {
      assert x in IdSet(xs);
    }
    SizeSumWithout(t, IdSet(xs[..i + 1]), xs[i]);
    assert xs[i] !in xs[..i];
    assert IdSet(xs[..i + 1]) - {xs[i]} == IdSet(xs[..i]);
  }

  // -------------------------------------------------------------- reading queries

  /** SELECT COUNT(1) FROM files WHERE storage_key = key */
  method CountByStorageKey(t: Table, key: string) returns (count: nat)
    ensures count == if key == "" then 0 else |Holders(t, key)|
  {
    if key == "" {
      return 0;
    }
    var found := [];
    var ids := Scan(t);
    for i := 0 to |ids|
      invariant NoDuplicates(found)
      invariant forall x :: x in found <==> x in t && x in ids[..i] && t[x].key == key
    {
      var x := ids[i];
      assert x in ids && x !in ids[..i] && ids[..i + 1] == ids[..i] + [x];
      if t[x].key == key {
        found := found + [x];
      }
    }
    assert ids[..|ids|] == ids;
    forall x ensures x in found <==> x in Holders(t, key) {
      assert x in t ==> x in ids;
    }
    SizeOfListing(found, Holders(t, key));
    return |found|;
  }

  /** SUM(size) over a user's active files */
  method SumActiveStorage(t: Table, user: UserId) returns (total: nat)
    ensures total == ActiveSum(t, user)
  {
    total := 0;
    var ids := Scan(t);
    ghost var seen := {};
    for i := 0 to |ids|
      invariant seen == set x | x in ids[..i] && x in t && t[x].owner == user && t[x].Active()
      invariant total == SizeSum(t, seen)
    {
      var x := ids[i];
      assert x in ids && x !in ids[..i] && ids[..i + 1] == ids[..i] + [x];
      if t[x].owner == user && t[x].Active() {
        ghost var before := seen;
        seen := seen + {x};
        SizeSumWithout(t, seen, x);
        assert seen - {x} == before;
        if !t[x].isDir {
          total := total + t[x].size;
        }
      }
    }
    assert ids[..|ids|] == ids;
    forall x ensures x in seen <==> x in ActiveOf(t, user) {
      assert x in t ==> x in ids;
    }
    assert seen == ActiveOf(t, user);
  }

  method FileByHash(t: Table, hash: string) returns (r: Option<Id>)
    ensures HashLookup(t, hash, r)
  {
    var ids := Scan(t);
    for i := 0 to |ids|
      invariant forall x :: x in ids[..i] && x in t ==> !(t[x].hash == hash && !t[x].isDir && t[x].Active())
    {
      var x := ids[i];
      assert x in ids && ids[..i + 1] == ids[..i] + [x];
      if t[x].hash == hash && !t[x].isDir && t[x].Active() {
        return Some(x);
      }
    }
    assert ids[..|ids|] == ids;
    return None;
  }

  method FileByName(t: Table, parent: Option<Id>, user: UserId, name: string) returns (r: Option<Id>)
    ensures NameLookup(t, parent, user, name, r)
  {
    var ids := Scan(t);
    for i := 0 to |ids|
      invariant forall x :: x in ids[..i] && x in t ==> !Named(t, parent, user, name, x)
    {
      var x := ids[i];
      assert x in ids && ids[..i + 1] == ids[..i] + [x];
      if Named(t, parent, user, name, x) {
        return Some(x);
      }
    }
    assert ids[..|ids|] == ids;
    return None;
  }

  /** The numbered candidates 1 to 999, tried in order. */
  method FreeCandidate(t: Table, parent: Option<Id>, user: UserId, base: string, ext: string)
    returns (r: Result<string, Error>)
    ensures r == FirstFree(t, parent, user, base, ext, 1)
  {
    for i := 1 to MAX_RENAMES
      invariant FirstFree(t, parent, user, base, ext, 1) == FirstFree(t, parent, user, base, ext, i)
    {
      var candidate := Candidate(base, ext, i);
      if !ValidName(candidate) {
        return Err(InvalidName);
      }
      if !NameTaken(t, parent, user, candidate) {
        return Ok(candidate);
      }
    }
    return Err(NameConflict);
  }

  method ResolveNameConflict(env: Env, t: Table, parent: Option<Id>, user: UserId, name: string, ext: string)
    returns (r: Result<(string, Option<Id>), Error>, victim: Option<Id>)
    ensures NameLookup(t, parent, user, name, victim)
    ensures r == Resolve(env, t, parent, user, name, ext, victim)
  {
    victim := FileByName(t, parent, user, name);
    if !NameTaken(t, parent, user, name) {
      return Ok((name, None)), victim;
    }
    if env.overwrite {
      return Ok((name, victim)), victim;
    }
    var candidate := FreeCandidate(t, parent, user, TrimSuffix(name, ext), ext);
    match candidate
    case Ok(n) => return Ok((n, None)), victim;
    case Err(e) => return Err(e), victim;
  }

  /**
    The rows an operation collects from a row and its descendants, and their bytes.
    The same loop over the children stands in the delete, restore, purge and batch-delete code.
   */
  method CollectSubtree(t: Table, id: Id, deleted: bool) returns (ids: Option<seq<Id>>, bytes: nat)
    requires id in t
    ensures ids.None? <==> SubtreeAborts(t, id)
    ensures ids.Some? ==>
      && NoDuplicates(ids.value) && IdSet(ids.value) == Subtree(t, id, deleted) && IdSet(ids.value) <= t.Keys
      && bytes == SizeSum(t, Subtree(t, id, deleted))
  {
    var all := [id];
    SizeSumOne(t, id);
    assert IdSet(all) == {id};
    if !t[id].isDir {
      return Some(all), t[id].size;
    }
    bytes := 0;
    var descendants := DescendantIDs(t, id, deleted);
    if descendants.None? {
      return None, 0;
    }
    var children := descendants.value;
    forall x ensures x in IdSet(children) <==> x in DescendantsWhere(t, id, deleted) {}
    for i := 0 to |children|
      invariant all == [id] + children[..i]
      invariant IdSet(children[..i]) <= t.Keys && bytes == SizeSum(t, IdSet(children[..i]))
    {
      PrefixSum(t, children, i);
      assert children[i] in IdSet(children);
      if !t[children[i]].isDir {
        bytes := bytes + t[children[i]].size;
      }
      all := all + [children[i]];
    }
    assert children[..|children|] == children;
    assert id !in children;
    forall x ensures x in IdSet(all) <==> x in Subtree(t, id, deleted) {}
    assert IdSet(all) == Subtree(t, id, deleted);
    SizeSumWithout(t, IdSet(all), id);
    assert IdSet(all) - {id} == IdSet(children);
    JoinDisjoint([id], children);
    return Some(all), bytes;
  }

  /** Every distinct key among ids has been looked at. */
  ghost predicate CheckedKeys(t: Table, ids: seq<Id>, checked: set<string>) {
    && (forall x :: x in ids ==> x in t)
    && (forall x :: x in ids && t[x].key != "" ==> t[x].key in checked)
    && (forall k :: k in checked ==> exists x :: x in ids && t[x].key == k)
  }

  lemma CheckedNext(t: Table, ids: seq<Id>, checked: set<string>, x: Id)
    requires CheckedKeys(t, ids, checked) && x in t
    ensures t[x].key == "" || t[x].key in checked ==> CheckedKeys(t, ids + [x], checked)
    ensures CheckedKeys(t, ids + [x], checked + {t[x].key})
    ensures t[x].key in checked ==> FreedKeys(t, IdSet(ids) + {x}) == FreedKeys(t, IdSet(ids))
  {
  }

  /** The storage keys a purge may free: each distinct key of the batch is counted once. */
  method FreeableKeys(t: Table, ids: seq<Id>) returns (keys: seq<string>)
    requires forall x :: x in ids ==> x in t
    ensures KeySet(keys) == FreedKeys(t, IdSet(ids))
  {
    keys := [];
    var checked: set<string> := {};
    assert FreedKeys(t, IdSet(ids[..0])) == {};
    for i := 0 to |ids|
      invariant CheckedKeys(t, ids[..i], checked)
      invariant KeySet(keys) == FreedKeys(t, IdSet(ids[..i]))
    {
      var x := ids[i];
      assert x in ids;
      PrefixIds(ids, i);
      assert ids[..i + 1] == ids[..i] + [x];
      CheckedNext(t, ids[..i], checked, x);
      FreedKeysStep(t, IdSet(ids[..i]), x);
      var key := t[x].key;
      if key != "" && key !in checked {
        checked := checked + {key};
        var count := CountByStorageKey(t, key);
        if count <= 1 {
          assert KeySet(keys + [key]) == KeySet(keys) + {key};
          keys := keys + [key];
        }
      }
    }
    assert ids[..|ids|] == ids;
  }

  // -------------------------------------------------------------- the service

  class FileService {
    const env: Env
    var rows: Table
    var nextId: Id
    var used: map<UserId, nat>
    var blobs: map<string, Bytes>
    var sessions: map<string, Session>
    /** The accounts in primary key order. */
    var users: seq<UserId>

    ghost function View(): State
      reads this
    {
      State(rows, nextId, used, blobs, sessions)
    }

    ghost predicate Valid()
      reads this`users, this`used
    {
      && (forall i, j :: 0 <= i < j < |users| ==> users[i] < users[j])
      && (forall u :: u in users <==> u in used)
    }

    /** A fresh system with the given accounts. */
    constructor (env: Env, accounts: seq<UserId>)
      requires forall i, j :: 0 <= i < j < |accounts| ==> accounts[i] < accounts[j]
      ensures Valid() && View() == Initial(IdSet(accounts)) && this.env == env && users == accounts
    {
      this.env := env;
      rows, nextId, blobs, sessions, users := map[], 1, map[], map[], accounts;
      used := map u | u in accounts :: 0;
    }

    method UpdateUserStorageUsed(user: UserId, delta: int)
      modifies this`used
      ensures used == Charge(old(used), user, delta) && used.Keys == old(used).Keys
    {
      if user in used {
        used := used[user := if used[user] + delta < 0 then 0 else used[user] + delta];
      }
    }

    method ValidateParentDir(parent: Id, user: UserId) returns (e: Option<Error>)
      ensures e == CheckParent(rows, Some(parent), user)
    {
      if parent !in rows {
        return Some(ParentMissing);
      }
      var dir := rows[parent];
      if !dir.isDir {
        return Some(NotADirectory);
      }
      if dir.owner != user {
        return Some(NotFound);
      }
      if dir.Deleted() {
        return Some(ParentDeleted);
      }
      return None;
    }

    method CheckTarget(target: Option<Id>, user: UserId) returns (e: Option<Error>)
      ensures e == CheckParent(rows, target, user)
    {
      if target.Some? {
        e := ValidateParentDir(target.value, user);
      } else {
        e := None;
      }
    }

    method CreateFile(row: Row) returns (o: Outcome)
      modifies this`rows, this`nextId
      ensures Reply(View(), o) == Insert(old(View()), row)
    {
      if !ValidName(row.name) {
        return Failed(InvalidName);
      }
      if row.owner !in used {
        return Failed(NoSuchUser);
      }
      if row.parent.Some? && row.parent.value !in rows {
        return Failed(ParentMissing);
      }
      var id := nextId;
      rows := rows[id := row];
      nextId := id + 1;
      return Created(id);
    }

    method CreateDir(name: string, parent: Option<Id>, user: UserId) returns (o: Outcome)
      requires Valid()
      modifies this`rows, this`nextId
      ensures Valid()
      ensures Reply(View(), o) == FileOps.CreateDir(old(View()), name, parent, user)
    {
      if !ValidName(name) {
        return Failed(InvalidName);
      }
      var e := CheckTarget(parent, user);
      if e.Some? {
        return Failed(e.value);
      }
      if NameTaken(rows, parent, user, name) {
        return Failed(NameConflict);
      }
      o := CreateFile(Row(user, parent, name, true, 0, "", "", None));
    }

    // ------------------------------------------------------------ uploads

    /** Replace, insert, charge and store, rolled back as a whole when the insertion fails. */
    method StoreFile(row: Row, bytes: Bytes, dup: Option<Id>, victim: Option<Id>, now: int) returns (o: Outcome)
      modifies this`rows, this`nextId, this`used, this`blobs
      ensures Reply(View(), o) == AddFile(old(View()), row, bytes, dup, victim, now)
      ensures used.Keys == old(used).Keys
    {
      var before, usedBefore := rows, used;
      if victim.Some? && victim.value in rows {
        var v := rows[victim.value];
        rows := SoftDelete(rows, {victim.value}, now);
        if !v.isDir && v.size > 0 {
          UpdateUserStorageUsed(row.owner, 0 - v.size);
        } else {
          NoCharge(used, row.owner);
        }
      }
      assert View() == Replace(old(View()), row.owner, victim, now);
      o := CreateFile(row);
      if o.Failed? {
        rows, used := before, usedBefore;
        return;
      }
      UpdateUserStorageUsed(row.owner, row.size);
      if dup.None? {
        blobs := blobs[row.key := bytes];
      }
    }

    method ValidateExtension(ext: string) returns (ok: bool)
      ensures ok == ExtensionOk(env, ext)
    {
      if |env.allowed| > 0 {
        for i := 0 to |env.allowed|
          invariant forall a :: a in env.allowed[..i] ==> ToLower(a) != ext
        {
          if ext == ToLower(env.allowed[i]) {
            return true;
          }
        }
        assert env.allowed[..|env.allowed|] == env.allowed;
        return false;
      }
      for i := 0 to |env.blocked|
        invariant forall b :: b in env.blocked[..i] ==> ToLower(b) != ext
      {
        if ext == ToLower(env.blocked[i]) {
          return false;
        }
      }
      assert env.blocked[..|env.blocked|] == env.blocked;
      return true;
    }

    method ValidateUpload(name: string, size: nat, parent: Option<Id>, user: UserId) returns (e: Option<Error>)
      ensures e == UploadCheck(env, rows, name, size, parent, user)
    {
      if !ValidName(name) {
        return Some(InvalidName);
      }
      var ok := ValidateExtension(ToLower(Ext(name)));
      if !ok {
        return Some(ExtensionBlocked);
      }
      e := CheckTarget(parent, user);
      if e.None? && size > env.maxFileSize {
        e := Some(FileTooLarge);
      }
    }

    /** Some answers of the two lookups, and the reply the specification gives for them. */
    ghost predicate IsUploadReply(s: State, r: Reply, name: string, bytes: Bytes, parent: Option<Id>, user: UserId, key: string, now: int) {
      exists dup, victim ::
        && HashLookup(s.rows, env.digest(bytes), dup) && NameLookup(s.rows, parent, user, name, victim)
        && r == FileOps.UploadFile(env, s, name, bytes, parent, user, key, dup, victim, now)
    }

    method UploadFile(name: string, bytes: Bytes, parent: Option<Id>, user: UserId, key: string, now: int) returns (o: Outcome)
      requires Valid()
      modifies this`rows, this`nextId, this`used, this`blobs
      ensures Valid()
      ensures IsUploadReply(old(View()), Reply(View(), o), name, bytes, parent, user, key, now)
    {
      var e := ValidateUpload(name, |bytes|, parent, user);
      if e.Some? {
        LookupsAnswer(rows, env.digest(bytes), parent, user, name);
        return Failed(e.value);
      }
      var hash := env.digest(bytes);
      var dup := FileByHash(rows, hash);
      var resolved, victim := ResolveNameConflict(env, rows, parent, user, name, ToLower(Ext(name)));
      if resolved.Err? {
        o := Failed(resolved.error);
      } else {
        var storageKey := if dup.Some? then rows[dup.value].key else key;
        var row := Row(user, parent, resolved.value.0, false, |bytes|, hash, storageKey, None);
        o := StoreFile(row, bytes, dup, resolved.value.1, now);
      }
      assert Reply(View(), o) == FileOps.UploadFile(env, old(View()), name, bytes, parent, user, key, dup, victim, now);
    }

    /** With a fresh key, an upload is an operation of the runs that Reachable speaks of. */
    lemma UploadIsOperation(s: State, r: Reply, name: string, bytes: Bytes, parent: Option<Id>, user: UserId, key: string, now: int)
      returns (op: Op)
      requires IsUploadReply(s, r, name, bytes, parent, user, key, now) && key != "" && key !in s.blobs
      ensures op.Upload? && Enabled(env, s, op) && r == Apply(env, s, op)
    {
      var dup, victim :|
        && HashLookup(s.rows, env.digest(bytes), dup) && NameLookup(s.rows, parent, user, name, victim)
        && r == FileOps.UploadFile(env, s, name, bytes, parent, user, key, dup, victim, now);
      op := Upload(name, bytes, parent, user, key, dup, victim, now);
    }

    method CopyFile(id: Id, target: Option<Id>, user: UserId) returns (o: Outcome)
      requires Valid()
      modifies this`rows, this`nextId, this`used
      ensures Valid()
      ensures Reply(View(), o) == FileOps.CopyFile(old(View()), id, target, user)
    {
      if id !in rows || rows[id].owner != user || rows[id].isDir || rows[id].Deleted() {
        return Failed(NotFound);
      }
      var src := rows[id];
      var e := CheckTarget(target, user);
      if e.Some? {
        return Failed(e.value);
      }
      var name := src.name;
      if NameTaken(rows, target, user, name) {
        var ext := Ext(name);
        var free := FreeCandidate(rows, target, user, TrimSuffix(name, ext), ext);
        if free.Err? {
          return Failed(free.error);
        }
        name := free.value;
      }
      o := CreateFile(src.(parent := target, name := name));
      if o.Created? {
        UpdateUserStorageUsed(user, src.size);
      }
    }

    // ------------------------------------------------------------ chunked uploads

    method InitUpload(user: UserId, parent: Option<Id>, name: string, total: int, uploadId: string) returns (o: Outcome)
      requires Valid()
      modifies this`sessions
      ensures Valid()
      ensures Reply(View(), o) == FileOps.InitUpload(env, old(View()), user, parent, name, total, uploadId)
    {
      if name == "" {
        return Failed(InvalidName);
      }
      if total <= 0 {
        return Failed(InvalidSize);
      }
      if total > env.maxFileSize {
        return Failed(FileTooLarge);
      }
      var e := CheckTarget(parent, user);
      if e.Some? {
        return Failed(e.value);
      }
      var ok := ValidateExtension(ToLower(Ext(name)));
      if !ok {
        return Failed(ExtensionBlocked);
      }
      var chunkSize := env.chunkSize;
      if chunkSize <= 0 {
        chunkSize := DEFAULT_CHUNK_SIZE;
      }
      var count := (total + chunkSize - 1) / chunkSize;
      sessions := sessions[uploadId := Session(user, parent, name, total, chunkSize, count, map[])];
      return Done;
    }

    method UploadChunk(uploadId: string, index: int, data: Bytes, user: UserId) returns (o: Outcome)
      requires Valid()
      modifies this`sessions
      ensures Valid()
      ensures Reply(View(), o) == FileOps.UploadChunk(old(View()), uploadId, index, data, user)
    {
      if uploadId !in sessions || sessions[uploadId].user != user {
        return Failed(NoSuchSession);
      }
      var ss := sessions[uploadId];
      if index < 0 || index >= ss.chunkCount {
        return Failed(IndexOutOfRange);
      }
      var cut := if |data| <= ss.chunkSize then data else data[..ss.chunkSize];
      sessions := sessions[uploadId := ss.(chunks := ss.chunks[index := cut])];
      return Done;
    }

    /** The indices the server already holds, in increasing order. */
    method UploadStatus(uploadId: string, user: UserId) returns (completed: Option<seq<int>>)
      ensures completed.Some? <==> uploadId in sessions && sessions[uploadId].user == user
      ensures completed.Some? ==>
        forall i :: i in completed.value <==> 0 <= i < sessions[uploadId].chunkCount && i in sessions[uploadId].chunks
      ensures completed.Some? ==> forall i, j :: 0 <= i < j < |completed.value| ==> completed.value[i] < completed.value[j]
    {
      if uploadId !in sessions || sessions[uploadId].user != user {
        return None;
      }
      var ss := sessions[uploadId];
      var done := [];
      for i := 0 to ss.chunkCount
        invariant forall j :: j in done <==> 0 <= j < i && j in ss.chunks
        invariant forall j :: 0 <= j < |done| ==> done[j] < i
        invariant forall j, k :: 0 <= j < k < |done| ==> done[j] < done[k]
      {
        if i in ss.chunks {
          done := done + [i];
        }
      }
      return Some(done);
    }

    /** Checks that every chunk is there, then joins them in index order. */
    method MergeChunks(ss: Session) returns (bytes: Option<Bytes>)
      ensures bytes == if AllChunksPresent(ss) then Some(Merge(ss.chunks, ss.chunkCount)) else None
    {
      for i := 0 to ss.chunkCount
        invariant forall j :: 0 <= j < i ==> j in ss.chunks
      {
        if i !in ss.chunks {
          return None;
        }
      }
      var joined := [];
      for i := 0 to ss.chunkCount
        invariant joined == Merge(ss.chunks, i)
      {
        joined := joined + ss.chunks[i];
      }
      return Some(joined);
    }

    ghost predicate IsCompleteReply(s: State, r: Reply, uploadId: string, user: UserId, key: string) {
      exists dup ::
        && (uploadId in s.sessions ==>
              HashLookup(s.rows, env.digest(Merge(s.sessions[uploadId].chunks, s.sessions[uploadId].chunkCount)), dup))
        && r == FileOps.CompleteUpload(env, s, uploadId, user, key, dup)
    }

    lemma CompletionIsOperation(s: State, r: Reply, uploadId: string, user: UserId, key: string)
      returns (op: Op)
      requires IsCompleteReply(s, r, uploadId, user, key) && key != "" && key !in s.blobs
      ensures op.Complete? && Enabled(env, s, op) && r == Apply(env, s, op)
    {
      if uploadId in s.sessions {
        var dup :|
          && HashLookup(s.rows, env.digest(Merge(s.sessions[uploadId].chunks, s.sessions[uploadId].chunkCount)), dup)
          && r == FileOps.CompleteUpload(env, s, uploadId, user, key, dup);
        op := Complete(uploadId, user, key, dup);
      } else {
        LookupsAnswer(s.rows, env.digest([]), None, user, "");
        var dup :| HashLookup(s.rows, env.digest([]), dup);
        op := Complete(uploadId, user, key, dup);
      }
    }

    method CompleteUpload(uploadId: string, user: UserId, key: string) returns (o: Outcome)
      requires Valid()
      modifies this`rows, this`nextId, this`used, this`blobs, this`sessions
      ensures Valid()
      ensures IsCompleteReply(old(View()), Reply(View(), o), uploadId, user, key)
    {
      if uploadId !in sessions {
        o := Failed(NoSuchSession);
        assert Reply(View(), o) == FileOps.CompleteUpload(env, old(View()), uploadId, user, key, None);
        return;
      }
      var ss := sessions[uploadId];
      var merged := MergeChunks(ss);
      if ss.user != user || merged.None? {
        LookupsAnswer(rows, env.digest(Merge(ss.chunks, ss.chunkCount)), None, user, "");
        return Failed(if ss.user != user then NoSuchSession else ChunkMissing);
      }
      var bytes := merged.value;
      var hash := env.digest(bytes);
      var dup := FileByHash(rows, hash);
      if dup.Some? {
        o := FinishDuplicate(uploadId, ss, bytes, hash, dup.value, key);
      } else {
        var row := Row(ss.user, ss.parent, ss.name, false, ss.totalSize, hash, key, None);
        SessionsRideAlong(View(), sessions - {uploadId}, row, bytes, None, None, 0);
        o := StoreFile(row, bytes, None, None, 0);
        if o.Created? {
          sessions := sessions - {uploadId};
        }
      }
      assert Reply(View(), o) == FileOps.CompleteUpload(env, old(View()), uploadId, user, key, dup);
    }

    /** The branch of CompleteUpload taken when an active file already has the merged content. */
    method FinishDuplicate(uploadId: string, ss: Session, bytes: Bytes, hash: string, dup: Id, ghost key: string)
      returns (o: Outcome)
      requires uploadId in sessions && sessions[uploadId] == ss && dup in rows && AllChunksPresent(ss)
      requires bytes == Merge(ss.chunks, ss.chunkCount) && hash == env.digest(bytes)
      modifies this`rows, this`nextId, this`used, this`blobs, this`sessions
      ensures Reply(View(), o) == FileOps.CompleteUpload(env, old(View()), uploadId, ss.user, key, Some(dup))
      ensures used.Keys == old(used).Keys
    {
      sessions := sessions - {uploadId};
      var resolved, victim := ResolveNameConflict(env, rows, ss.parent, ss.user, ss.name, ToLower(Ext(ss.name)));
      if resolved.Err? {
        return Failed(resolved.error);
      }
      var row := Row(ss.user, ss.parent, resolved.value.0, false, ss.totalSize, hash, rows[dup].key, None);
      o := StoreFile(row, bytes, Some(dup), None, 0);
    }

    // ------------------------------------------------------------ renaming and moving

    method RenameFile(id: Id, name: string, user: UserId) returns (o: Outcome)
      requires Valid()
      modifies this`rows
      ensures Valid()
      ensures Reply(View(), o) == FileOps.RenameFile(old(View()), id, name, user)
    {
      if !ValidName(name) {
        return Failed(InvalidName);
      }
      if id !in rows || rows[id].owner != user {
        return Failed(NotFound);
      }
      var f := rows[id];
      if f.name == name {
        return Done;
      }
      if NameTaken(rows, f.parent, user, name) {
        return Failed(NameConflict);
      }
      rows := rows[id := f.(name := name)];
      return Done;
    }

    /** None when the descendant query is aborted. */
    method IsDescendantOf(ancestor: Id, descendant: Id) returns (r: Option<bool>)
      ensures ancestor == descendant ==> r == Some(true)
      ensures ancestor != descendant ==>
        r == if Below(rows, ancestor, ancestor) then None
             else Some(descendant in DescendantsWhere(rows, ancestor, false))
    {
      if ancestor == descendant {
        return Some(true);
      }
      var ids := DescendantIDs(rows, ancestor, false);
      if ids.None? {
        return None;
      }
      for i := 0 to |ids.value|
        invariant descendant !in ids.value[..i]
      {
        if ids.value[i] == descendant {
          return Some(true);
        }
      }
      assert ids.value[..|ids.value|] == ids.value;
      return Some(false);
    }

    method GuardCycle(id: Id, target: Option<Id>) returns (e: Option<Error>)
      requires id in rows && target != Some(id)
      ensures e == CycleGuard(rows, id, target)
    {
      if rows[id].isDir && target.Some? {
        var under := IsDescendantOf(target.value, id);
        if under.None? {
          return Some(QueryAborted);
        }
        if under.value {
          return Some(CycleDetected);
        }
      }
      return None;
    }

    method MoveFile(id: Id, target: Option<Id>, user: UserId) returns (o: Outcome)
      requires Valid()
      modifies this`rows
      ensures Valid()
      ensures Reply(View(), o) == FileOps.MoveFile(old(View()), id, target, user)
    {
      if target == Some(id) {
        return Failed(MoveIntoSelf);
      }
      var e := CheckTarget(target, user);
      if e.Some? {
        return Failed(e.value);
      }
      if id !in rows || rows[id].owner != user || rows[id].Deleted() {
        return Failed(NotFound);
      }
      var guard := GuardCycle(id, target);
      if guard.Some? {
        return Failed(guard.value);
      }
      if NameTaken(rows, target, user, rows[id].name) {
        return Failed(NameConflict);
      }
      rows := rows[id := rows[id].(parent := target)];
      assert rows == Reparent(old(rows), {id}, target);
      return Done;
    }

    method BatchMove(ids: seq<Id>, target: Option<Id>, user: UserId) returns (o: Outcome)
      requires Valid()
      modifies this`rows
      ensures Valid()
      ensures Reply(View(), o) == FileOps.BatchMove(old(View()), ids, target, user)
    {
      if ids == [] {
        return Failed(NothingSelected);
      }
      var e := CheckTarget(target, user);
      if e.Some? {
        return Failed(e.value);
      }
      var err := CheckMoves(ids, target, user);
      if err.Some? {
        return Failed(err.value);
      }
      AllMovable(rows, ids, target, user);
      UpdateParents(ids, target);
      return Done;
    }

    /** The first loop of a batch move: every row is checked before any is changed. */
    method CheckMoves(ids: seq<Id>, target: Option<Id>, user: UserId) returns (e: Option<Error>)
      ensures e == FirstMoveError(rows, ids, target, user)
    {
      for i := 0 to |ids|
        invariant FirstMoveError(rows, ids[..i], target, user).None?
      {
        var id := ids[i];
        assert ids[..i + 1][..i] == ids[..i] && ids[..i + 1][i] == id;
        var err := CheckMove(id, target, user);
        if err.Some? {
          assert FirstMoveError(rows, ids[..i + 1], target, user) == err;
          MoveErrorStands(rows, ids, i + 1, target, user);
          return err;
        }
      }
      assert ids[..|ids|] == ids;
      return None;
    }

    /** The second loop of a batch move. */
    method UpdateParents(ids: seq<Id>, target: Option<Id>)
      requires forall x :: x in ids ==> x in rows
      modifies this`rows
      ensures rows == Reparent(old(rows), IdSet(ids), target)
    {
      ghost var t := rows;
      assert IdSet(ids[..0]) == {};
      for i := 0 to |ids|
        invariant rows == Reparent(t, IdSet(ids[..i]), target)
      {
        PrefixIds(ids, i);
        var id := ids[i];
        assert id in ids;
        rows := rows[id := rows[id].(parent := target)];
      }
      assert ids[..|ids|] == ids;
    }

    method CheckMove(id: Id, target: Option<Id>, user: UserId) returns (e: Option<Error>)
      ensures e == MoveCheck(rows, id, target, user)
    {
      if id !in rows || rows[id].owner != user || rows[id].Deleted() {
        return Some(NotFound);
      }
      if target == Some(id) {
        return Some(MoveIntoSelf);
      }
      e := GuardCycle(id, target);
      if e.None? && NameTaken(rows, target, user, rows[id].name) {
        e := Some(NameConflict);
      }
    }

    // ------------------------------------------------------------ deleting and restoring

    method BatchSoftDelete(ids: seq<Id>, now: int)
      modifies this`rows
      ensures rows == SoftDelete(old(rows), IdSet(ids), now)
    {
      rows := map x | x in rows :: if x in ids then rows[x].(deletedAt := Some(now)) else rows[x];
    }

    method DeleteFile(id: Id, user: UserId, now: int) returns (o: Outcome)
      requires Valid()
      modifies this`rows, this`used
      ensures Valid()
      ensures Reply(View(), o) == FileOps.DeleteFile(old(View()), id, user, now)
    {
      if id !in rows || rows[id].owner != user {
        return Failed(NotFound);
      }
      var deleteIDs, bytes := CollectSubtree(rows, id, false);
      if deleteIDs.None? {
        return Failed(QueryAborted);
      }
      BatchSoftDelete(deleteIDs.value, now);
      NoCharge(used, user);
      var sizeDelta: int := 0;
      sizeDelta := sizeDelta - bytes;
      if sizeDelta != 0 {
        UpdateUserStorageUsed(user, sizeDelta);
      }
      return Done;
    }

    method BatchDelete(ids: seq<Id>, user: UserId, now: int) returns (o: Outcome)
      requires Valid()
      modifies this`rows, this`used
      ensures Valid()
      ensures Reply(View(), o) == FileOps.BatchDelete(old(View()), ids, user, now)
    {
      if ids == [] {
        return Failed(NothingSelected);
      }
      var allIDs: seq<Id> := [];
      var bytes: nat := 0;
      for i := 0 to |ids|
        invariant rows == old(rows) && used == old(used)
        invariant FirstDeleteError(rows, ids[..i], user).None?
        invariant IdSet(allIDs) == ActiveSubtrees(rows, ids[..i])
        invariant bytes == CountedBytes(rows, ids[..i])
      {
        var id := ids[i];
        assert ids[..i + 1][..i] == ids[..i] && ids[..i + 1][i] == id;
        if id !in rows || rows[id].owner != user || rows[id].Deleted() {
          assert FirstDeleteError(rows, ids[..i + 1], user) == Some(NotFound);
          DeleteErrorStands(rows, ids, i + 1, user);
          return Failed(NotFound);
        }
        var subtree, n := CollectSubtree(rows, id, false);
        if subtree.None? {
          DeleteErrorStands(rows, ids, i + 1, user);
          return Failed(QueryAborted);
        }
        assert IdSet(allIDs + subtree.value) == IdSet(allIDs) + IdSet(subtree.value);
        allIDs := allIDs + subtree.value;
        bytes := bytes + n;
      }
      assert ids[..|ids|] == ids;
      BatchSoftDelete(allIDs, now);
      NoCharge(used, user);
      var sizeDelta: int := 0;
      sizeDelta := sizeDelta - bytes;
      if sizeDelta != 0 {
        UpdateUserStorageUsed(user, sizeDelta);
      }
      return Done;
    }

    method RestoreFiles(ids: seq<Id>)
      modifies this`rows
      ensures rows == Undelete(old(rows), IdSet(ids))
    {
      rows := map x | x in rows :: if x in ids && rows[x].Deleted() then rows[x].(deletedAt := None) else rows[x];
    }

    method RestoreFile(id: Id, user: UserId) returns (o: Outcome)
      requires Valid()
      modifies this`rows, this`used
      ensures Valid()
      ensures Reply(View(), o) == FileOps.RestoreFile(old(View()), id, user)
    {
      if id !in rows || rows[id].owner != user || rows[id].Active() {
        return Failed(NotFound);
      }
      var f := rows[id];
      var needsParentFix := false;
      if f.parent.Some? {
        var p := f.parent.value;
        if p !in rows || rows[p].owner != user || rows[p].Deleted() {
          if f.isDir {
            needsParentFix := true;
          } else {
            return Failed(ParentMissing);
          }
        }
      }
      var restoreIDs, bytes := CollectSubtree(rows, id, true);
      if restoreIDs.None? {
        return Failed(QueryAborted);
      }
      RestoreFiles(restoreIDs.value);
      if needsParentFix {
        ghost var undeleted := rows;
        rows := rows[id := rows[id].(parent := None)];
        assert rows == Reparent(undeleted, {id}, None);
      }
      NoCharge(used, user);
      if bytes != 0 {
        UpdateUserStorageUsed(user, bytes);
      }
      return Done;
    }

    // ------------------------------------------------------------ purging

    method HardDeleteFiles(ids: seq<Id>)
      modifies this`rows
      ensures rows == Remove(old(rows), IdSet(ids))
    {
      var gone := set x | x in ids;
      rows := rows - gone;
    }

    method DeleteBlobs(keys: seq<string>)
      modifies this`blobs
      ensures blobs == old(blobs) - KeySet(keys)
    {
      ghost var before := blobs;
      assert before - KeySet([]) == before;
      for i := 0 to |keys|
        invariant blobs == before - KeySet(keys[..i])
      {
        PrefixKeys(keys, i);
        blobs := blobs - {keys[i]};
      }
      assert keys[..|keys|] == keys;
    }

    method PermanentDeleteFile(id: Id, user: UserId) returns (o: Outcome)
      requires Valid()
      modifies this`rows, this`used, this`blobs
      ensures Valid()
      ensures Reply(View(), o) == FileOps.PermanentDeleteFile(old(View()), id, user)
    {
      if id !in rows || rows[id].owner != user || rows[id].Active() {
        return Failed(NotFound);
      }
      var deleteIDs, bytes := CollectSubtree(rows, id, true);
      if deleteIDs.None? {
        return Failed(QueryAborted);
      }
      forall x | x in deleteIDs.value ensures x in rows {
        assert x in IdSet(deleteIDs.value);
      }
      var physDel := FreeableKeys(rows, deleteIDs.value);
      HardDeleteFiles(deleteIDs.value);
      DeleteBlobs(physDel);
      NoCharge(used, user);
      var sizeDelta: int := 0;
      sizeDelta := sizeDelta - bytes;
      if sizeDelta != 0 {
        UpdateUserStorageUsed(user, sizeDelta);
      }
      return Done;
    }

    method ExpiredRecycleCandidates(cutoff: int) returns (ids: seq<Id>)
      ensures NoDuplicates(ids) && forall x :: x in ids <==> Expired(rows, cutoff, x)
    {
      ids := [];
      var all := Scan(rows);
      for i := 0 to |all|
        invariant NoDuplicates(ids)
        invariant forall x :: x in ids <==> x in all[..i] && Expired(rows, cutoff, x)
      {
        var x := all[i];
        assert x in all && x !in all[..i] && all[..i + 1] == all[..i] + [x];
        if rows[x].Deleted() && rows[x].deletedAt.value < cutoff {
          ids := ids + [x];
        }
      }
      assert all[..|all|] == all;
    }

    /** Expired rows and their deleted descendants, each listed once. */
    method CollectSwept(cutoff: int) returns (items: seq<Id>)
      ensures NoDuplicates(items) && IdSet(items) == Swept(rows, cutoff)
    {
      var candidates := ExpiredRecycleCandidates(cutoff);
      items := [];
      var processed: set<Id> := {};
      for i := 0 to |candidates|
        invariant NoDuplicates(items) && IdSet(items) == processed
        invariant forall x :: x in processed <==> x in rows && SweptBy(rows, candidates[..i], x)
      {
        var c := candidates[i];
        assert c in candidates && candidates[..i + 1] == candidates[..i] + [c];
        SweptNext(rows, candidates[..i], c);
        if c !in processed {
          assert c !in items by { assert c !in IdSet(items); }
          items := items + [c];
          processed := processed + {c};
          assert IdSet(items) == processed;
          if rows[c].isDir {
            var descendants := DescendantIDs(rows, c, true);
            if descendants.Some? {
              items, processed := AppendNew(items, processed, descendants.value);
            }
          }
        }
      }
      assert candidates[..|candidates|] == candidates;
      forall x ensures x in IdSet(items) <==> x in Swept(rows, cutoff) {
        SweptByAll(rows, cutoff, candidates, x);
      }
    }

    /** The inner loop: children not processed before are appended. */
    method AppendNew(items: seq<Id>, processed: set<Id>, children: seq<Id>) returns (items': seq<Id>, processed': set<Id>)
      requires NoDuplicates(items) && IdSet(items) == processed
      ensures NoDuplicates(items') && IdSet(items') == processed'
      ensures forall x :: x in processed' <==> x in processed || x in children
    {
      items', processed' := items, processed;
      for i := 0 to |children|
        invariant NoDuplicates(items') && IdSet(items') == processed'
        invariant forall x :: x in processed' <==> x in processed || x in children[..i]
      {
        var x := children[i];
        assert children[..i + 1] == children[..i] + [x];
        if x !in processed' {
          assert x !in items' by { assert x !in IdSet(items'); }
          items' := items' + [x];
          processed' := processed' + {x};
          assert IdSet(items') == processed';
        }
      }
      assert children[..|children|] == children;
    }

    /** What the second loop of the cleaning gathers: keys to free and bytes per user. */
    method GatherSwept(items: seq<Id>) returns (keys: seq<string>, deltas: map<UserId, int>)
      requires NoDuplicates(items) && IdSet(items) <= rows.Keys
      ensures Gathered(rows, IdSet(items), keys, deltas)
    {
      keys, deltas := [], map[];
      EmptyGather(rows);
      for i := 0 to |items|
        invariant IdSet(items[..i]) <= rows.Keys && Gathered(rows, IdSet(items[..i]), keys, deltas)
      {
        PrefixIds(items, i);
        var x := items[i];
        assert x in IdSet(items) && x !in IdSet(items[..i]);
        keys, deltas := GatherRow(x, keys, deltas, IdSet(items[..i]));
      }
      assert items[..|items|] == items;
    }

    /** One round of that loop. */
    method GatherRow(x: Id, keys: seq<string>, deltas: map<UserId, int>, ghost before: set<Id>)
      returns (keys': seq<string>, deltas': map<UserId, int>)
      requires x in rows && x !in before && before <= rows.Keys && Gathered(rows, before, keys, deltas)
      ensures Gathered(rows, before + {x}, keys', deltas')
    {
      keys', deltas' := keys, deltas;
      var row := rows[x];
      FreedFilesStep(rows, before, x);
      OwnedInStep(rows, before, x);
      if !row.isDir && row.key != "" {
        var count := CountByStorageKey(rows, row.key);
        if count <= 1 {
          keys' := keys + [row.key];
          assert KeySet(keys') == KeySet(keys) + {row.key};
        }
      }
      if !row.isDir && row.size > 0 {
        OwedStep(deltas, row.owner, row.size);
        deltas' := deltas[row.owner := (if row.owner in deltas then deltas[row.owner] else 0) - row.size];
      }
    }

    method AutoCleanRecycle(cutoff: int) returns (cleaned: nat)
      requires Valid()
      modifies this`rows, this`used, this`blobs
      ensures Valid()
      ensures View() == FileOps.AutoCleanRecycle(old(View()), cutoff).state
      ensures cleaned == |Swept(old(rows), cutoff)|
    {
      ghost var s := View();
      var items := CollectSwept(cutoff);
      var physDeletes, userDeltas := GatherSwept(items);
      SizeOfIds(items);
      RemoveSwept(items, physDeletes, userDeltas);
      SweepOutcome(s, View(), cutoff, physDeletes, userDeltas);
      return |items|;
    }

    /** The changes of the cleaning: rows first, then blobs, then accounts. */
    method RemoveSwept(items: seq<Id>, keys: seq<string>, deltas: map<UserId, int>)
      requires Valid() && forall u :: u in deltas ==> deltas[u] <= 0
      modifies this`rows, this`used, this`blobs
      ensures Valid()
      ensures rows == Remove(old(rows), IdSet(items)) && blobs == old(blobs) - KeySet(keys)
      ensures used == map u | u in old(used) :: Refund(old(used), u, Owed(deltas, u))[u]
    {
      HardDeleteFiles(items);
      DeleteBlobs(keys);
      ApplyDeltas(deltas);
    }

    method ApplyDeltas(deltas: map<UserId, int>)
      requires forall u :: u in deltas ==> deltas[u] <= 0
      modifies this`used
      ensures used == map u | u in old(used) :: Refund(old(used), u, Owed(deltas, u))[u]
      ensures used.Keys == old(used).Keys
    {
      var todo := deltas.Keys;
      while todo != {}
        invariant todo <= deltas.Keys
        invariant used.Keys == old(used).Keys
        invariant forall u :: u in used ==>
          used[u] == if u in todo then old(used)[u] else Refund(old(used), u, Owed(deltas, u))[u]
      {
        HasElement(todo);
        var u :| u in todo;
        UpdateUserStorageUsed(u, deltas[u]);
        todo := todo - {u};
      }
    }

    // ------------------------------------------------------------ calibration

    method CalibrateStorage(user: UserId) returns (o: Outcome)
      requires Valid()
      modifies this`used
      ensures Valid()
      ensures Reply(View(), o) == FileOps.CalibrateStorage(old(View()), user)
    {
      var actual := SumActiveStorage(rows, user);
      if user !in used {
        return Failed(NoSuchUser);
      }
      var delta: int := actual;
      delta := delta - used[user];
      if delta != 0 {
        UpdateUserStorageUsed(user, delta);
      }
      return Done;
    }

    /** SELECT id FROM users ORDER BY id, with LIMIT limit OFFSET offset unless the limit is 0 */
    method AllUserIDsPaginated(limit: nat, offset: nat) returns (ids: seq<UserId>)
      ensures ids == if limit > 0 then Page(users, limit, offset) else users
    {
      if limit == 0 {
        return users;
      }
      var from := if offset <= |users| then offset else |users|;
      var to := if from + limit <= |users| then from + limit else |users|;
      return users[from..to];
    }

    /** The inner loop: the accounts of one page. */
    method CalibratePage(ids: seq<UserId>) returns (fixed: nat)
      requires Valid() && forall u :: u in ids ==> u in used
      modifies this`used
      ensures Valid() && fixed == |ids|
      ensures Calibrated(rows, old(used), used, ids)
    {
      fixed := 0;
      for i := 0 to |ids|
        invariant Valid() && fixed == i
        invariant Calibrated(rows, old(used), used, ids[..i])
      {
        var id := ids[i];
        assert id in ids && ids[..i + 1] == ids[..i] + [id];
        var _ := CalibrateStorage(id);
        fixed := fixed + 1;
      }
      assert ids[..|ids|] == ids;
    }

    /** Calibrates every account, page by page; each is visited once. */
    method CalibrateAllStorage() returns (count: nat)
      requires Valid()
      modifies this`used
      ensures Valid() && count == |users|
      ensures used == map u | u in old(used) :: ActiveSum(rows, u)
    {
      count := 0;
      var offset := 0;
      while true
        invariant Valid()
        invariant count == if offset <= |users| then offset else |users|
        invariant Calibrated(rows, old(used), used, users[..count])
        decreases |users| + 100 - offset
      {
        var ids := AllUserIDsPaginated(100, offset);
        if |ids| == 0 {
          break;
        }
        ghost var before := used;
        PageFollows(users, 100, offset);
        var fixed := CalibratePage(ids);
        CalibratedTogether(rows, old(used), before, used, users[..count], ids, users[..count + fixed]);
        count := count + fixed;
        offset := offset + 100;
      }
      assert users[..|users|] == users;
    }
  }

  // -------------------------------------------------------------- lemmas for the loops

  function Page(users: seq<UserId>, limit: nat, offset: nat): seq<UserId> {
    var from := if offset <= |users| then offset else |users|;
    var to := if from + limit <= |users| then from + limit else |users|;
    users[from..to]
  }

  /** The accounts listed are set to the active bytes, the others as they were. */
  ghost predicate Calibrated(t: Table, before: map<UserId, nat>, after: map<UserId, nat>, ids: seq<UserId>) {
    && after.Keys == before.Keys
    && forall u :: u in after ==> after[u] == if u in ids then ActiveSum(t, u) else before[u]
  }

  lemma CalibratedTogether(t: Table, used0: map<UserId, nat>, used1: map<UserId, nat>, used2: map<UserId, nat>,
                           a: seq<UserId>, b: seq<UserId>, all: seq<UserId>)
    requires Calibrated(t, used0, used1, a) && Calibrated(t, used1, used2, b)
    requires forall u :: u in all <==> u in a || u in b
    ensures Calibrated(t, used0, used2, all)
  {
  }

  lemma PageFollows(users: seq<UserId>, limit: nat, offset: nat)
    requires offset < |users|
    ensures var ids := Page(users, limit, offset);
            var to := if offset + limit <= |users| then offset + limit else |users|;
            && |ids| == to - offset
            && (forall u :: u in ids ==> u in users)
            && (forall u :: u in users[..to] <==> u in users[..offset] || u in ids)
  {
    assert users[..offset] + Page(users, limit, offset) ==
           users[..if offset + limit <= |users| then offset + limit else |users|];
  }

  ghost function KeySet(keys: seq<string>): set<string> {
    set k | k in keys
  }

  lemma PrefixKeys(keys: seq<string>, i: nat)
    requires i < |keys|
    ensures KeySet(keys[..i + 1]) == KeySet(keys[..i]) + {keys[i]}
  {
  }

  ghost function Owed(deltas: map<UserId, int>, u: UserId): nat {
    if u in deltas && deltas[u] <= 0 then 0 - deltas[u] else 0
  }

  lemma SizeOfIds(ids: seq<Id>)
    requires NoDuplicates(ids)
    ensures |ids| == |IdSet(ids)|
  {
    SizeOfListing(ids, IdSet(ids));
  }

  /** keys and deltas are what the rows ids contribute: keys to free and bytes per user. */
  ghost predicate Gathered(t: Table, ids: set<Id>, keys: seq<string>, deltas: map<UserId, int>)
    requires ids <= t.Keys
  {
    && KeySet(keys) == FreedKeys(t, FilesIn(t, ids))
    && (forall u :: u in deltas ==> deltas[u] <= 0)
    && (forall u :: SizeSum(t, OwnedIn(t, ids, u)) == Owed(deltas, u))
  }

  /** Removing the swept rows, freeing what was gathered and applying the deltas is a cleaning. */
  lemma SweepOutcome(s: State, s': State, cutoff: int, keys: seq<string>, deltas: map<UserId, int>)
    requires Gathered(s.rows, Swept(s.rows, cutoff), keys, deltas)
    requires s'.rows == Remove(s.rows, Swept(s.rows, cutoff)) && s'.blobs == s.blobs - KeySet(keys)
    requires s'.used == map u | u in s.used :: Refund(s.used, u, Owed(deltas, u))[u]
    requires s'.nextId == s.nextId && s'.sessions == s.sessions
    ensures s' == AutoCleanRecycle(s, cutoff).state
  {
  }

  lemma FreedKeysStep(t: Table, ids: set<Id>, x: Id)
    requires x in t
    ensures FreedKeys(t, ids + {x}) ==
            FreedKeys(t, ids) + if t[x].key != "" && |Holders(t, t[x].key)| <= 1 then {t[x].key} else {}
  {
  }

  lemma FreedFilesStep(t: Table, ids: set<Id>, x: Id)
    requires x in t
    ensures FreedKeys(t, FilesIn(t, ids + {x})) ==
            FreedKeys(t, FilesIn(t, ids)) +
            if !t[x].isDir && t[x].key != "" && |Holders(t, t[x].key)| <= 1 then {t[x].key} else {}
  {
  }

  lemma OwedStep(deltas: map<UserId, int>, u: UserId, n: nat)
    requires forall v :: v in deltas ==> deltas[v] <= 0
    ensures var deltas' := deltas[u := (if u in deltas then deltas[u] else 0) - n];
            forall v :: Owed(deltas', v) == Owed(deltas, v) + if v == u then n else 0
  {
  }

  lemma OwnedInStep(t: Table, ids: set<Id>, x: Id)
    requires x in t && x !in ids
    ensures forall u :: SizeSum(t, OwnedIn(t, ids + {x}, u)) ==
              SizeSum(t, OwnedIn(t, ids, u)) + if u == t[x].owner then Weight(t, x) else 0
  {
    forall u
      ensures SizeSum(t, OwnedIn(t, ids + {x}, u)) ==
              SizeSum(t, OwnedIn(t, ids, u)) + if u == t[x].owner then Weight(t, x) else 0
    {
      if u == t[x].owner {
        SizeSumWithout(t, OwnedIn(t, ids + {x}, u), x);
        assert OwnedIn(t, ids + {x}, u) - {x} == OwnedIn(t, ids, u);
      } else {
        assert OwnedIn(t, ids + {x}, u) == OwnedIn(t, ids, u);
      }
    }
  }

  lemma EmptyGather(t: Table)
    ensures FreedKeys(t, FilesIn(t, IdSet([]))) == {}
    ensures forall u :: SizeSum(t, OwnedIn(t, IdSet([]), u)) == 0
  {
  }

  /** x is one of the candidates or deleted below one of the candidate directories. */
  ghost predicate SweptBy(t: Table, candidates: seq<Id>, x: Id)
    requires x in t
  {
    x in candidates ||
    (t[x].Deleted() &&
     exists c :: c in candidates && c in t && t[c].isDir && !Below(t, c, c) && Below(t, x, c))
  }

  /** One more candidate adds itself and its deleted descendants; nothing, if it was below an earlier one. */
  lemma SweptNext(t: Table, candidates: seq<Id>, c: Id)
    requires c in t && c !in candidates && t[c].Deleted()
    ensures forall x :: x in t ==>
              (SweptBy(t, candidates + [c], x) <==>
               || SweptBy(t, candidates, x) || x == c
               || (t[c].isDir && !Below(t, c, c) && x in DescendantsWhere(t, c, true)))
    ensures SweptBy(t, candidates, c) ==>
              forall x :: x in t ==> (SweptBy(t, candidates + [c], x) <==> SweptBy(t, candidates, x))
  {
    if SweptBy(t, candidates, c) {
      var d :| d in candidates && d in t && t[d].isDir && !Below(t, d, d) && Below(t, c, d);
      forall x | x in DescendantsWhere(t, c, true)
        ensures SweptBy(t, candidates, x)
      {
        BelowTransitive(t, x, c, d);
      }
    }
  }

  lemma SweptByAll(t: Table, cutoff: int, candidates: seq<Id>, x: Id)
    requires forall c :: c in candidates <==> Expired(t, cutoff, c)
    ensures (x in t && SweptBy(t, candidates, x)) <==> x in Swept(t, cutoff)
  {
  }

  lemma LookupsAnswer(t: Table, hash: string, parent: Option<Id>, user: UserId, name: string)
    ensures exists dup :: HashLookup(t, hash, dup)
    ensures exists victim :: NameLookup(t, parent, user, name, victim)
  {
    if x :| x in t && t[x].hash == hash && !t[x].isDir && t[x].Active() {
      assert HashLookup(t, hash, Some(x));
    } else {
      assert HashLookup(t, hash, None);
    }
    if x :| x in t && Named(t, parent, user, name, x) {
      assert NameLookup(t, parent, user, name, Some(x));
    } else {
      assert NameLookup(t, parent, user, name, None);
    }
  }

  lemma {:induction false} MoveErrorStands(t: Table, ids: seq<Id>, n: nat, target: Option<Id>, user: UserId)
    requires n <= |ids| && FirstMoveError(t, ids[..n], target, user).Some?
    ensures FirstMoveError(t, ids, target, user) == FirstMoveError(t, ids[..n], target, user)
  {
    if n == |ids| {
      assert ids[..n] == ids;
    } else {
      assert ids[..|ids| - 1][..n] == ids[..n];
      MoveErrorStands(t, ids[..|ids| - 1], n, target, user);
    }
  }

  lemma {:induction false} DeleteErrorStands(t: Table, ids: seq<Id>, n: nat, user: UserId)
    requires n <= |ids| && FirstDeleteError(t, ids[..n], user).Some?
    ensures FirstDeleteError(t, ids, user) == FirstDeleteError(t, ids[..n], user)
  {
    if n == |ids| {
      assert ids[..n] == ids;
    } else {
      assert ids[..|ids| - 1][..n] == ids[..n];
      DeleteErrorStands(t, ids[..|ids| - 1], n, user);
    }
  }

  lemma {:induction false} AllMovable(t: Table, ids: seq<Id>, target: Option<Id>, user: UserId)
    requires FirstMoveError(t, ids, target, user).None?
    ensures forall id :: id in ids ==> id in t
  {
    if ids != [] {
      AllMovable(t, ids[..|ids| - 1], target, user);
      assert ids == ids[..|ids| - 1] + [ids[|ids| - 1]];
    }
  }

  lemma SessionsRideAlong(s: State, rest: map<string, Session>, row: Row, bytes: Bytes,
                          dup: Option<Id>, victim: Option<Id>, now: int)
    ensures var r := AddFile(s, row, bytes, dup, victim, now);
            AddFile(s.(sessions := rest), row, bytes, dup, victim, now) == Reply(r.state.(sessions := rest), r.outcome)
  {
  }

  lemma NoCharge(used: map<UserId, nat>, u: UserId)
    ensures Charge(used, u, 0) == used
  {
  }
}
