/** The recycle bin: its listing, purging it, and undoing a deletion. */
module RecycleBin {
  import opened Base
  import opened FileTable
  import opened TableEdits
  import opened FileQueries
  import opened Sizes
  import opened FileOps
  import opened Structure
  import opened Accounting

  ghost predicate Under(t: Table, x: Id, r: Id) {
    x == r || Below(t, x, r)
  }

  // -------------------------------------------------------------- through deleted rows

  /** Walking through deleted rows only is walking in the whole table. */
  lemma {:induction false} UpInOnly(t: Table, deleted: bool, x: Id, n: nat)
    ensures Up(Only(t, deleted), Some(x), n).Some? ==> Up(Only(t, deleted), Some(x), n) == Up(t, Some(x), n)
  {
    if n > 0 {
      UpInOnly(t, deleted, x, n - 1);
    }
  }

  /** x is r, or reaches it upwards through deleted rows. */
  ghost predicate InBinUnder(t: Table, x: Id, r: Id) {
    x == r || Below(Only(t, true), x, r)
  }

  lemma BelowInBin(t: Table, x: Id, r: Id)
    requires Below(Only(t, true), x, r)
    ensures Below(t, x, r)
  {
    var n: nat :| n > 0 && Up(Only(t, true), Some(x), n) == Some(r);
    UpInOnly(t, true, x, n);
  }

  lemma InBinIsUnder(t: Table, x: Id, r: Id)
    requires InBinUnder(t, x, r)
    ensures Under(t, x, r)
  {
    if x != r {
      BelowInBin(t, x, r);
    }
  }

  // -------------------------------------------------------------- the listing

  ghost predicate Fitting(t: Table) {
    forall y :: y in t ==> ParentFits(t, y)
  }

  /** Climbing from a deleted row through deleted rows ends at a listed root. */
  lemma {:induction false} ClimbToRoot(t: Table, x: Id, k: nat, y: Id) returns (r: Id)
    requires Fitting(t) && CyclesAreActive(t) && x in t && y in t && t[y].Deleted() && k <= |t| + 1
    requires Up(Only(t, true), Some(x), k) == Some(y)
    ensures r in BinRoots(t, t[x].owner) && InBinUnder(t, x, r)
    decreases |t| + 1 - k
  {
    var bin := Only(t, true);
    UpInOnly(t, true, x, k);
    OwnerAlongChain(t, x, y, k);
    if IsBinRoot(t, y) {
      r := y;
      assert k > 0 ==> Below(bin, x, y);
    } else {
      if k > |t| {
        OnlyIsSmaller(t, true);
        LongChainIsCyclic(bin, Some(x), k, y);
        BelowInBin(t, y, y);
        assert false;
      }
      r := ClimbToRoot(t, x, k + 1, t[y].parent.value);
    }
  }

  /** Below a listed root nothing is listed, as far as deleted rows lead. */
  lemma RootsApart(t: Table, a: Id, b: Id)
    requires a in t && b in t && IsBinRoot(t, a) && t[b].Deleted()
    ensures !Below(Only(t, true), a, b)
  {
    var bin := Only(t, true);
    BelowStep(bin, a, b);
    if Below(bin, a, b) {
      BelowStep(bin, bin[a].parent.value, b);
    }
  }

  /**
    In any table without deleted rows on a cycle the listing partitions the bin: through deleted
    rows each deleted row leads up to exactly one listed root.
   */
  lemma BinIsPartitioned(t: Table, user: UserId, x: Id)
    requires Fitting(t) && CyclesAreActive(t) && x in DeletedOf(t, user)
    ensures exists r :: r in BinRoots(t, user) && InBinUnder(t, x, r)
    ensures forall a, b :: a in BinRoots(t, user) && b in BinRoots(t, user) && InBinUnder(t, x, a) && InBinUnder(t, x, b) ==> a == b
  {
    assert Up(Only(t, true), Some(x), 0) == Some(x);
    var r := ClimbToRoot(t, x, 0, x);
    forall a, b | a in BinRoots(t, user) && b in BinRoots(t, user) && InBinUnder(t, x, a) && InBinUnder(t, x, b)
      ensures a == b
    {
      RootsApart(t, a, b);
      RootsApart(t, b, a);
      if x != a && x != b {
        AncestorsRelated(Only(t, true), x, a, b);
      }
    }
  }

  /** Listed roots are pairwise unrelated. */
  lemma RootsUnrelated(t: Table, a: Id, b: Id)
    requires Sound(t) && a in t && b in t && IsBinRoot(t, a) && IsBinRoot(t, b)
    ensures !Below(t, a, b)
  {
    if Below(t, a, b) {
      BelowStep(t, a, b);
      var p := t[a].parent.value;
      assert LinkOk(t, a);
      if p != b {
        BelowLinked(t, p, b);
      }
      assert false;
    }
  }

  lemma LinkedFits(t: Table)
    requires Linked(t)
    ensures Fitting(t)
  {
    forall y | y in t ensures ParentFits(t, y) {
      assert LinkOk(t, y);
    }
  }

  /** In a well-formed forest so it does whatever rows lie between: each deleted row lies under exactly one listed root. */
  lemma ListingPartitionsBin(t: Table, user: UserId, x: Id)
    requires Sound(t) && x in DeletedOf(t, user)
    ensures exists r :: r in BinRoots(t, user) && Under(t, x, r)
    ensures forall a, b :: a in BinRoots(t, user) && b in BinRoots(t, user) && Under(t, x, a) && Under(t, x, b) ==> a == b
  {
    LinkedFits(t);
    BinIsPartitioned(t, user, x);
    var r :| r in BinRoots(t, user) && InBinUnder(t, x, r);
    InBinIsUnder(t, x, r);
    forall a, b | a in BinRoots(t, user) && b in BinRoots(t, user) && Under(t, x, a) && Under(t, x, b)
      ensures a == b
    {
      RootsUnrelated(t, a, b);
      RootsUnrelated(t, b, a);
      if x != a && x != b {
        AncestorsRelated(t, x, a, b);
      }
    }
  }

  // -------------------------------------------------------------- purging the listing

  ghost function PurgeAll(s: State, roots: seq<Id>, user: UserId): State {
    if roots == [] then s
    else PermanentDeleteFile(PurgeAll(s, roots[..|roots| - 1], user), roots[|roots| - 1], user).state
  }

  /** Purging one listed root removes it from the listing and changes no other root. */
  lemma PurgeRoot(s: State, r: Id, user: UserId)
    requires WellFormed(s) && r in BinRoots(s.rows, user)
    ensures PermanentDeleteFile(s, r, user).outcome.Done?
    ensures BinRoots(PermanentDeleteFile(s, r, user).state.rows, user) == BinRoots(s.rows, user) - {r}
  {
    var t := s.rows;
    var ids := Subtree(t, r, true);
    var t' := PermanentDeleteFile(s, r, user).state.rows;
    assert !SubtreeAborts(t, r);
    assert t' == Remove(t, ids);
    PurgeKeeps(s, r, user);
    forall x | x in BinRoots(t, user) && x != r
      ensures x in BinRoots(t', user)
    {
      RootsUnrelated(t, x, r);
      assert LinkOk(t, x);
    }
    forall x | x in BinRoots(t', user)
      ensures x in BinRoots(t, user) && x != r
    {
      assert LinkOk(t', x) && LinkOk(t, x);
    }
  }

  /** Purging every listed root leaves the user's bin empty. */
  lemma {:induction false} PurgingListingEmptiesBin(s: State, roots: seq<Id>, user: UserId)
    requires WellFormed(s) && NoDuplicates(roots)
    requires forall x :: x in roots ==> x in BinRoots(s.rows, user)
    ensures WellFormed(PurgeAll(s, roots, user))
    ensures BinRoots(PurgeAll(s, roots, user).rows, user) == BinRoots(s.rows, user) - IdSet(roots)
    ensures (forall x :: x in BinRoots(s.rows, user) ==> x in roots) ==>
              DeletedOf(PurgeAll(s, roots, user).rows, user) == {}
  {
    if roots == [] {
      assert IdSet(roots) == {};
    } else {
      var front, r := roots[..|roots| - 1], roots[|roots| - 1];
      var s1 := PurgeAll(s, front, user);
      PurgingListingEmptiesBin(s, front, user);
      assert roots == front + [r];
      assert r in roots && r !in IdSet(front);
      PurgeKeeps(s1, r, user);
      PurgeRoot(s1, r, user);
      assert IdSet(roots) == IdSet(front) + {r};
    }
    var t' := PurgeAll(s, roots, user).rows;
    if forall x :: x in BinRoots(s.rows, user) ==> x in roots {
      forall x ensures x !in DeletedOf(t', user) {
        if x in DeletedOf(t', user) {
          ListingPartitionsBin(t', user, x);
          assert false;
        }
      }
      assert DeletedOf(t', user) == {};
    }
  }

  // -------------------------------------------------------------- purging in any table

  ghost function DeletedSubtrees(t: Table, ids: seq<Id>): set<Id> {
    if ids == [] then {}
    else
      var id := ids[|ids| - 1];
      DeletedSubtrees(t, ids[..|ids| - 1]) + (if id in t then Subtree(t, id, true) else {})
  }

  lemma {:induction false} DeletedSubtreesReached(t: Table, ids: seq<Id>, x: Id)
    requires x in DeletedSubtrees(t, ids)
    ensures exists id :: id in ids && id in t && x in Subtree(t, id, true)
  {
    var n := |ids| - 1;
    if x in DeletedSubtrees(t, ids[..n]) {
      DeletedSubtreesReached(t, ids[..n], x);
      var id :| id in ids[..n] && id in t && x in Subtree(t, id, true);
      assert id in ids;
    } else {
      assert ids[n] in ids;
    }
  }

  lemma {:induction false} DeletedSubtreesInclude(t: Table, ids: seq<Id>, id: Id)
    requires id in ids && id in t
    ensures Subtree(t, id, true) <= DeletedSubtrees(t, ids)
  {
    var n := |ids| - 1;
    assert ids == ids[..n] + [ids[n]];
    if id in ids[..n] {
      DeletedSubtreesInclude(t, ids[..n], id);
    }
  }

  ghost predicate Purgeable(t: Table, id: Id, user: UserId) {
    id in t && t[id].owner == user && t[id].Deleted() && !SubtreeAborts(t, id)
  }

  /** With a row, the collected rows contain every deleted row below it. */
  lemma DeletedSubtreesClosed(t: Table, ids: seq<Id>, x: Id, q: Id)
    requires Fitting(t) && q in DeletedSubtrees(t, ids) && x in t && t[x].Deleted() && Under(t, x, q)
    ensures x in DeletedSubtrees(t, ids)
  {
    DeletedSubtreesReached(t, ids, q);
    var id :| id in ids && id in t && q in Subtree(t, id, true);
    if x != q {
      var n: nat :| n > 0 && Up(t, Some(x), n) == Some(q);
      OwnerAlongChain(t, x, q, n);
      if q != id {
        BelowTransitive(t, x, q, id);
      }
    }
    DeletedSubtreesInclude(t, ids, id);
  }

  /** What is left below a row after purging others is what was below it, less the rows purged. */
  lemma BelowAfterPurge(t: Table, ids: seq<Id>, x: Id, r: Id)
    requires Fitting(t) && x in t && t[x].Deleted() && x !in DeletedSubtrees(t, ids)
    ensures Below(Remove(t, DeletedSubtrees(t, ids)), x, r) <==> Below(t, x, r)
  {
    var gone := DeletedSubtrees(t, ids);
    var t' := Remove(t, gone);
    if n: nat :| n > 0 && Up(t, Some(x), n) == Some(r) {
      forall j: nat | j < n && Up(t, Some(x), j).Some? ensures Up(t, Some(x), j).value !in gone {
        var q := Up(t, Some(x), j).value;
        ReachedIsAbove(t, x, j, q);
        if q in gone {
          DeletedSubtreesClosed(t, ids, x, q);
        }
      }
      assert AgreeOutside(t, t', gone);
      UpUntilHit(t, t', gone, x, n);
    }
    if n: nat :| n > 0 && Up(t', Some(x), n) == Some(r) {
      UpInMore(t, t', x, n);
    }
  }

  /** Purging rows one after another removes exactly what each would have removed alone. */
  lemma {:induction false} PurgesAddUp(s: State, roots: seq<Id>, user: UserId)
    requires Fitting(s.rows) && forall r :: r in roots ==> Purgeable(s.rows, r, user)
    ensures PurgeAll(s, roots, user).rows == Remove(s.rows, DeletedSubtrees(s.rows, roots))
  {
    var t := s.rows;
    if roots != [] {
      var front, r := roots[..|roots| - 1], roots[|roots| - 1];
      assert roots == front + [r];
      PurgesAddUp(s, front, user);
      OneMorePurge(PurgeAll(s, front, user), t, front, r, user);
    } else {
      assert Remove(t, {}) == t;
    }
  }

  lemma OneMorePurge(s1: State, t: Table, front: seq<Id>, r: Id, user: UserId)
    requires Fitting(t) && Purgeable(t, r, user) && s1.rows == Remove(t, DeletedSubtrees(t, front))
    ensures PermanentDeleteFile(s1, r, user).state.rows == Remove(t, DeletedSubtrees(t, front) + Subtree(t, r, true))
  {
    var gone, ids := DeletedSubtrees(t, front), Subtree(t, r, true);
    if r in gone {
      forall x | x in ids ensures x in gone {
        DeletedSubtreesClosed(t, front, x, r);
      }
      assert gone + ids == gone;
    } else {
      BelowAfterPurge(t, front, r, r);
      forall x | x in s1.rows ensures x in Subtree(s1.rows, r, true) <==> x in ids {
        if t[x].Deleted() {
          BelowAfterPurge(t, front, x, r);
        }
      }
      assert Remove(s1.rows, Subtree(s1.rows, r, true)) == Remove(t, gone + ids);
    }
  }

  /**
    In any table without deleted rows on a cycle, purging all listed roots, in any order, leaves no
    deleted row of the user, and removes no other row.
   */
  lemma PurgingEmptiesAnyBin(s: State, roots: seq<Id>, user: UserId)
    requires Tidy(s) && CyclesAreActive(s.rows)
    requires forall x :: x in roots <==> x in BinRoots(s.rows, user)
    ensures PurgeAll(s, roots, user).rows == Remove(s.rows, DeletedOf(s.rows, user))
  {
    var t := s.rows;
    var gone := DeletedSubtrees(t, roots);
    PurgesAddUp(s, roots, user);
    forall x ensures x in gone <==> x in DeletedOf(t, user) {
      if x in gone {
        DeletedSubtreesReached(t, roots, x);
        var id :| id in roots && id in t && x in Subtree(t, id, true);
        SubtreeOwner(t, id, true);
      }
      if x in DeletedOf(t, user) {
        BinIsPartitioned(t, user, x);
        var r :| r in BinRoots(t, user) && InBinUnder(t, x, r);
        InBinIsUnder(t, x, r);
        assert r in DeletedSubtrees(t, roots) by {
          DeletedSubtreesInclude(t, roots, r);
        }
        DeletedSubtreesClosed(t, roots, x, r);
      }
    }
    assert gone == DeletedOf(t, user);
  }

  // -------------------------------------------------------------- counting

  /** Below a deleted row every chain upwards stays within the deleted rows. */
  lemma {:induction false} UpStaysDeleted(t: Table, x: Id, r: Id, k: nat, n: nat)
    requires Linked(t) && r in t && t[r].Deleted() && x in t && k <= n && Up(t, Some(x), n) == Some(r)
    ensures Up(Only(t, true), Some(x), k) == Up(t, Some(x), k)
  {
    if k > 0 {
      UpStaysDeleted(t, x, r, k - 1, n);
      UpInTable(t, Some(x), k - 1, n);
      var y := Up(t, Some(x), k - 1).value;
      UpSum(t, Some(x), k - 1, n - k + 1);
      AncestorLinked(t, y, r, n - k + 1);
    }
  }

  lemma BelowThroughDeleted(t: Table, x: Id, r: Id)
    requires Linked(t) && r in t && t[r].Deleted() && x in t
    ensures Below(Only(t, true), x, r) <==> Below(t, x, r)
  {
    if n: nat :| n > 0 && Up(Only(t, true), Some(x), n) == Some(r) {
      UpInOnly(t, true, x, n);
    }
    if n: nat :| n > 0 && Up(t, Some(x), n) == Some(r) {
      UpStaysDeleted(t, x, r, n, n);
    }
  }

  /** The counts shown for a deleted directory cover exactly what purging it removes below it. */
  lemma CountsMatchPurge(s: State, root: Id, user: UserId)
    requires WellFormed(s) && root in s.rows && s.rows[root].owner == user
    requires s.rows[root].Deleted() && s.rows[root].isDir
    ensures PermanentDeleteFile(s, root, user).outcome.Done?
    ensures Descendants(Only(s.rows, true), root) ==
            s.rows.Keys - PermanentDeleteFile(s, root, user).state.rows.Keys - {root}
  {
    var t := s.rows;
    assert !Below(t, root, root);
    forall x
      ensures x in Descendants(Only(t, true), root) <==> x in Subtree(t, root, true) - {root}
    {
      if x in t {
        BelowThroughDeleted(t, x, root);
        if Below(t, x, root) {
          BelowLinked(t, x, root);
        }
      }
    }
    assert Descendants(Only(t, true), root) == Subtree(t, root, true) - {root};
    RemovedBy(t, Subtree(t, root, true));
  }

  /** An active row, as a late completion or an overwritten directory leaves them, stands between x and root. */
  ghost predicate ActiveBetween(t: Table, x: Id, y: Id, root: Id) {
    x in t && t[x].Deleted() && y in t && t[y].Active() && Below(t, x, y) && Below(t, y, root)
  }

  /** In any table the counts cover what a purge removes exactly when no active row stands between. */
  lemma CountsMatchPurgeIff(s: State, root: Id, user: UserId)
    requires Purgeable(s.rows, root, user) && s.rows[root].isDir
    ensures PermanentDeleteFile(s, root, user).outcome.Done?
    ensures Descendants(Only(s.rows, true), root) ==
            s.rows.Keys - PermanentDeleteFile(s, root, user).state.rows.Keys - {root} <==>
            !exists x, y :: ActiveBetween(s.rows, x, y, root)
  {
    var t := s.rows;
    var counted, removed := Descendants(Only(t, true), root), Subtree(t, root, true) - {root};
    RemovedBy(t, Subtree(t, root, true));
    if x, y :| ActiveBetween(t, x, y, root) {
      BelowTransitive(t, x, y, root);
      NotCounted(t, x, y, root);
      assert x in removed && x !in counted;
    } else {
      forall x ensures x in counted <==> x in removed {
        if x in removed {
          CountedUnlessActive(t, x, root);
        }
        if x in counted {
          BelowInBin(t, x, root);
        }
      }
    }
  }

  lemma NotCounted(t: Table, x: Id, y: Id, root: Id)
    requires ActiveBetween(t, x, y, root) && root in t && t[root].Deleted() && !Below(t, root, root)
    ensures !Below(Only(t, true), x, root)
  {
    var bin := Only(t, true);
    if n: nat :| n > 0 && Up(bin, Some(x), n) == Some(root) {
      var m: nat :| m > 0 && Up(t, Some(x), m) == Some(y);
      UpInOnly(t, true, x, n);
      if m < n {
        UpInTable(bin, Some(x), m, n);
        UpInOnly(t, true, x, m);
      } else if n < m {
        UpSum(t, Some(x), n, m - n);
        assert Below(t, root, y);
        BelowTransitive(t, root, y, root);
      }
      assert false;
    }
  }

  lemma OnlyDeleted(t: Table, y: Id)
    ensures ParentOf(Only(t, true), Some(y)) == ParentOf(t, Some(y)) || (y in t && t[y].Active())
  {
    if y in t && t[y].Deleted() {
      assert y in Only(t, true);
    }
  }

  lemma CountedUnlessActive(t: Table, x: Id, root: Id)
    requires x in t && t[x].Deleted() && Below(t, x, root) && !exists y :: ActiveBetween(t, x, y, root)
    ensures Below(Only(t, true), x, root)
  {
    var actives := set y | y in t && t[y].Active();
    var n: nat :| n > 0 && Up(t, Some(x), n) == Some(root);
    forall j: nat | j < n && Up(t, Some(x), j).Some? ensures Up(t, Some(x), j).value !in actives {
      var y := Up(t, Some(x), j).value;
      UpSum(t, Some(x), j, n - j);
      assert Below(t, y, root);
      ReachedIsAbove(t, x, j, y);
      assert !ActiveBetween(t, x, y, root);
    }
    forall y: Option<Id> | y.Some? && y.value !in actives ensures ParentOf(Only(t, true), y) == ParentOf(t, y) {
      OnlyDeleted(t, y.value);
    }
    UpUntilHit(t, Only(t, true), actives, x, n);
  }

  lemma RemovedBy(t: Table, ids: set<Id>)
    requires ids <= t.Keys
    ensures t.Keys - Remove(t, ids).Keys == ids
  {
  }

  // -------------------------------------------------------------- breadcrumbs

  /** In a well-formed forest the breadcrumb of an active row starts at the top, and exists. */
  lemma BreadcrumbIsComplete(t: Table, path: seq<Id>, id: Id)
    requires Linked(t) && id in t && t[id].Active() && IsActivePath(t, path, id)
    ensures t[path[0]].parent.None?
  {
    assert LinkOk(t, path[0]);
  }

  lemma BreadcrumbExists(t: Table, c: Id)
    requires Acyclic(t)
    ensures !Below(Only(t, false), c, c)
  {
    if n: nat :| n > 0 && Up(Only(t, false), Some(c), n) == Some(c) {
      UpInOnly(t, false, c, n);
      BelowIntro(t, c, c, n);
    }
  }

  // -------------------------------------------------------------- undoing a deletion

  /** Bytes below (and at) id that were already deleted before. */
  ghost function EarlierDeleted(t: Table, id: Id): set<Id>
    requires id in t
  {
    if t[id].isDir then DescendantsWhere(t, id, true) else {}
  }

  /**
    Deleting an active row and restoring it: a file whose parent is gone cannot be restored, anything
    else comes back, a directory at the root if its parent is gone; and everything deleted earlier below
    it becomes active too.  storage_used grows by exactly those bytes, provided it covered the deleted ones.
   */
  lemma DeleteThenRestore(s: State, id: Id, user: UserId, now: int)
    requires Tidy(s) && id in s.rows && s.rows[id].Active() && user in s.used
    requires DeleteFile(s, id, user, now).outcome.Done?
    ensures WellFormed(s) ==> !ParentGone(s.rows, id, user)
    ensures var r := RestoreFile(DeleteFile(s, id, user, now).state, id, user);
            && (r.outcome.Done? <==> !ParentGone(s.rows, id, user) || s.rows[id].isDir)
            && (r.outcome.Done? ==>
                  var back := Undelete(s.rows, EarlierDeleted(s.rows, id));
                  && r.state.rows == (if ParentGone(s.rows, id, user) then Reparent(back, {id}, None) else back)
                  && (r.state.rows == s.rows <==> EarlierDeleted(s.rows, id) == {} && !ParentGone(s.rows, id, user))
                  && (SizeSum(s.rows, Subtree(s.rows, id, false)) <= s.used[user] ==>
                        r.state.used == Charge(s.used, user, SizeSum(s.rows, EarlierDeleted(s.rows, id)))))
  {
    var t := s.rows;
    var ids, earlier := Subtree(t, id, false), EarlierDeleted(t, id);
    var s1 := DeleteFile(s, id, user, now).state;
    if WellFormed(s) {
      assert LinkOk(t, id);
    }
    DeletedSubtree(t, id, now);
    ParentStays(t, id, user, now);
    UndoRows(t, id, now);
    UndoIsIdentityIff(t, id, user);
    UndoSizes(t, id, now);
    RestoreAfterDelete(s1, id, user, Undelete(s1.rows, ids + earlier));
    if SizeSum(t, ids) <= s.used[user] {
      UndoCharge(s.used, user, SizeSum(t, ids), SizeSum(t, earlier));
    }
  }

  lemma RestoreAfterDelete(s1: State, id: Id, user: UserId, rows: Table)
    requires id in s1.rows && s1.rows[id].owner == user && s1.rows[id].Deleted() && !SubtreeAborts(s1.rows, id)
    requires rows == Undelete(s1.rows, Subtree(s1.rows, id, true))
    ensures var r := RestoreFile(s1, id, user);
            && (r.outcome.Done? <==> !ParentGone(s1.rows, id, user) || s1.rows[id].isDir)
            && (r.outcome.Done? ==>
                  && r.state.rows == (if ParentGone(s1.rows, id, user) then Reparent(rows, {id}, None) else rows)
                  && r.state.used == Charge(s1.used, user, SizeSum(s1.rows, Subtree(s1.rows, id, true))))
  {
  }

  lemma UndoSizes(t: Table, id: Id, now: int)
    requires id in t && t[id].Active() && !SubtreeAborts(t, id)
    ensures var t1 := SoftDelete(t, Subtree(t, id, false), now);
            SizeSum(t1, Subtree(t1, id, true)) ==
            SizeSum(t, Subtree(t, id, false)) + SizeSum(t, EarlierDeleted(t, id))
  {
    DeletedSubtree(t, id, now);
    var ids, earlier := Subtree(t, id, false), EarlierDeleted(t, id);
    forall x ensures x in ids ==> x !in earlier {}
    SizeSumUnion(t, ids, earlier);
    SizeSumFrame(t, SoftDelete(t, ids, now), ids + earlier);
  }

  lemma UndoCharge(used: map<UserId, nat>, u: UserId, d: nat, e: nat)
    requires u in used && d <= used[u]
    ensures Charge(Refund(used, u, d), u, d + e) == Charge(used, u, e)
  {
  }

  /** Tables with the same links have the same ancestors. */
  lemma SameLinksSameBelow(t: Table, t': Table, x: Id, r: Id)
    requires t.Keys == t'.Keys && forall y :: y in t ==> t[y].parent == t'[y].parent
    ensures Below(t', x, r) <==> Below(t, x, r)
  {
    if n: nat :| n > 0 && Up(t, Some(x), n) == Some(r) {
      UpInMore(t', t, x, n);
    }
    if n: nat :| n > 0 && Up(t', Some(x), n) == Some(r) {
      UpInMore(t, t', x, n);
    }
  }

  lemma DeletedSubtree(t: Table, id: Id, now: int)
    requires id in t && !SubtreeAborts(t, id)
    ensures var t1 := SoftDelete(t, Subtree(t, id, false), now);
            && !SubtreeAborts(t1, id)
            && Subtree(t1, id, true) == Subtree(t, id, false) + EarlierDeleted(t, id)
            && Subtree(t, id, false) !! (EarlierDeleted(t, id) - {id})
  {
    var t1 := SoftDelete(t, Subtree(t, id, false), now);
    SameLinksSameBelow(t, t1, id, id);
    forall x ensures x in Subtree(t1, id, true) <==> x in Subtree(t, id, false) + EarlierDeleted(t, id) {
      SameLinksSameBelow(t, t1, x, id);
    }
    assert Subtree(t1, id, true) == Subtree(t, id, false) + EarlierDeleted(t, id);
  }

  lemma ParentStays(t: Table, id: Id, user: UserId, now: int)
    requires Fitting(t) && id in t && t[id].owner == user && t[id].Active() && !SubtreeAborts(t, id)
    ensures ParentGone(SoftDelete(t, Subtree(t, id, false), now), id, user) <==> ParentGone(t, id, user)
  {
    if t[id].parent.Some? && t[id].parent.value in Subtree(t, id, false) {
      assert ParentFits(t, id);
      BelowStep(t, id, id);
      OnCycleIsDir(t, id);
      assert false;
    }
  }

  lemma OnCycleIsDir(t: Table, id: Id)
    requires Fitting(t) && id in t && Below(t, id, id)
    ensures t[id].isDir
  {
    var n: nat :| n > 0 && Up(t, Some(id), n) == Some(id);
    OwnerAlongChain(t, id, id, n);
  }

  lemma UndoRows(t: Table, id: Id, now: int)
    requires id in t && t[id].Active()
    ensures Undelete(SoftDelete(t, Subtree(t, id, false), now), Subtree(t, id, false) + EarlierDeleted(t, id)) ==
            Undelete(t, EarlierDeleted(t, id))
  {
  }

  lemma UndoIsIdentityIff(t: Table, id: Id, user: UserId)
    requires id in t && t[id].Active()
    ensures var back := Undelete(t, EarlierDeleted(t, id));
            (if ParentGone(t, id, user) then Reparent(back, {id}, None) else back) == t <==>
            EarlierDeleted(t, id) == {} && !ParentGone(t, id, user)
  {
    var ids := EarlierDeleted(t, id);
    HasElement(ids);
    if ids != {} {
      var x :| x in ids;
      assert Undelete(t, ids)[x].Active();
    } else {
      assert Undelete(t, ids) == t;
      if ParentGone(t, id, user) {
        assert Reparent(t, {id}, None)[id].parent != t[id].parent;
      }
    }
  }
}
