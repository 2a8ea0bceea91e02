/** The read-only queries on the `files` table that need recursion or a scan. */
module FileQueries {
  import opened Base
  import opened FileTable

  /** A full scan: every row id once, in some order. */
  method Scan(t: Table) returns (ids: seq<Id>)
    ensures NoDuplicates(ids)
    ensures forall x :: x in ids <==> x in t
  {
    ids := [];
    var todo := t.Keys;
    while todo != {}
      invariant todo <= t.Keys
      invariant NoDuplicates(ids)
      invariant forall x :: x in ids <==> x in t && x !in todo
    {
      HasElement(todo);
      var x :| x in todo;
      ids := ids + [x];
      todo := todo - {x};
    }
  }

  /** One round of a recursive query: the rows whose parent is among `parents`. */
  method ChildrenOf(t: Table, parents: seq<Id>) returns (children: seq<Id>)
    ensures NoDuplicates(children)
    ensures forall x :: x in children <==> x in t && t[x].parent.Some? && t[x].parent.value in parents
  {
    children := [];
    var ids := Scan(t);
    for i := 0 to |ids|
      invariant NoDuplicates(children)
      invariant forall x :: x in children <==>
        x in ids[..i] && x in t && t[x].parent.Some? && t[x].parent.value in parents
    {
      var x := ids[i];
      assert x in ids && ids[..i + 1] == ids[..i] + [x];
      if t[x].parent.Some? && t[x].parent.value in parents {
        children := children + [x];
      }
    }
    assert ids[..|ids|] == ids;
  }

  /** After n rounds `all` lists the rows of the rounds before n, and `frontier` those of round n. */
  ghost predicate Collected(t: Table, root: Id, n: nat, all: seq<Id>, frontier: seq<Id>) {
    && NoDuplicates(frontier)
    && (forall x :: x in frontier <==> AtLevel(t, root, n, x))
    && (forall x :: x in all <==> exists k: nat :: k < n && AtLevel(t, root, k, x))
    && (!Below(t, root, root) ==> NoDuplicates(all))
  }

  lemma CollectNext(t: Table, root: Id, n: nat, all: seq<Id>, frontier: seq<Id>, next: seq<Id>)
    requires Collected(t, root, n, all, frontier) && NoDuplicates(next)
    requires forall x :: x in next <==> x in t && t[x].parent.Some? && t[x].parent.value in frontier
    ensures Collected(t, root, n + 1, all + frontier, next)
  {
    forall x
      ensures x in next <==> AtLevel(t, root, n + 1, x)
    {
      NextLevel(t, root, n, x);
    }
    if !Below(t, root, root) {
      forall x | x in all
        ensures x !in frontier
      {
        var k: nat :| k < n && AtLevel(t, root, k, x);
        if x in frontier {
          LevelsDisjoint(t, root, k, n, x);
        }
      }
      JoinDisjoint(all, frontier);
    }
    forall x
      ensures x in all + frontier <==> exists k: nat :: k < n + 1 && AtLevel(t, root, k, x)
    {
      if k: nat :| k < n + 1 && AtLevel(t, root, k, x) {
        assert k < n || x in frontier;
      }
    }
  }

  /**
    The recursive query that collects everything below `root`, round by round.
    A query that would never end is aborted by the database and reported as None;
    that happens exactly when root lies on a cycle.
   */
  method Reach(t: Table, root: Id) returns (r: Option<seq<Id>>)
    ensures r.None? <==> Below(t, root, root)
    ensures r.Some? ==> NoDuplicates(r.value) && forall x :: x in r.value <==> x in Descendants(t, root)
  {
    var all := [];
    var frontier := ChildrenOf(t, [root]);
    var n := 0;
    forall x ensures x in frontier <==> AtLevel(t, root, 0, x) {
      FirstLevel(t, root, x);
    }
    while frontier != []
      invariant 0 <= n <= |t|
      invariant Collected(t, root, n, all, frontier)
      decreases |t| - n
    {
      var x := frontier[0];
      assert x in frontier;
      assert AtLevel(t, root, n, x);
      if n >= |t| {
        LongChainIsCyclic(t, Some(x), n + 1, root);
        return None;
      }
      var next := ChildrenOf(t, frontier);
      CollectNext(t, root, n, all, frontier, next);
      all, frontier, n := all + frontier, next, n + 1;
    }
    if Below(t, root, root) {
      var y := CycleFillsLevels(t, root, n);
      assert false;
    }
    LevelsCoverDescendants(t, root, n);
    return Some(all);
  }

  lemma LevelsCoverDescendants(t: Table, root: Id, n: nat)
    requires forall x :: !AtLevel(t, root, n, x)
    ensures forall x :: x in Descendants(t, root) <==> exists k: nat :: k < n && AtLevel(t, root, k, x)
  {
    forall x | x in Descendants(t, root)
      ensures exists k: nat :: k < n && AtLevel(t, root, k, x)
    {
      var m: nat :| m > 0 && Up(t, Some(x), m) == Some(root);
      assert AtLevel(t, root, m - 1, x);
      if n <= m - 1 {
        EmptyLevelStays(t, root, n, m - 1);
      }
    }
  }

  /** Descendants of `root` with the given deletion status, each once. */
  method DescendantIDs(t: Table, root: Id, deleted: bool) returns (r: Option<seq<Id>>)
    ensures r.None? <==> Below(t, root, root)
    ensures r.Some? ==> NoDuplicates(r.value)
    ensures r.Some? ==> forall x :: x in r.value <==> x in DescendantsWhere(t, root, deleted)
  {
    var all := Reach(t, root);
    if all.None? {
      return None;
    }
    var ids: seq<Id> := [];
    for i := 0 to |all.value|
      invariant NoDuplicates(ids)
      invariant forall x :: x in ids <==> x in t && x in all.value[..i] && t[x].Deleted() == deleted
    {
      var x := all.value[i];
      assert x in all.value && x in Descendants(t, root);
      assert all.value[..i + 1] == all.value[..i] + [x];
      if t[x].Deleted() == deleted {
        ids := ids + [x];
      }
    }
    assert all.value[..|all.value|] == all.value;
    return Some(ids);
  }

  /** Files and directories below `root`, reached through deleted rows only. */
  method DescendantCounts(t: Table, root: Id) returns (r: Option<(nat, nat)>)
    ensures r.None? <==> Below(Only(t, true), root, root)
    ensures r.Some? ==>
      var below := Descendants(Only(t, true), root);
      && r.value.0 == |set x | x in below && x in t && !t[x].isDir|
      && r.value.1 == |set x | x in below && x in t && t[x].isDir|
  {
    var deleted := Only(t, true);
    var all := Reach(deleted, root);
    if all.None? {
      return None;
    }
    var files, dirs := [], [];
    for i := 0 to |all.value|
      invariant NoDuplicates(files) && NoDuplicates(dirs)
      invariant forall x :: x in files <==> x in t && x in all.value[..i] && !t[x].isDir
      invariant forall x :: x in dirs <==> x in t && x in all.value[..i] && t[x].isDir
    {
      var x := all.value[i];
      assert x in all.value && x in Descendants(deleted, root);
      assert all.value[..i + 1] == all.value[..i] + [x];
      if t[x].isDir {
        dirs := dirs + [x];
      } else {
        files := files + [x];
      }
    }
    assert all.value[..|all.value|] == all.value;
    ghost var below := Descendants(deleted, root);
    ghost var fileSet := set x | x in below && x in t && !t[x].isDir;
    ghost var dirSet := set x | x in below && x in t && t[x].isDir;
    forall x ensures (x in files <==> x in fileSet) && (x in dirs <==> x in dirSet) {
      assert x in all.value <==> x in below;
    }
    SizeOfListing(files, fileSet);
    SizeOfListing(dirs, dirSet);
    return Some((|files|, |dirs|));
  }

  function DeletionDate(t: Table, x: Id): int {
    if x in t && t[x].Deleted() then t[x].deletedAt.value else 0
  }

  /** ORDER BY deleted_at DESC */
  ghost predicate NewestFirst(t: Table, ids: seq<Id>) {
    forall i, j :: 0 <= i < j < |ids| ==> DeletionDate(t, ids[i]) >= DeletionDate(t, ids[j])
  }

  method InsertByDate(t: Table, ids: seq<Id>, x: Id) returns (r: seq<Id>)
    requires NewestFirst(t, ids) && NoDuplicates(ids) && x !in ids
    ensures NewestFirst(t, r) && NoDuplicates(r)
    ensures forall y :: y in r <==> y in ids || y == x
  {
    var i := 0;
    while i < |ids| && DeletionDate(t, ids[i]) >= DeletionDate(t, x)
      invariant 0 <= i <= |ids|
      invariant forall j :: 0 <= j < i ==> DeletionDate(t, ids[j]) >= DeletionDate(t, x)
    {
      i := i + 1;
    }
    InsertedInOrder(t, ids, x, i);
    r := ids[..i] + [x] + ids[i..];
    assert ids == ids[..i] + ids[i..];
  }

  lemma InsertedInOrder(t: Table, ids: seq<Id>, x: Id, i: nat)
    requires NewestFirst(t, ids) && NoDuplicates(ids) && x !in ids && i <= |ids|
    requires forall j :: 0 <= j < i ==> DeletionDate(t, ids[j]) >= DeletionDate(t, x)
    requires i < |ids| ==> DeletionDate(t, ids[i]) <= DeletionDate(t, x)
    ensures NewestFirst(t, ids[..i] + [x] + ids[i..]) && NoDuplicates(ids[..i] + [x] + ids[i..])
  {
    var r := ids[..i] + [x] + ids[i..];
    forall j, k | 0 <= j < k < |r|
      ensures DeletionDate(t, r[j]) >= DeletionDate(t, r[k]) && r[j] != r[k]
    {
      assert r[j] == if j < i then ids[j] else if j == i then x else ids[j - 1];
      assert r[k] == if k < i then ids[k] else if k == i then x else ids[k - 1];
      if k > i {
        assert DeletionDate(t, ids[i]) >= DeletionDate(t, ids[k - 1]);
      }
    }
  }

  /** The recycle-bin listing: the user's deleted rows whose parent is not itself a deleted row, latest first. */
  method FilesInRecycleBin(t: Table, user: UserId) returns (roots: seq<Id>)
    ensures NoDuplicates(roots)
    ensures LatestFirst(t, roots)
    ensures forall x :: x in roots <==> x in BinRoots(t, user)
  {
    roots := [];
    var ids := Scan(t);
    for i := 0 to |ids|
      invariant NoDuplicates(roots) && NewestFirst(t, roots)
      invariant forall x :: x in roots <==> x in ids[..i] && x in BinRoots(t, user)
    {
      var x := ids[i];
      assert x in ids && x !in ids[..i] && ids[..i + 1] == ids[..i] + [x];
      if t[x].owner == user && t[x].Deleted() &&
         !(t[x].parent.Some? && t[x].parent.value in t && t[t[x].parent.value].Deleted()) {
        roots := InsertByDate(t, roots, x);
      }
    }
    assert ids[..|ids|] == ids;
    assert forall x :: x in BinRoots(t, user) ==> x in t && x in ids;
    RootsByDate(t, user, roots);
  }

  /** The rows listed are deleted, a later deletion before an earlier one. */
  ghost predicate LatestFirst(t: Table, ids: seq<Id>) {
    && (forall i :: 0 <= i < |ids| ==> ids[i] in t && t[ids[i]].Deleted())
    && (forall i, j :: 0 <= i < j < |ids| ==> t[ids[i]].deletedAt.value >= t[ids[j]].deletedAt.value)
  }

  lemma RootsByDate(t: Table, user: UserId, roots: seq<Id>)
    requires NewestFirst(t, roots) && forall x :: x in roots <==> x in BinRoots(t, user)
    ensures LatestFirst(t, roots)
  {
    assert forall i :: 0 <= i < |roots| ==> roots[i] in roots;
    forall i, j | 0 <= i < j < |roots|
      ensures t[roots[i]].deletedAt.value >= t[roots[j]].deletedAt.value
    {
      assert DeletionDate(t, roots[i]) >= DeletionDate(t, roots[j]);
    }
  }

  ghost function BinRoots(t: Table, user: UserId): set<Id> {
    set x | x in t && t[x].owner == user && IsBinRoot(t, x)
  }

  ghost predicate IsBinRoot(t: Table, x: Id)
    requires x in t
  {
    t[x].Deleted() && (t[x].parent.Some? && t[x].parent.value in t ==> t[t[x].parent.value].Active())
  }

  // ---------------------------------------------------------------- ancestors

  /** The table as a query restricted to active, or to deleted, rows sees it. */
  function Only(t: Table, deleted: bool): Table {
    map x | x in t && t[x].Deleted() == deleted :: t[x]
  }

  /** path leads from a topmost active row down to id, each entry the parent of the next. */
  ghost predicate IsActivePath(t: Table, path: seq<Id>, id: Id) {
    && (id !in t || t[id].Deleted() ==> path == [])
    && (id in t && t[id].Active() ==>
          && path != [] && path[|path| - 1] == id
          && (forall i :: 0 <= i < |path| ==> path[i] in t && t[path[i]].Active())
          && (forall i :: 0 < i < |path| ==> t[path[i]].parent == Some(path[i - 1]))
          && (t[path[0]].parent.Some? ==>
                var p := t[path[0]].parent.value; p !in t || t[p].Deleted()))
  }

  /** The breadcrumb query: None when the active ancestors of `id` never end. */
  method FileAncestors(t: Table, id: Id) returns (r: Option<seq<Id>>)
    ensures r.Some? ==> IsActivePath(t, r.value, id)
    ensures r.Some? ==> forall i :: 0 <= i < |r.value| ==>
      Up(Only(t, false), Some(id), |r.value| - 1 - i) == Some(r.value[i])
    ensures r.None? ==> exists c :: Below(Only(t, false), id, c) && Below(Only(t, false), c, c)
  {
    ghost var act := Only(t, false);
    if id !in t || t[id].Deleted() {
      return Some([]);
    }
    var path := [id];
    var next := t[id].parent;
    while next.Some? && next.value in t && t[next.value].Active()
      invariant 0 < |path| <= |t| + 1
      invariant IsChainTo(t, path, id)
      invariant next == t[path[0]].parent
      invariant forall i :: 0 <= i < |path| ==> Up(act, Some(id), |path| - 1 - i) == Some(path[i])
      decreases |t| + 1 - |path|
    {
      assert Up(act, Some(id), |path| - 1 - 0) == Some(path[0]);
      var top := path[0];
      assert top in t && t[top].Active();
      assert top in act && act[top] == t[top];
      assert Up(act, Some(id), |path|) == ParentOf(act, Some(path[0])) == next;
      if |path| > |t| {
        OnlyIsSmaller(t, false);
        LongChainIsCyclic(act, Some(id), |path|, next.value);
        BelowIntro(act, id, next.value, |path|);
        return None;
      }
      path := [next.value] + path;
      next := t[next.value].parent;
    }
    return Some(path);
  }

  ghost predicate IsChainTo(t: Table, path: seq<Id>, id: Id) {
    && path != [] && path[|path| - 1] == id
    && (forall i :: 0 <= i < |path| ==> path[i] in t && t[path[i]].Active())
    && (forall i :: 0 < i < |path| ==> t[path[i]].parent == Some(path[i - 1]))
  }

  lemma OnlyIsSmaller(t: Table, deleted: bool)
    ensures |Only(t, deleted)| <= |t|
  {
    SubsetSize(Only(t, deleted).Keys, t.Keys);
  }
}
