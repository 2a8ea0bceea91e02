/**
  The statements that change the `files` table, and what each does to the forest.
  Insertion of a row is the plain map update `t[id := row]`.
 */
module TableEdits {
  import opened Base
  import opened FileTable

  function SoftDelete(t: Table, ids: set<Id>, now: int): Table {
    map x | x in t :: if x in ids then t[x].(deletedAt := Some(now)) else t[x]
  }

  function Undelete(t: Table, ids: set<Id>): Table {
    map x | x in t :: if x in ids then t[x].(deletedAt := None) else t[x]
  }

  function Remove(t: Table, ids: set<Id>): Table {
    t - ids
  }

  function Reparent(t: Table, ids: set<Id>, target: Option<Id>): Table {
    map x | x in t :: if x in ids then t[x].(parent := target) else t[x]
  }

  function Retitle(t: Table, id: Id, name: string): Table {
    if id in t then t[id := t[id].(name := name)] else t
  }

  // -------------------------------------------------------------- invariants

  /** The parent link of x is empty or leads to a directory of x's owner, active if x is. */
  ghost predicate LinkOk(t: Table, x: Id)
    requires x in t
  {
    t[x].parent.Some? ==>
      var p := t[x].parent.value;
      p in t && t[p].isDir && t[p].owner == t[x].owner && (t[x].Active() ==> t[p].Active())
  }

  ghost predicate Linked(t: Table) {
    forall x :: x in t ==> LinkOk(t, x)
  }

  /** Cycles, which the reversed guard of the move operations lets in, consist of active rows. */
  ghost predicate CyclesAreActive(t: Table) {
    forall x :: x in t && t[x].Deleted() ==> !Below(t, x, x)
  }

  ghost predicate Sound(t: Table) {
    Linked(t) && CyclesAreActive(t)
  }

  /** Every ancestor of an active row is active and owned by the same user. */
  lemma {:induction false} AncestorLinked(t: Table, x: Id, r: Id, n: nat)
    requires Linked(t) && x in t && Up(t, Some(x), n) == Some(r)
    ensures r in t && t[r].owner == t[x].owner && (t[x].Active() ==> t[r].Active())
    ensures n > 0 ==> t[r].isDir
    decreases n
  {
    if n > 0 {
      var q := Up(t, Some(x), n - 1).value;
      AncestorLinked(t, x, q, n - 1);
      assert LinkOk(t, q);
    }
  }

  lemma BelowLinked(t: Table, x: Id, r: Id)
    requires Linked(t) && x in t && Below(t, x, r)
    ensures r in t && t[r].isDir && t[r].owner == t[x].owner && (t[x].Active() ==> t[r].Active())
  {
    var n: nat :| n > 0 && Up(t, Some(x), n) == Some(r);
    AncestorLinked(t, x, r, n);
  }

  // -------------------------------------------------------------- frames

  /** Both tables agree on the parent links inside c, and those links stay inside c. */
  ghost predicate SameLinks(t: Table, t': Table, c: set<Id>) {
    forall y :: y in c ==>
      y in t && y in t' && t[y].parent == t'[y].parent && (t[y].parent.Some? ==> t[y].parent.value in c)
  }

  lemma {:induction false} UpFrame(t: Table, t': Table, c: set<Id>, x: Id, n: nat)
    requires SameLinks(t, t', c) && x in c
    ensures Up(t', Some(x), n) == Up(t, Some(x), n)
    ensures Up(t, Some(x), n).Some? ==> Up(t, Some(x), n).value in c
  {
    if n > 0 {
      UpFrame(t, t', c, x, n - 1);
      var y := Up(t, Some(x), n - 1);
      assert Up(t, Some(x), n) == ParentOf(t, y) && Up(t', Some(x), n) == ParentOf(t', y);
      if y.Some? {
        var v := y.value;
        assert v in c;
        assert t[v].parent == t'[v].parent;
      }
    }
  }

  lemma BelowFrame(t: Table, t': Table, c: set<Id>, x: Id, r: Id)
    requires SameLinks(t, t', c) && x in c
    ensures Below(t', x, r) <==> Below(t, x, r)
    ensures Below(t, x, r) ==> r in c
  {
    forall n: nat
      ensures Up(t', Some(x), n) == Up(t, Some(x), n)
      ensures Up(t, Some(x), n).Some? ==> Up(t, Some(x), n).value in c
    {
      UpFrame(t, t', c, x, n);
    }
  }

  /** The rows reachable upwards from a row on a cycle. */
  ghost function AncestorsOf(t: Table, x: Id): set<Id> {
    set y | y in t && Below(t, x, y)
  }

  lemma CycleIsClosed(t: Table, t': Table, x: Id)
    requires Linked(t') && x in t' && Below(t', x, x)
    requires forall y :: y in AncestorsOf(t', x) ==> y in t && t[y].parent == t'[y].parent
    ensures Below(t, x, x)
  {
    var c := AncestorsOf(t', x);
    forall y | y in c && t'[y].parent.Some?
      ensures t'[y].parent.value in c
    {
      assert LinkOk(t', y);
      BelowStep(t', y, t'[y].parent.value);
      BelowTransitive(t', x, y, t'[y].parent.value);
    }
    assert SameLinks(t', t, c);
    BelowFrame(t', t, c, x, x);
  }

  // -------------------------------------------------------------- insertion

  lemma InsertKeepsForest(t: Table, id: Id, row: Row)
    requires Linked(t) && id !in t && row.Active()
    requires row.parent.Some? ==>
      row.parent.value in t && t[row.parent.value].isDir && t[row.parent.value].owner == row.owner
    ensures forall x, r :: x in t ==> (Below(t[id := row], x, r) <==> Below(t, x, r))
    ensures !Below(t[id := row], id, id)
    ensures Linked(t[id := row]) <==> (row.parent.Some? ==> t[row.parent.value].Active())
    ensures Acyclic(t) ==> Acyclic(t[id := row])
    ensures Sound(t) && (row.parent.Some? ==> t[row.parent.value].Active()) ==> Sound(t[id := row])
  {
    var t' := t[id := row];
    assert SameLinks(t, t', t.Keys) by {
      forall y | y in t ensures LinkOk(t, y) {}
    }
    forall x, r | x in t
      ensures Below(t', x, r) <==> Below(t, x, r)
    {
      BelowFrame(t, t', t.Keys, x, r);
    }
    if Below(t', id, id) {
      BelowStep(t', id, id);
      var p := row.parent.value;
      BelowFrame(t, t', t.Keys, p, id);
      assert false;
    }
    forall x | x in t
      ensures LinkOk(t', x)
    {
      assert LinkOk(t, x);
    }
    if row.parent.Some? ==> t[row.parent.value].Active() {
      assert LinkOk(t', id);
    } else {
      assert !LinkOk(t', id);
    }
  }

  // -------------------------------------------------------------- status changes

  lemma SameForest(t: Table, t': Table)
    requires Linked(t) && t.Keys == t'.Keys
    requires forall x :: x in t ==> t[x].parent == t'[x].parent
    ensures forall x, r :: x in t ==> (Below(t', x, r) <==> Below(t, x, r))
    ensures Acyclic(t) <==> Acyclic(t')
  {
    assert SameLinks(t, t', t.Keys) by {
      forall y | y in t ensures LinkOk(t, y) {}
    }
    forall x, r | x in t
      ensures Below(t', x, r) <==> Below(t, x, r)
    {
      BelowFrame(t, t', t.Keys, x, r);
    }
  }

  /** Deleting the rows `ids` keeps the table sound iff no active child is left under them. */
  lemma SoftDeleteKeepsForest(t: Table, ids: set<Id>, now: int)
    requires Sound(t)
    requires forall x :: x in ids && x in t ==> !Below(t, x, x)
    ensures Acyclic(t) <==> Acyclic(SoftDelete(t, ids, now))
    ensures forall x, r :: x in t ==> (Below(SoftDelete(t, ids, now), x, r) <==> Below(t, x, r))
    ensures Sound(SoftDelete(t, ids, now)) <==>
            forall x :: x in t && t[x].Active() && t[x].parent.Some? && t[x].parent.value in ids ==> x in ids
  {
    var t' := SoftDelete(t, ids, now);
    SameForest(t, t');
    forall x | x in t
      ensures LinkOk(t', x) <==>
              (t[x].Active() && t[x].parent.Some? && t[x].parent.value in ids ==> x in ids)
    {
      assert LinkOk(t, x);
    }
  }

  /** Undeleting the rows `ids` keeps the table sound iff each ends up below an active parent. */
  lemma UndeleteKeepsForest(t: Table, ids: set<Id>)
    requires Sound(t)
    ensures Acyclic(t) <==> Acyclic(Undelete(t, ids))
    ensures forall x, r :: x in t ==> (Below(Undelete(t, ids), x, r) <==> Below(t, x, r))
    ensures Sound(Undelete(t, ids)) <==>
            forall x :: x in ids && x in t && t[x].parent.Some? ==>
              t[x].parent.value in ids || t[t[x].parent.value].Active()
  {
    var t' := Undelete(t, ids);
    SameForest(t, t');
    forall x | x in t
      ensures LinkOk(t', x) <==>
              (x in ids && t[x].parent.Some? ==> t[x].parent.value in ids || t[t[x].parent.value].Active())
    {
      assert LinkOk(t, x);
    }
  }

  lemma RetitleKeepsForest(t: Table, id: Id, name: string)
    requires Sound(t)
    ensures Sound(Retitle(t, id, name))
    ensures Acyclic(t) <==> Acyclic(Retitle(t, id, name))
  {
    var t' := Retitle(t, id, name);
    SameForest(t, t');
    forall x | x in t' ensures LinkOk(t', x) {
      assert LinkOk(t, x);
    }
  }

  /** Removing the rows `ids` keeps the table sound iff no child is left under them. */
  lemma RemoveKeepsForest(t: Table, ids: set<Id>)
    requires Sound(t)
    ensures Sound(Remove(t, ids)) <==>
            forall x :: x in t && t[x].parent.Some? && t[x].parent.value in ids ==> x in ids
    ensures (forall x :: x in t && t[x].parent.Some? && t[x].parent.value in ids ==> x in ids) ==>
            (Acyclic(t) ==> Acyclic(Remove(t, ids))) &&
            forall x, r :: x in Remove(t, ids) ==> (Below(Remove(t, ids), x, r) <==> Below(t, x, r))
  {
    var t' := Remove(t, ids);
    if forall x :: x in t && t[x].parent.Some? && t[x].parent.value in ids ==> x in ids {
      forall x | x in t' ensures LinkOk(t', x) {
        assert LinkOk(t, x);
      }
      assert SameLinks(t, t', t'.Keys) by {
        forall y | y in t' ensures LinkOk(t', y) {}
      }
      forall x, r | x in t'
        ensures Below(t', x, r) <==> Below(t, x, r)
      {
        BelowFrame(t, t', t'.Keys, x, r);
      }
    } else {
      var x :| x in t && t[x].parent.Some? && t[x].parent.value in ids && x !in ids;
      assert !LinkOk(t', x);
    }
  }

  // -------------------------------------------------------------- moves

  /** Re-linking rows to the root, or active rows to an active directory, keeps the table sound. */
  lemma ReparentKeepsSound(t: Table, ids: set<Id>, target: Option<Id>)
    requires Sound(t)
    requires target.Some? ==> target.value in t && t[target.value].isDir && t[target.value].Active()
    requires target.Some? ==>
      forall x :: x in ids && x in t ==> t[x].Active() && t[x].owner == t[target.value].owner
    ensures Sound(Reparent(t, ids, target))
  {
    var t' := Reparent(t, ids, target);
    forall x | x in t' ensures LinkOk(t', x) {
      assert LinkOk(t, x);
    }
    forall x | x in t' && t'[x].Deleted()
      ensures !Below(t', x, x)
    {
      if Below(t', x, x) {
        if y :| y in AncestorsOf(t', x) && y in ids {
          CycleAbove(t', x, y);
          BelowStep(t', y, x);
          BelowLinked(t', y, x);
          assert false;
        }
        CycleIsClosed(t, t', x);
        assert false;
      }
    }
  }

  /** The first ancestor-or-self of x that belongs to ids. */
  lemma {:induction false} FirstHit(t: Table, x: Id, ids: set<Id>, n: nat) returns (k: nat)
    requires Up(t, Some(x), n).Some? && Up(t, Some(x), n).value in ids
    ensures k <= n && Up(t, Some(x), k).Some? && Up(t, Some(x), k).value in ids
    ensures forall j: nat :: j < k ==> Up(t, Some(x), j).Some? && Up(t, Some(x), j).value !in ids
  {
    if j: nat :| j < n && Up(t, Some(x), j).Some? && Up(t, Some(x), j).value in ids {
      k := FirstHit(t, x, ids, j);
    } else {
      k := n;
      forall j: nat | j < n
        ensures Up(t, Some(x), j).Some?
      {
        UpInTable(t, Some(x), j, n);
      }
    }
  }

  /** Both tables have the same parent links outside ids. */
  ghost predicate AgreeOutside(t: Table, t': Table, ids: set<Id>) {
    forall y: Option<Id> :: y.Some? && y.value !in ids ==> ParentOf(t', y) == ParentOf(t, y)
  }

  /** A climb that meets no row of ids is the same in both tables. */
  lemma {:induction false} UpUntilHit(t: Table, t': Table, ids: set<Id>, x: Id, k: nat)
    requires AgreeOutside(t, t', ids)
    requires forall j: nat :: j < k && Up(t, Some(x), j).Some? ==> Up(t, Some(x), j).value !in ids
    ensures Up(t', Some(x), k) == Up(t, Some(x), k)
  {
    if k > 0 {
      UpUntilHit(t, t', ids, x, k - 1);
      var y := Up(t, Some(x), k - 1);
      assert ParentOf(t', y) == ParentOf(t, y);
    }
  }

  /**
    Moving the rows `ids` under `target` keeps the forest acyclic exactly when none
    of them is the target itself or one of its ancestors.
   */
  lemma ReparentAcyclicIff(t: Table, ids: set<Id>, target: Option<Id>)
    requires Acyclic(t) && ids <= t.Keys
    ensures Acyclic(Reparent(t, ids, target)) <==>
            (target.Some? ==> forall y :: y in ids ==> y != target.value && !Below(t, target.value, y))
  {
    if target.Some? && exists y :: y in ids && (y == target.value || Below(t, target.value, y)) {
      var y :| y in ids && (y == target.value || Below(t, target.value, y));
      MoveUnderSelfMakesCycle(t, ids, target.value, y);
    } else {
      forall x | x in t
        ensures !Below(Reparent(t, ids, target), x, x)
      {
        MoveElsewhereMakesNoCycle(t, ids, target, x);
      }
    }
  }

  lemma MoveUnderSelfMakesCycle(t: Table, ids: set<Id>, target: Id, y: Id)
    requires ids <= t.Keys && y in ids && (y == target || Below(t, target, y))
    ensures !Acyclic(Reparent(t, ids, Some(target)))
  {
    var t' := Reparent(t, ids, Some(target));
    var n: nat :| Up(t, Some(target), n) == Some(y) by {
      assert Up(t, Some(target), 0) == Some(target);
    }
    var k := FirstHit(t, target, ids, n);
    UpUntilHit(t, t', ids, target, k);
    var z := Up(t, Some(target), k).value;
    assert k > 0 ==> Below(t', target, z);
    BelowStep(t', z, z);
    assert Below(t', z, z);
  }

  lemma ReachedIsAbove(t: Table, x: Id, n: nat, r: Id)
    requires Up(t, Some(x), n) == Some(r)
    ensures r == x || Below(t, x, r)
  {
    assert n == 0 ==> r == x;
  }

  lemma MoveElsewhereMakesNoCycle(t: Table, ids: set<Id>, target: Option<Id>, x: Id)
    requires Acyclic(t) && ids <= t.Keys && x in t
    requires target.Some? ==> forall y :: y in ids ==> y != target.value && !Below(t, target.value, y)
    ensures !Below(Reparent(t, ids, target), x, x)
  {
    var t' := Reparent(t, ids, target);
    if p: nat :| p > 0 && Up(t', Some(x), p) == Some(x) {
      if j: nat :| j < p && Up(t', Some(x), j).Some? && Up(t', Some(x), j).value in ids {
        var y := Up(t', Some(x), j).value;
        assert j > 0 ==> Below(t', x, y);
        assert Below(t', x, x);
        if j > 0 {
          CycleAbove(t', x, y);
        }
        assert Up(t', Some(x), 0) == Some(x);
        BelowStep(t', y, y);
        TargetChainUnchanged(t, ids, target.value, y);
      } else {
        UpUntilHit(t', t, ids, x, p);
        assert Below(t, x, x);
      }
      assert false;
    }
  }

  /** A move that spares the target's own ancestors does not put the target below a moved row. */
  lemma TargetChainUnchanged(t: Table, ids: set<Id>, target: Id, y: Id)
    requires y in ids
    requires forall z :: z in ids ==> z != target && !Below(t, target, z)
    ensures !Below(Reparent(t, ids, Some(target)), target, y)
  {
    var t' := Reparent(t, ids, Some(target));
    if n: nat :| n > 0 && Up(t', Some(target), n) == Some(y) {
      var k := FirstHit(t', target, ids, n);
      var z := Up(t', Some(target), k).value;
      UpUntilHit(t', t, ids, target, k);
      ReachedIsAbove(t, target, k, z);
      assert false;
    }
  }

  // -------------------------------------------------------------- cycles, in any table

  /** Dropping rows and links closes no cycle. */
  lemma FewerLinksNoCycle(t: Table, t': Table)
    requires Acyclic(t)
    requires forall x :: x in t' && t'[x].parent.Some? ==> x in t && t[x].parent == t'[x].parent
    ensures Acyclic(t')
  {
    forall x | x in t' ensures !Below(t', x, x) {
      if n: nat :| n > 0 && Up(t', Some(x), n) == Some(x) {
        UpInMore(t, t', x, n);
        BelowIntro(t, x, x, n);
        assert false;
      }
    }
  }

  lemma {:induction false} UpInMore(t: Table, t': Table, x: Id, n: nat)
    requires forall y :: y in t' && t'[y].parent.Some? ==> y in t && t[y].parent == t'[y].parent
    ensures Up(t', Some(x), n).Some? ==> Up(t, Some(x), n) == Up(t', Some(x), n)
  {
    if n > 0 {
      UpInMore(t, t', x, n - 1);
    }
  }

  /** A row under an id that no link leads to closes no cycle. */
  lemma NewRowNoCycle(t: Table, id: Id, row: Row)
    requires Acyclic(t) && id !in t && row.parent != Some(id)
    requires forall x :: x in t ==> t[x].parent != Some(id)
    ensures Acyclic(t[id := row])
  {
    var t' := t[id := row];
    forall x | x in t' ensures !Below(t', x, x) {
      if n: nat :| n > 0 && Up(t', Some(x), n) == Some(x) {
        forall j: nat | Up(t', Some(x), j).Some? && j > 0 ensures Up(t', Some(x), j).value != id {
          var y := Up(t', Some(x), j - 1).value;
          assert y in t' && t'[y].parent == Up(t', Some(x), j);
          assert y != id ==> t[y].parent != Some(id);
        }
        assert Up(t', Some(x), 0) == Some(x);
        assert AgreeOutside(t', t, {id});
        UpUntilHit(t', t, {id}, x, n);
        BelowIntro(t, x, x, n);
        assert false;
      }
    }
  }
}
