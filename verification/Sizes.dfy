/** Sums of file sizes, the quantity `storage_used` is meant to track. */
module Sizes {
  import opened Base
  import opened FileTable
  import opened TableEdits

  /** What a row weighs in storage accounting: directories weigh nothing. */
  function Weight(t: Table, x: Id): nat
    requires x in t
  {
    if t[x].isDir then 0 else t[x].size
  }

  ghost function SizeSum(t: Table, ids: set<Id>): nat
    requires ids <= t.Keys
  {
    HasElement(ids);
    if ids == {} then 0
    else
      var x :| x in ids;
      Weight(t, x) + SizeSum(t, ids - {x})
  }

  ghost function ActiveOf(t: Table, u: UserId): set<Id> {
    set x | x in t && t[x].owner == u && t[x].Active()
  }

  ghost function DeletedOf(t: Table, u: UserId): set<Id> {
    set x | x in t && t[x].owner == u && t[x].Deleted()
  }

  /** The sum of u's active file sizes. */
  ghost function ActiveSum(t: Table, u: UserId): nat {
    SizeSum(t, ActiveOf(t, u))
  }

  /** The choice made inside SizeSum does not matter. */
  lemma {:induction false} SizeSumWithout(t: Table, ids: set<Id>, x: Id)
    requires ids <= t.Keys && x in ids
    ensures SizeSum(t, ids) == Weight(t, x) + SizeSum(t, ids - {x})
    decreases |ids|
  {
    HasElement(ids);
    var y :| y in ids && SizeSum(t, ids) == Weight(t, y) + SizeSum(t, ids - {y});
    if y != x {
      SizeSumWithout(t, ids - {y}, x);
      SizeSumWithout(t, ids - {x}, y);
      assert ids - {y} - {x} == ids - {x} - {y};
    }
  }

  lemma {:induction false} SizeSumUnion(t: Table, a: set<Id>, b: set<Id>)
    requires a <= t.Keys && b <= t.Keys && a !! b
    ensures SizeSum(t, a + b) == SizeSum(t, a) + SizeSum(t, b)
    decreases |a|
  {
    HasElement(a);
    if a == {} {
      assert a + b == b;
    } else {
      var x :| x in a;
      SizeSumWithout(t, a, x);
      SizeSumWithout(t, a + b, x);
      SizeSumUnion(t, a - {x}, b);
      assert a + b - {x} == (a - {x}) + b;
    }
  }

  lemma SizeSumSplit(t: Table, a: set<Id>, b: set<Id>)
    requires b <= t.Keys
    ensures SizeSum(t, b) == SizeSum(t, b - a) + SizeSum(t, a * b)
  {
    SizeSumUnion(t, b - a, a * b);
    assert b == (b - a) + a * b;
  }

  lemma {:induction false} SizeSumFrame(t: Table, t': Table, ids: set<Id>)
    requires ids <= t.Keys && ids <= t'.Keys
    requires forall x :: x in ids ==> Weight(t, x) == Weight(t', x)
    ensures SizeSum(t, ids) == SizeSum(t', ids)
    decreases |ids|
  {
    HasElement(ids);
    if ids != {} {
      var x :| x in ids;
      SizeSumWithout(t, ids, x);
      SizeSumWithout(t', ids, x);
      SizeSumFrame(t, t', ids - {x});
    }
  }

  /** Only directories and empty files sum up to nothing. */
  lemma {:induction false} SizeSumZero(t: Table, ids: set<Id>)
    requires ids <= t.Keys
    ensures SizeSum(t, ids) == 0 <==> forall x :: x in ids ==> Weight(t, x) == 0
    decreases |ids|
  {
    HasElement(ids);
    if ids != {} {
      var x :| x in ids;
      SizeSumWithout(t, ids, x);
      SizeSumZero(t, ids - {x});
    }
  }

  lemma SizeSumOne(t: Table, x: Id)
    requires x in t
    ensures SizeSum(t, {x}) == Weight(t, x)
  {
  }

  // -------------------------------------------------------------- effect of each edit

  lemma SumAfterInsert(t: Table, id: Id, row: Row, u: UserId)
    requires id !in t && row.Active()
    ensures ActiveSum(t[id := row], u) ==
            ActiveSum(t, u) + if u == row.owner && !row.isDir then row.size else 0
  {
    var t' := t[id := row];
    SizeSumFrame(t, t', ActiveOf(t, u));
    if u == row.owner {
      assert ActiveOf(t', u) == ActiveOf(t, u) + {id};
      SizeSumUnion(t', ActiveOf(t, u), {id});
      SizeSumOne(t', id);
    } else {
      assert ActiveOf(t', u) == ActiveOf(t, u);
    }
  }

  lemma SumAfterSoftDelete(t: Table, ids: set<Id>, now: int, u: UserId)
    ensures ActiveSum(SoftDelete(t, ids, now), u) == ActiveSum(t, u) - SizeSum(t, ids * ActiveOf(t, u))
    ensures SizeSum(t, ids * ActiveOf(t, u)) <= ActiveSum(t, u)
  {
    var t' := SoftDelete(t, ids, now);
    SizeSumSplit(t, ids, ActiveOf(t, u));
    forall x ensures x in ActiveOf(t', u) <==> x in ActiveOf(t, u) - ids {}
    assert ActiveOf(t', u) == ActiveOf(t, u) - ids;
    SizeSumFrame(t, t', ActiveOf(t, u) - ids);
  }

  lemma SumAfterUndelete(t: Table, ids: set<Id>, u: UserId)
    ensures ActiveSum(Undelete(t, ids), u) == ActiveSum(t, u) + SizeSum(t, ids * DeletedOf(t, u))
  {
    var t' := Undelete(t, ids);
    var back := ids * DeletedOf(t, u);
    forall x ensures x in ActiveOf(t', u) <==> x in ActiveOf(t, u) + back {}
    assert ActiveOf(t', u) == ActiveOf(t, u) + back;
    forall x ensures x in ActiveOf(t, u) ==> x !in back {}
    SizeSumUnion(t, ActiveOf(t, u), ids * DeletedOf(t, u));
    SizeSumFrame(t, t', ActiveOf(t', u));
  }

  lemma SumAfterRemove(t: Table, ids: set<Id>, u: UserId)
    requires forall x :: x in ids && x in t ==> t[x].Deleted()
    ensures ActiveSum(Remove(t, ids), u) == ActiveSum(t, u)
  {
    var t' := Remove(t, ids);
    forall x ensures x in ActiveOf(t', u) <==> x in ActiveOf(t, u) {}
    assert ActiveOf(t', u) == ActiveOf(t, u);
    SizeSumFrame(t, t', ActiveOf(t, u));
  }

  lemma SumUnchanged(t: Table, t': Table, u: UserId)
    requires t.Keys == t'.Keys
    requires forall x :: x in t ==>
      t[x].owner == t'[x].owner && t[x].deletedAt == t'[x].deletedAt && Weight(t, x) == Weight(t', x)
    ensures ActiveSum(t', u) == ActiveSum(t, u)
  {
    forall x ensures x in ActiveOf(t', u) <==> x in ActiveOf(t, u) {}
    assert ActiveOf(t', u) == ActiveOf(t, u);
    SizeSumFrame(t, t', ActiveOf(t, u));
  }
}
