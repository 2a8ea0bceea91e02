/**
  The `files` table and the forest its parent links describe.

  A table is a map from row id to row.  The columns `is_deleted` and `deleted_at`
  are always written together, so one field carries both.
 */
module FileTable {
  import opened Base

  type Id = int
  type UserId = int

  datatype Row = Row(
    owner: UserId, parent: Option<Id>, name: string, isDir: bool, size: nat,
    hash: string, key: string, deletedAt: Option<int>)
  {
    predicate Deleted() { deletedAt.Some? }
    predicate Active() { deletedAt.None? }
  }

  type Table = map<Id, Row>

  datatype Error =
    | NotFound | InvalidName | ExtensionBlocked | NameConflict | FileTooLarge | InvalidSize
    | ParentMissing | NotADirectory | ParentDeleted
    | MoveIntoSelf | CycleDetected | QueryAborted
    | NothingSelected | NoSuchUser
    | NoSuchSession | IndexOutOfRange | ChunkMissing

  // ---------------------------------------------------------------- ancestors

  function ParentOf(t: Table, x: Option<Id>): Option<Id> {
    if x.Some? && x.value in t then t[x.value].parent else None
  }

  /** The n-th ancestor of x; None above a root. */
  function Up(t: Table, x: Option<Id>, n: nat): Option<Id> {
    if n == 0 then x else ParentOf(t, Up(t, x, n - 1))
  }

  /** r is a proper ancestor of x. */
  ghost predicate Below(t: Table, x: Id, r: Id) {
    exists n: nat :: n > 0 && Up(t, Some(x), n) == Some(r)
  }

  /** No row is its own ancestor. */
  ghost predicate Acyclic(t: Table) {
    forall x :: x in t ==> !Below(t, x, x)
  }

  lemma {:induction false} UpSum(t: Table, x: Option<Id>, m: nat, n: nat)
    ensures Up(t, Up(t, x, m), n) == Up(t, x, m + n)
  {
    if n > 0 {
      UpSum(t, x, m, n - 1);
    }
  }

  lemma {:induction false} UpNone(t: Table, n: nat)
    ensures Up(t, None, n) == None
  {
    if n > 0 {
      UpNone(t, n - 1);
    }
  }

  /** A chain that reaches level n passed through rows of the table below it. */
  lemma UpInTable(t: Table, x: Option<Id>, k: nat, n: nat)
    requires k < n && Up(t, x, n).Some?
    ensures Up(t, x, k).Some? && Up(t, x, k).value in t
  {
  }

  lemma BelowIntro(t: Table, x: Id, r: Id, n: nat)
    requires n > 0 && Up(t, Some(x), n) == Some(r)
    ensures Below(t, x, r) && x in t
  {
    UpInTable(t, Some(x), 0, n);
  }

  lemma BelowTransitive(t: Table, x: Id, y: Id, z: Id)
    requires Below(t, x, y) && Below(t, y, z)
    ensures Below(t, x, z)
  {
    var m: nat :| m > 0 && Up(t, Some(x), m) == Some(y);
    var n: nat :| n > 0 && Up(t, Some(y), n) == Some(z);
    UpSum(t, Some(x), m, n);
  }

  /** x lies below r iff its parent is r or lies below r. */
  lemma BelowStep(t: Table, x: Id, r: Id)
    ensures Below(t, x, r) <==>
            x in t && t[x].parent.Some? && (t[x].parent == Some(r) || Below(t, t[x].parent.value, r))
  {
    var p := ParentOf(t, Some(x));
    assert Up(t, Some(x), 1) == p by {
      assert Up(t, Some(x), 0) == Some(x);
    }
    if Below(t, x, r) {
      var n: nat :| n > 0 && Up(t, Some(x), n) == Some(r);
      BelowIntro(t, x, r, n);
      UpSum(t, Some(x), 1, n - 1);
      UpNone(t, n - 1);
      assert n > 1 ==> Below(t, p.value, r);
    }
    if x in t && p.Some? && Below(t, p.value, r) {
      assert Below(t, x, p.value);
      BelowTransitive(t, x, p.value, r);
    }
  }

  /** Everything above a row that lies on a cycle lies on a cycle too. */
  lemma CycleAbove(t: Table, x: Id, f: Id)
    requires Below(t, x, x) && Below(t, x, f)
    ensures Below(t, f, f) && Below(t, f, x)
  {
    var p: nat :| p > 0 && Up(t, Some(x), p) == Some(x);
    var n: nat :| n > 0 && Up(t, Some(x), n) == Some(f);
    UpSum(t, Some(x), p, n);
    UpSum(t, Some(x), n, p);
    assert Up(t, Some(f), p) == Some(f);
    CycleRepeats(t, x, p, n);
    UpSum(t, Some(x), n, n * p - n + p);
    assert n * p - n + p == (n + 1) * p - n;
    assert Up(t, Some(f), (n + 1) * p - n) == Some(x);
  }

  /** Walking a cycle any number of times comes back to the start. */
  lemma {:induction false} CycleRepeats(t: Table, r: Id, p: nat, n: nat)
    requires p > 0 && Up(t, Some(r), p) == Some(r)
    ensures (n + 1) * p > n && Up(t, Some(r), (n + 1) * p) == Some(r)
  {
    if n > 0 {
      CycleRepeats(t, r, p, n - 1);
      UpSum(t, Some(r), n * p, p);
      assert n * p + p == (n + 1) * p;
    }
  }

  /** Two ancestors of one row are related to each other. */
  lemma AncestorsRelated(t: Table, x: Id, a: Id, b: Id)
    requires Below(t, x, a) && Below(t, x, b)
    ensures a == b || Below(t, a, b) || Below(t, b, a)
  {
    var m: nat :| m > 0 && Up(t, Some(x), m) == Some(a);
    var n: nat :| n > 0 && Up(t, Some(x), n) == Some(b);
    if m < n {
      UpSum(t, Some(x), m, n - m);
    } else if n < m {
      UpSum(t, Some(x), n, m - n);
    }
  }

  /** A chain longer than the table runs into a cycle, and every later node is on it. */
  lemma LongChainIsCyclic(t: Table, x: Option<Id>, n: nat, r: Id)
    requires n > |t| && Up(t, x, n) == Some(r)
    ensures Below(t, r, r)
  {
    var nodes := seq(n, i requires 0 <= i < n => if Up(t, x, i).Some? then Up(t, x, i).value else r);
    forall i | 0 <= i < n
      ensures Up(t, x, i) == Some(nodes[i]) && nodes[i] in t
    {
      UpInTable(t, x, i, n);
    }
    Pigeonhole(nodes, t.Keys);
    var i, j :| 0 <= i < j < n && nodes[i] == nodes[j];
    UpSum(t, x, i, n - i);
    UpSum(t, x, j, n - i);
    UpSum(t, x, n, j - i);
    assert Up(t, Some(r), j - i) == Some(r);
  }

  /** In an acyclic table every chain ends within |t| steps. */
  lemma AcyclicIsGrounded(t: Table, x: Option<Id>)
    requires Acyclic(t)
    ensures Up(t, x, |t| + 1) == None
  {
    var r := Up(t, x, |t| + 1);
    if r.Some? {
      LongChainIsCyclic(t, x, |t| + 1, r.value);
      var p: nat :| p > 0 && Up(t, r, p) == r;
      BelowIntro(t, r.value, r.value, p);
    }
  }

  // -------------------------------------------------------------- descendants

  /** x turns up in round n of the recursive query: its (n+1)-th ancestor is root. */
  ghost predicate AtLevel(t: Table, root: Id, n: nat, x: Id) {
    x in t && Up(t, Some(x), n + 1) == Some(root)
  }

  ghost function Descendants(t: Table, root: Id): set<Id> {
    set x | x in t && Below(t, x, root)
  }

  ghost function DescendantsWhere(t: Table, root: Id, deleted: bool): set<Id> {
    set x | x in t && Below(t, x, root) && t[x].Deleted() == deleted
  }

  lemma FirstLevel(t: Table, root: Id, x: Id)
    ensures AtLevel(t, root, 0, x) <==> x in t && t[x].parent == Some(root)
  {
    assert Up(t, Some(x), 1) == ParentOf(t, Up(t, Some(x), 0));
  }

  lemma NextLevel(t: Table, root: Id, n: nat, x: Id)
    ensures AtLevel(t, root, n + 1, x) <==>
            x in t && t[x].parent.Some? && AtLevel(t, root, n, t[x].parent.value)
  {
    if x in t {
      var p := t[x].parent;
      UpSum(t, Some(x), 1, n + 1);
      assert Up(t, Some(x), 1) == ParentOf(t, Up(t, Some(x), 0)) == p;
      UpNone(t, n + 1);
      if p.Some? && Up(t, p, n + 1) == Some(root) {
        UpInTable(t, p, 0, n + 1);
      }
    }
  }

  /** On a cycle no round of the recursive query is ever empty. */
  lemma CycleFillsLevels(t: Table, root: Id, n: nat) returns (x: Id)
    requires Below(t, root, root)
    ensures AtLevel(t, root, n, x)
  {
    var p: nat :| p > 0 && Up(t, Some(root), p) == Some(root);
    CycleRepeats(t, root, p, n);
    var k := (n + 1) * p - (n + 1);
    UpSum(t, Some(root), k, n + 1);
    UpInTable(t, Some(root), k, k + n + 1);
    x := Up(t, Some(root), k).value;
  }

  /** Once a round is empty, every later one is. */
  lemma {:induction false} EmptyLevelStays(t: Table, root: Id, n: nat, m: nat)
    requires (forall x :: !AtLevel(t, root, n, x)) && n <= m
    ensures forall x :: !AtLevel(t, root, m, x)
  {
    if n < m {
      EmptyLevelStays(t, root, n, m - 1);
      forall x ensures !AtLevel(t, root, m, x) {
        NextLevel(t, root, m - 1, x);
      }
    }
  }

  /** Off a cycle a row turns up in one round only. */
  lemma LevelsDisjoint(t: Table, root: Id, m: nat, n: nat, x: Id)
    requires m < n && AtLevel(t, root, m, x) && AtLevel(t, root, n, x)
    ensures Below(t, root, root)
  {
    UpSum(t, Some(x), m + 1, n - m);
  }
}
