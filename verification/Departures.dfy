/** Concrete inputs on which the code departs from what it sets out to do. */
module Departures {
  import opened Base
  import opened FileTable
  import opened TableEdits
  import opened Sizes
  import opened Names
  import opened FileOps
  import opened Structure
  import opened Accounting
  import opened SiblingNames
  import opened Blobs

  function Dir(parent: Option<Id>, name: string): Row {
    Row(1, parent, name, true, 0, "", "", None)
  }

  function File(parent: Option<Id>, name: string, size: nat, key: string): Row {
    Row(1, parent, name, false, size, key, key, None)
  }

  function Gone(row: Row): Row {
    row.(deletedAt := Some(0))
  }

  function Shop(rows: Table, used: nat): State {
    State(rows, 10, map[1 := used], map["k" := []], map[])
  }

  function Config(overwrite: bool, digest: Bytes -> string): Env {
    Env(100, 0, overwrite, [], [], digest)
  }

  /** Rows 1, 2, 3: a directory, one inside it, one inside that. */
  function Nest(): Table {
    map[1 := Dir(None, "a"), 2 := Dir(Some(1), "b"), 3 := Dir(Some(2), "c")]
  }

  lemma NestLinks(x: Id)
    requires x in Nest()
    ensures !Below(Nest(), 1, x)
    ensures Below(Nest(), 2, x) <==> x == 1
    ensures Below(Nest(), 3, x) <==> x == 1 || x == 2
  {
    var t := Nest();
    BelowStep(t, 1, x);
    BelowStep(t, 2, x);
    BelowStep(t, 3, x);
  }

  /** Moving a directory into its own subdirectory is accepted, and closes a cycle. */
  lemma MoveIntoOwnSubtreeAccepted()
    ensures MoveFile(Shop(Nest(), 0), 1, Some(2), 1).outcome == Done
    ensures Acyclic(Nest()) && !Acyclic(MoveFile(Shop(Nest(), 0), 1, Some(2), 1).state.rows)
  {
    var t := Nest();
    forall x | x in t ensures !Below(t, x, x) {
      NestLinks(x);
    }
    NestLinks(1);
    NestLinks(2);
    assert MoveFile(Shop(t, 0), 1, Some(2), 1).outcome == Done;
    MoveUnderSelfMakesCycle(t, {1}, 2, 1);
  }

  /** Moving a directory up to its grandparent, which is harmless, is refused as a cycle. */
  lemma MoveUpRefused()
    ensures MoveFile(Shop(Nest(), 0), 3, Some(1), 1).outcome == Failed(CycleDetected)
    ensures Acyclic(Reparent(Nest(), {3}, Some(1)))
  {
    var t := Nest();
    forall x | x in t ensures !Below(t, x, x) {
      NestLinks(x);
    }
    NestLinks(1);
    NestLinks(3);
    assert 3 in DescendantsWhere(t, 1, false);
    ReparentAcyclicIff(t, {3}, Some(1));
  }

  /** A batch does so too. */
  lemma BatchMoveIntoOwnSubtreeAccepted()
    ensures BatchMove(Shop(Nest(), 0), [1], Some(2), 1).outcome == Done
    ensures Acyclic(Nest()) && !Acyclic(BatchMove(Shop(Nest(), 0), [1], Some(2), 1).state.rows)
  {
    var t := Nest();
    forall x | x in t ensures !Below(t, x, x) {
      NestLinks(x);
    }
    NestLinks(1);
    NestLinks(2);
    assert [1][..0] == [];
    assert MoveCheck(t, 1, Some(2), 1).None?;
    assert FirstMoveError(t, [1], Some(2), 1).None?;
    assert IdSet([1]) == {1};
    MoveUnderSelfMakesCycle(t, {1}, 2, 1);
  }

  lemma OneActive(t: Table, x: Id)
    requires x in t && t[x].owner == 1 && t[x].Active()
    requires forall y :: y in t && y != x ==> t[y].Deleted() || t[y].isDir
    ensures ActiveSum(t, 1) == Weight(t, x)
  {
    SizeSumWithout(t, ActiveOf(t, 1), x);
    SizeSumZero(t, ActiveOf(t, 1) - {x});
  }

  /** One file of a byte is deleted, another active: purging the first zeroes the account. */
  lemma PurgeChargesTwice()
    ensures var s := Shop(map[1 := Gone(File(None, "x", 1, "k")), 2 := File(None, "y", 1, "k")], 1);
            && ActiveSum(s.rows, 1) == s.used[1] == 1
            && PermanentDeleteFile(s, 1, 1).state.used[1] == 0
            && ActiveSum(PermanentDeleteFile(s, 1, 1).state.rows, 1) == 1
  {
    var s := Shop(map[1 := Gone(File(None, "x", 1, "k")), 2 := File(None, "y", 1, "k")], 1);
    OneActive(s.rows, 2);
    SizeSumOne(s.rows, 1);
    SumAfterRemove(s.rows, {1}, 1);
    assert Subtree(s.rows, 1, true) == {1};
  }

  /** Deleting the same file a second time takes its byte off the account again. */
  lemma DeletingTwiceChargesTwice()
    ensures var s := Shop(map[1 := Gone(File(None, "x", 1, "k")), 2 := File(None, "y", 1, "k")], 1);
            && ActiveSum(s.rows, 1) == s.used[1] == 1
            && DeleteFile(s, 1, 1, 5).outcome == Done
            && DeleteFile(s, 1, 1, 5).state.used[1] == 0
  {
    var s := Shop(map[1 := Gone(File(None, "x", 1, "k")), 2 := File(None, "y", 1, "k")], 1);
    OneActive(s.rows, 2);
    SizeSumOne(s.rows, 1);
    assert Subtree(s.rows, 1, false) == {1};
  }

  /** A directory selected together with a file inside it: the file's byte is taken off twice. */
  lemma OverlappingSelectionChargesTwice()
    ensures var s := Shop(map[1 := Dir(None, "a"), 2 := File(Some(1), "x", 1, "k"), 3 := File(None, "y", 1, "k")], 2);
            var r := BatchDelete(s, [1, 2], 1, 5);
            && ActiveSum(s.rows, 1) == s.used[1] == 2
            && r.outcome == Done && r.state.used[1] == 0 && ActiveSum(r.state.rows, 1) == 1
  {
    var s := Shop(map[1 := Dir(None, "a"), 2 := File(Some(1), "x", 1, "k"), 3 := File(None, "y", 1, "k")], 2);
    var t := s.rows;
    OverlapSubtrees(t);
    SizeSumOne(t, 2);
    SizeSumOne(t, 3);
    SizeSumWithout(t, {1, 2}, 1);
    assert {1, 2} - {1} == {2};
    assert ActiveOf(t, 1) == {1, 2, 3};
    SizeSumWithout(t, {1, 2, 3}, 3);
    assert {1, 2, 3} - {3} == {1, 2};
    assert [1, 2][..1] == [1] && [1][..0] == [];
    assert ActiveSubtrees(t, [1]) == {1, 2} && CountedBytes(t, [1]) == 1 && FirstDeleteError(t, [1], 1).None?;
    assert ActiveSubtrees(t, [1, 2]) == {1, 2} && CountedBytes(t, [1, 2]) == 2 && FirstDeleteError(t, [1, 2], 1).None?;
    SumAfterSoftDelete(t, {1, 2}, 5, 1);
    assert {1, 2} * ActiveOf(t, 1) == {1, 2};
  }

  lemma OverlapSubtrees(t: Table)
    requires t == map[1 := Dir(None, "a"), 2 := File(Some(1), "x", 1, "k"), 3 := File(None, "y", 1, "k")]
    ensures !Below(t, 1, 1) && Subtree(t, 1, false) == {1, 2} && Subtree(t, 2, false) == {2}
  {
    BelowStep(t, 1, 1);
    BelowStep(t, 2, 1);
    BelowStep(t, 3, 1);
    forall x ensures x in Subtree(t, 1, false) <==> x == 1 || x == 2 {}
  }

  /** An automatic cleaning charges the bytes of an expired file a second time. */
  lemma CleaningChargesTwice()
    ensures var s := Shop(map[1 := Gone(File(None, "x", 1, "k")), 2 := File(None, "y", 1, "k")], 1);
            var s' := AutoCleanRecycle(s, 9).state;
            && ActiveSum(s.rows, 1) == s.used[1] == 1
            && s'.used[1] == 0 && ActiveSum(s'.rows, 1) == 1
  {
    var s := Shop(map[1 := Gone(File(None, "x", 1, "k")), 2 := File(None, "y", 1, "k")], 1);
    OneActive(s.rows, 2);
    SizeSumOne(s.rows, 1);
    SumAfterRemove(s.rows, {1}, 1);
    assert Expired(s.rows, 9, 1);
    assert Swept(s.rows, 9) == {1};
    assert OwnedIn(s.rows, {1}, 1) == {1};
  }

  /** Restoring a file into a directory that has since got another file of the same name. */
  lemma RestoreMakesTwins()
    ensures var s := Shop(map[1 := Gone(File(None, "x", 0, "k")), 2 := File(None, "x", 0, "k")], 0);
            && DistinctNames(s.rows) && RestoreFile(s, 1, 1).outcome == Done
            && !DistinctNames(RestoreFile(s, 1, 1).state.rows)
  {
    var s := Shop(map[1 := Gone(File(None, "x", 0, "k")), 2 := File(None, "x", 0, "k")], 0);
    var t' := RestoreFile(s, 1, 1).state.rows;
    assert Subtree(s.rows, 1, true) == {1};
    assert Clash(t', 1, 2);
  }

  /**
    A file restored with its directory meets an active sibling of its name: one that a late
    completion put into the directory while that was deleted.
   */
  lemma RestoreMakesTwinsBelow()
    ensures var s := Shop(map[1 := Gone(Dir(None, "a")), 2 := Gone(File(Some(1), "x", 0, "k")), 3 := File(Some(1), "x", 0, "k")], 0);
            && Tidy(s) && DistinctNames(s.rows) && RestoreFile(s, 1, 1).outcome == Done
            && !DistinctNames(RestoreFile(s, 1, 1).state.rows)
  {
    var s := Shop(map[1 := Gone(Dir(None, "a")), 2 := Gone(File(Some(1), "x", 0, "k")), 3 := File(Some(1), "x", 0, "k")], 0);
    BelowStep(s.rows, 1, 1);
    BelowStep(s.rows, 2, 1);
    assert 2 in Subtree(s.rows, 1, true);
    assert Clash(RestoreFile(s, 1, 1).state.rows, 2, 3);
  }

  /** A chunked upload with new content is completed under a name that is taken by then. */
  lemma CompletionMakesTwins(digest: Bytes -> string)
    requires digest([]) != "k"
    ensures var s := Shop(map[1 := File(None, "x", 0, "k")], 0).(
                       sessions := map["u" := Session(1, None, "x", 1, 1, 1, map[0 := []])]);
            var r := CompleteUpload(Config(false, digest), s, "u", 1, "n", None);
            && HashLookup(s.rows, digest([]), None) && DistinctNames(s.rows)
            && r.outcome.Created? && !DistinctNames(r.state.rows)
  {
    var s := Shop(map[1 := File(None, "x", 0, "k")], 0).(
               sessions := map["u" := Session(1, None, "x", 1, 1, 1, map[0 := []])]);
    var r := CompleteUpload(Config(false, digest), s, "u", 1, "n", None);
    assert Clash(r.state.rows, 1, 10);
  }

  /** Two files of one name, moved together from two directories into a third place. */
  lemma BatchMoveMakesTwins()
    ensures var s := Shop(map[1 := Dir(None, "a"), 2 := Dir(None, "b"),
                              3 := File(Some(1), "x", 0, "k"), 4 := File(Some(2), "x", 0, "k")], 0);
            && DistinctNames(s.rows) && BatchMove(s, [3, 4], None, 1).outcome == Done
            && !DistinctNames(BatchMove(s, [3, 4], None, 1).state.rows)
  {
    var s := Shop(map[1 := Dir(None, "a"), 2 := Dir(None, "b"),
                      3 := File(Some(1), "x", 0, "k"), 4 := File(Some(2), "x", 0, "k")], 0);
    assert "a" != "x" && "b" != "x" && "a" != "b" by {
      assert "a"[0] != "x"[0] && "b"[0] != "x"[0] && "a"[0] != "b"[0];
    }
    assert MoveCheck(s.rows, 3, None, 1).None? && MoveCheck(s.rows, 4, None, 1).None?;
    assert [3, 4][..1] == [3] && [3][..0] == [];
    assert FirstMoveError(s.rows, [3], None, 1).None?;
    assert FirstMoveError(s.rows, [3, 4], None, 1).None?;
    var t' := BatchMove(s, [3, 4], None, 1).state.rows;
    assert 3 in IdSet([3, 4]) && 4 in IdSet([3, 4]);
    assert Clash(t', 3, 4);
  }

  /** Two deleted copies purged together: no row holds the blob any more, yet it stays. */
  lemma PurgingTwoCopiesStrandsBlob()
    ensures var s := Shop(map[1 := Gone(Dir(None, "a")), 2 := Gone(File(Some(1), "x", 0, "k")),
                              3 := Gone(File(Some(1), "y", 0, "k"))], 0);
            var s' := PermanentDeleteFile(s, 1, 1).state;
            PermanentDeleteFile(s, 1, 1).outcome == Done && s'.rows == map[] && "k" in s'.blobs
  {
    var s := Shop(map[1 := Gone(Dir(None, "a")), 2 := Gone(File(Some(1), "x", 0, "k")),
                      3 := Gone(File(Some(1), "y", 0, "k"))], 0);
    var t := s.rows;
    BelowStep(t, 1, 1);
    BelowStep(t, 2, 1);
    BelowStep(t, 3, 1);
    forall x ensures x in Subtree(t, 1, true) <==> x == 1 || x == 2 || x == 3 {}
    assert Remove(t, Subtree(t, 1, true)) == map[];
    assert "k"[0] == 'k' && "k" != "";
    assert {2, 3} <= Holders(t, "k");
    SubsetSize({2, 3}, Holders(t, "k"));
    assert "k" !in FreedKeys(t, Subtree(t, 1, true));
  }

  /** Two expired copies cleaned together: the same. */
  lemma CleaningTwoCopiesStrandsBlob()
    ensures var s := Shop(map[2 := Gone(File(None, "x", 0, "k")), 3 := Gone(File(None, "y", 0, "k"))], 0);
            var s' := AutoCleanRecycle(s, 9).state;
            s'.rows == map[] && "k" in s'.blobs
  {
    var s := Shop(map[2 := Gone(File(None, "x", 0, "k")), 3 := Gone(File(None, "y", 0, "k"))], 0);
    var t := s.rows;
    assert Expired(t, 9, 2) && Expired(t, 9, 3);
    assert Remove(t, Swept(t, 9)) == map[];
    assert "k"[0] == 'k' && "k" != "";
    assert {2, 3} <= Holders(t, "k");
    SubsetSize({2, 3}, Holders(t, "k"));
    assert "k" !in FreedKeys(t, FilesIn(t, Swept(t, 9)));
  }

  /** Overwriting a directory deletes its row alone and strands its active children. */
  lemma OverwriteStrandsChildren(digest: Bytes -> string)
    ensures var s := Shop(map[1 := Dir(None, "a"), 2 := Dir(Some(1), "c")], 0);
            var r := UploadFile(Config(true, digest), s, "a", [], None, 1, "n", None, Some(1), 5);
            && HashLookup(s.rows, digest([]), None) && NameLookup(s.rows, None, 1, "a", Some(1))
            && Linked(s.rows) && r.outcome.Created? && !Linked(r.state.rows)
  {
    var s := Shop(map[1 := Dir(None, "a"), 2 := Dir(Some(1), "c")], 0);
    var r := UploadFile(Config(true, digest), s, "a", [], None, 1, "n", None, Some(1), 5);
    assert Named(s.rows, None, 1, "a", 1);
    assert !LinkOk(r.state.rows, 2);
  }

  /** A chunked upload completed after its directory was deleted lands under the deleted directory. */
  lemma LateCompletionLandsInBin(digest: Bytes -> string)
    ensures var s := Shop(map[1 := Gone(Dir(None, "a"))], 0).(
                       sessions := map["u" := Session(1, Some(1), "x", 1, 1, 1, map[0 := []])]);
            var r := CompleteUpload(Config(false, digest), s, "u", 1, "n", None);
            && HashLookup(s.rows, digest([]), None) && Linked(s.rows)
            && r.outcome.Created? && !Linked(r.state.rows)
  {
    var s := Shop(map[1 := Gone(Dir(None, "a"))], 0).(
               sessions := map["u" := Session(1, Some(1), "x", 1, 1, 1, map[0 := []])]);
    var r := CompleteUpload(Config(false, digest), s, "u", 1, "n", None);
    assert !LinkOk(r.state.rows, 10);
  }

  /** A session announced as one byte, whose only chunk arrived empty: the file claims a byte it does not have. */
  lemma ShortChunkMisstatesSize(digest: Bytes -> string)
    ensures var s := Shop(map[], 0).(sessions := map["u" := Session(1, None, "x", 1, 1, 1, map[0 := []])]);
            var r := CompleteUpload(Config(false, digest), s, "u", 1, "n", None);
            && HashLookup(s.rows, digest([]), None) && r.outcome == Created(10)
            && 10 in r.state.rows && r.state.rows[10].size == 1 && Read(r.state, 10) == []
  {
    var s := Shop(map[], 0).(sessions := map["u" := Session(1, None, "x", 1, 1, 1, map[0 := []])]);
    var r := CompleteUpload(Config(false, digest), s, "u", 1, "n", None);
    assert r.outcome.Created?;
  }
}
