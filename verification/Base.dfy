/** Values shared by every part of the model. */
module Base {

  datatype Option<+T> = None | Some(value: T)

  datatype Result<+T, +E> = Ok(value: T) | Err(error: E)

  /** No element of xs occurs twice. */
  ghost predicate NoDuplicates<T>(xs: seq<T>) {
    forall i, j :: 0 <= i < j < |xs| ==> xs[i] != xs[j]
  }

  lemma HasElement(s: set<int>)
    ensures s == {} || exists x :: x in s
  {
    if forall x :: x !in s {
      assert s == {};
    }
  }

  lemma HasKey(s: set<string>)
    ensures s == {} || exists k :: k in s
  {
  }

  lemma EmptyDifference(a: set<int>, b: set<int>)
    ensures a - b == {} <==> a <= b
  {
    if a - b == {} {
      forall x | x in a ensures x in b {
        assert x !in a - b;
      }
    }
  }

  lemma SubsetSize<T>(a: set<T>, b: set<T>)
    requires a <= b
    ensures |a| <= |b|
  {
    assert b == a + (b - a);
  }

  /** A sequence longer than the set it is drawn from repeats an element. */
  lemma {:induction false} Pigeonhole<T>(xs: seq<T>, s: set<T>)
    requires forall x :: x in xs ==> x in s
    requires |xs| > |s|
    ensures exists i, j :: 0 <= i < j < |xs| && xs[i] == xs[j]
  {
    var n := |xs| - 1;
    var rest, last := xs[..n], xs[n];
    if last in rest {
      var i :| 0 <= i < n && rest[i] == last;
      assert xs[i] == xs[n];
    } else {
      Pigeonhole(rest, s - {last});
      var i, j :| 0 <= i < j < n && rest[i] == rest[j];
      assert xs[i] == xs[j];
    }
  }

  /** The two sequences list the same set without repetition, so they are equally long. */
  lemma {:induction false} SizeOfListing<T>(xs: seq<T>, s: set<T>)
    requires NoDuplicates(xs)
    requires forall x :: x in xs <==> x in s
    ensures |xs| == |s|
  {
    if xs == [] {
      assert s == {};
    } else {
      var n := |xs| - 1;
      assert xs == xs[..n] + [xs[n]];
      SizeOfListing(xs[..n], s - {xs[n]});
    }
  }

  lemma JoinDisjoint<T>(a: seq<T>, b: seq<T>)
    requires NoDuplicates(a) && NoDuplicates(b)
    requires forall x :: x in a ==> x !in b
    ensures NoDuplicates(a + b)
  {
    forall i, j | 0 <= i < j < |a + b|
      ensures (a + b)[i] != (a + b)[j]
    {
      if i < |a| <= j {
        assert a[i] in a && b[j - |a|] in b;
      }
    }
  }
}
