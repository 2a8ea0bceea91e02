/** Sibling names and the search for a free one. */
module Names {
  import opened Base
  import opened FileTable
  import opened Decimal

  const MAX_NAME := 255
  const MAX_RENAMES := 1000

  predicate ValidName(name: string) {
    0 < |name| <= MAX_NAME
  }

  /** The suffix from the last dot of the last path element, or nothing. */
  function Ext(name: string): string {
    if name == "" || name[|name| - 1] == '/' then ""
    else if name[|name| - 1] == '.' then "."
    else
      var front := name[..|name| - 1];
      var e := Ext(front);
      if e == "" then "" else e + [name[|name| - 1]]
  }

  function ToLower(s: string): string {
    seq(|s|, i requires 0 <= i < |s| => if 'A' <= s[i] <= 'Z' then s[i] - 'A' + 'a' else s[i])
  }

  function TrimSuffix(s: string, suffix: string): string {
    if |suffix| <= |s| && s[|s| - |suffix|..] == suffix then s[..|s| - |suffix|] else s
  }

  /** The query behind FileNameExists: an active row of `user` in `parent` with this name. */
  predicate NameTaken(t: Table, parent: Option<Id>, user: UserId, name: string) {
    exists x :: x in t && Named(t, parent, user, name, x)
  }

  predicate Named(t: Table, parent: Option<Id>, user: UserId, name: string, x: Id)
    requires x in t
  {
    t[x].owner == user && t[x].parent == parent && t[x].name == name && t[x].Active()
  }

  function Candidate(base: string, ext: string, i: nat): string {
    base + " (" + PrintNat(i) + ")" + ext
  }

  /** Candidates base (i)ext, base (i+1)ext, ... up to number 999; the first free one wins. */
  function FirstFree(t: Table, parent: Option<Id>, user: UserId, base: string, ext: string, i: nat)
    : (r: Result<string, Error>)
    requires 1 <= i <= MAX_RENAMES
    ensures r.Ok? ==> exists k :: i <= k < MAX_RENAMES && IsLeastFree(t, parent, user, base, ext, i, k, r.value)
    ensures r == Err(NameConflict) ==> forall j :: i <= j < MAX_RENAMES ==> NameTaken(t, parent, user, Candidate(base, ext, j))
    ensures r.Err? && r.error != NameConflict ==>
              r.error == InvalidName && exists j :: i <= j < MAX_RENAMES && !ValidName(Candidate(base, ext, j))
    decreases MAX_RENAMES - i
  {
    if i >= MAX_RENAMES then Err(NameConflict)
    else
      var candidate := Candidate(base, ext, i);
      if !ValidName(candidate) then Err(InvalidName)
      else if !NameTaken(t, parent, user, candidate) then
        assert IsLeastFree(t, parent, user, base, ext, i, i, candidate);
        Ok(candidate)
      else
        var r := FirstFree(t, parent, user, base, ext, i + 1);
        assert r.Ok? ==> exists k :: i <= k < MAX_RENAMES && IsLeastFree(t, parent, user, base, ext, i, k, r.value) by {
          if r.Ok? {
            var k :| i + 1 <= k < MAX_RENAMES && IsLeastFree(t, parent, user, base, ext, i + 1, k, r.value);
            assert IsLeastFree(t, parent, user, base, ext, i, k, r.value);
          }
        }
        r
  }

  /** name is candidate k, it is free, and the candidates before it from i on are taken. */
  ghost predicate IsLeastFree(t: Table, parent: Option<Id>, user: UserId, base: string, ext: string, i: nat, k: nat, name: string) {
    && name == Candidate(base, ext, k) && ValidName(name) && !NameTaken(t, parent, user, name)
    && forall j :: i <= j < k ==> NameTaken(t, parent, user, Candidate(base, ext, j))
  }

  /** Rename-on-conflict: the desired name if free, else the first free numbered variant. */
  function ResolveName(t: Table, parent: Option<Id>, user: UserId, desired: string, ext: string)
    : (r: Result<string, Error>)
    ensures r.Ok? ==> !NameTaken(t, parent, user, r.value)
    ensures r.Ok? && ValidName(desired) ==> ValidName(r.value)
  {
    if !NameTaken(t, parent, user, desired) then Ok(desired)
    else FirstFree(t, parent, user, TrimSuffix(desired, ext), ext, 1)
  }

  /** name is front + e, and e is a dot with no further dot or slash behind it. */
  predicate IsExt(name: string, e: string) {
    && |e| <= |name| && name[|name| - |e|..] == e
    && e != "" && e[0] == '.' && forall i :: 1 <= i < |e| ==> e[i] != '.' && e[i] != '/'
  }

  /** Every dot of the name has a slash behind it. */
  ghost predicate NoDotInLastElement(name: string) {
    forall i :: 0 <= i < |name| && name[i] == '.' ==> exists j :: i < j < |name| && name[j] == '/'
  }

  /** The extension starts at the last dot of the last path element; without such a dot it is empty. */
  lemma {:induction false} ExtMeaning(name: string)
    ensures Ext(name) != "" ==> IsExt(name, Ext(name))
    ensures Ext(name) == "" ==> NoDotInLastElement(name)
  {
    var n := |name| - 1;
    if name != "" && name[n] != '/' && name[n] != '.' {
      var front := name[..n];
      ExtMeaning(front);
      assert name == front + [name[n]];
      if Ext(front) != "" {
        ExtGrows(front, Ext(front), name[n]);
      } else {
        StillNoDot(front, name[n]);
      }
    }
  }

  lemma ExtGrows(front: string, e: string, c: char)
    requires IsExt(front, e) && c != '.' && c != '/'
    ensures IsExt(front + [c], e + [c])
  {
    var name := front + [c];
    assert name[|name| - |e + [c]|..] == front[|front| - |e|..] + [c];
  }

  lemma StillNoDot(front: string, c: char)
    requires NoDotInLastElement(front) && c != '.'
    ensures NoDotInLastElement(front + [c])
  {
    var name := front + [c];
    forall i | 0 <= i < |name| && name[i] == '.' ensures exists j :: i < j < |name| && name[j] == '/' {
      assert front[i] == '.';
      var j :| i < j < |front| && front[j] == '/';
      assert name[j] == '/';
    }
  }

  lemma LowerMeaning(s: string)
    ensures |ToLower(s)| == |s|
    ensures forall i :: 0 <= i < |s| ==>
              ToLower(s)[i] == if 'A' <= s[i] <= 'Z' then (s[i] as int + 32) as char else s[i]
  {
  }

  /** A free name is kept as it is; a taken one gets the number before its extension, if it has this one. */
  lemma ResolvedNameForm(t: Table, parent: Option<Id>, user: UserId, desired: string, ext: string)
    ensures !NameTaken(t, parent, user, desired) ==> ResolveName(t, parent, user, desired, ext) == Ok(desired)
    ensures var r := ResolveName(t, parent, user, desired, ext);
            NameTaken(t, parent, user, desired) && r.Ok? ==>
              exists base, k: nat ::
                && 1 <= k < MAX_RENAMES && r.value == base + " (" + PrintNat(k) + ")" + ext
                && (desired == base + ext || (desired == base && !(|ext| <= |desired| && desired[|desired| - |ext|..] == ext)))
                && forall j: nat :: 1 <= j < k ==> NameTaken(t, parent, user, base + " (" + PrintNat(j) + ")" + ext)
  {
    var r := ResolveName(t, parent, user, desired, ext);
    if NameTaken(t, parent, user, desired) && r.Ok? {
      var base := TrimSuffix(desired, ext);
      var k: nat :| 1 <= k < MAX_RENAMES && IsLeastFree(t, parent, user, base, ext, 1, k, r.value);
      assert r.value == base + " (" + PrintNat(k) + ")" + ext;
      assert desired == base + ext || desired == base;
      forall j: nat | 1 <= j < k ensures NameTaken(t, parent, user, base + " (" + PrintNat(j) + ")" + ext) {
        assert NameTaken(t, parent, user, Candidate(base, ext, j));
      }
    }
  }

  lemma CandidatesDiffer(base: string, ext: string, i: nat, j: nat)
    requires Candidate(base, ext, i) == Candidate(base, ext, j)
    ensures i == j
  {
    var a, b := Candidate(base, ext, i), Candidate(base, ext, j);
    var k := |base| + 2;
    assert a[k..|a| - 1 - |ext|] == PrintNat(i);
    assert b[k..|b| - 1 - |ext|] == PrintNat(j);
    PrintNatInjective(i, j);
  }

  lemma CandidateIsLonger(desired: string, ext: string, i: nat)
    ensures |Candidate(TrimSuffix(desired, ext), ext, i)| > |desired|
  {
  }

  lemma CandidateFits(base: string, ext: string, i: nat)
    requires i < MAX_RENAMES && |base| + |ext| + 6 <= MAX_NAME
    ensures ValidName(Candidate(base, ext, i))
  {
    assert |PrintNat(i)| <= 3 by {
      assert i >= 10 ==> |PrintNat(i)| == |PrintNat(i / 10)| + 1;
      assert i >= 100 ==> |PrintNat(i / 10)| == |PrintNat(i / 100)| + 1;
    }
  }

  ghost function ActiveSiblings(t: Table, parent: Option<Id>, user: UserId): set<Id> {
    set x | x in t && t[x].owner == user && t[x].parent == parent && t[x].Active()
  }

  /** In a directory of at most 999 entries the search cannot run out of numbers. */
  lemma RenameSucceeds(t: Table, parent: Option<Id>, user: UserId, desired: string, ext: string)
    requires |ActiveSiblings(t, parent, user)| <= 999
    requires |TrimSuffix(desired, ext)| + |ext| + 6 <= MAX_NAME
    ensures ResolveName(t, parent, user, desired, ext).Ok?
  {
    var base := TrimSuffix(desired, ext);
    var r := ResolveName(t, parent, user, desired, ext);
    if r.Err? {
      forall j | 1 <= j < MAX_RENAMES ensures ValidName(Candidate(base, ext, j)) {
        CandidateFits(base, ext, j);
      }
      AllTakenIsCrowded(t, parent, user, desired, ext);
      assert false;
    }
  }

  /** The name proposed by slot j: the desired name itself, then the numbered variants. */
  function Proposal(desired: string, ext: string, j: nat): string {
    if j == 0 then desired else Candidate(TrimSuffix(desired, ext), ext, j)
  }

  lemma ProposalsDiffer(desired: string, ext: string, i: nat, j: nat)
    requires i < j
    ensures Proposal(desired, ext, i) != Proposal(desired, ext, j)
  {
    var base := TrimSuffix(desired, ext);
    CandidateIsLonger(desired, ext, j);
    if i > 0 && Candidate(base, ext, i) == Candidate(base, ext, j) {
      CandidatesDiffer(base, ext, i, j);
    }
  }

  lemma AllTakenIsCrowded(t: Table, parent: Option<Id>, user: UserId, desired: string, ext: string)
    requires forall j :: 0 <= j < MAX_RENAMES ==> NameTaken(t, parent, user, Proposal(desired, ext, j))
    ensures |ActiveSiblings(t, parent, user)| >= MAX_RENAMES
  {
    var holders := HoldersOf(t, parent, user, desired, ext, MAX_RENAMES);
    var siblings := ActiveSiblings(t, parent, user);
    if |siblings| < MAX_RENAMES {
      forall x | x in holders ensures x in siblings {
        var j: nat :| j < |holders| && holders[j] == x;
        assert HoldsProposal(t, parent, user, desired, ext, j, x);
      }
      Pigeonhole(holders, siblings);
      var i, j :| 0 <= i < j < |holders| && holders[i] == holders[j];
      assert HoldsProposal(t, parent, user, desired, ext, i, holders[i]);
      assert HoldsProposal(t, parent, user, desired, ext, j, holders[j]);
      ProposalsDiffer(desired, ext, i, j);
      assert false;
    }
  }

  ghost predicate HoldsProposal(t: Table, parent: Option<Id>, user: UserId, desired: string, ext: string, j: nat, x: Id) {
    x in t && Named(t, parent, user, Proposal(desired, ext, j), x)
  }

  lemma HolderOf(t: Table, parent: Option<Id>, user: UserId, desired: string, ext: string, j: nat) returns (x: Id)
    requires NameTaken(t, parent, user, Proposal(desired, ext, j))
    ensures HoldsProposal(t, parent, user, desired, ext, j, x)
  {
    x :| x in t && Named(t, parent, user, Proposal(desired, ext, j), x);
  }

  lemma {:induction false} HoldersOf(t: Table, parent: Option<Id>, user: UserId, desired: string, ext: string, n: nat)
    returns (holders: seq<Id>)
    requires forall j :: 0 <= j < n ==> NameTaken(t, parent, user, Proposal(desired, ext, j))
    ensures |holders| == n
    ensures forall j: nat :: j < n ==> HoldsProposal(t, parent, user, desired, ext, j, holders[j])
  {
    holders := [];
    if n > 0 {
      holders := HoldersOf(t, parent, user, desired, ext, n - 1);
      var x := HolderOf(t, parent, user, desired, ext, n - 1);
      holders := holders + [x];
    }
  }

  /** The search gives up with NameConflict exactly when the name and all 999 variants are taken. */
  lemma RenameFailsIff(t: Table, parent: Option<Id>, user: UserId, desired: string, ext: string)
    requires |TrimSuffix(desired, ext)| + |ext| + 6 <= MAX_NAME
    ensures ResolveName(t, parent, user, desired, ext).Err? <==>
            forall j :: 0 <= j < 1000 ==> NameTaken(t, parent, user, Proposal(desired, ext, j))
  {
    var base := TrimSuffix(desired, ext);
    var r := ResolveName(t, parent, user, desired, ext);
    forall j | 1 <= j < MAX_RENAMES ensures ValidName(Candidate(base, ext, j)) {
      CandidateFits(base, ext, j);
    }
    if r.Ok? {
      if NameTaken(t, parent, user, desired) {
        var k :| 1 <= k < MAX_RENAMES && IsLeastFree(t, parent, user, base, ext, 1, k, r.value);
        assert !NameTaken(t, parent, user, Proposal(desired, ext, k));
      } else {
        assert !NameTaken(t, parent, user, Proposal(desired, ext, 0));
      }
    } else {
      forall j | 0 <= j < MAX_RENAMES
        ensures NameTaken(t, parent, user, Proposal(desired, ext, j))
      {
        assert j > 0 ==> NameTaken(t, parent, user, Candidate(base, ext, j));
      }
    }
  }
}
