/**
  The download cap of a share.  Both download paths read the share first and count the view
  later, by a conditional update; the reads may be stale.
 */
module Shares {
  import opened Base

  /** Between reading the share and counting, or counted and waiting for the file lookup. */
  datatype Phase = Opened(verified: bool, maxDownloads: int) | Counted

  /** What a share is created with. */
  datatype Terms = Terms(maxDownloads: int, expireAt: Option<int>, hasPassword: bool)

  /** lost: views counted whose file had vanished. */
  datatype Share = Share(terms: Terms, views: nat, granted: nat, lost: nat, threads: map<int, Phase>)

  datatype Event =
    | Open(thread: int, verified: bool, now: int, fileFound: bool)  // GetShareByToken, or the read after a verify token
    | Count(thread: int)                     // IncrementShareViewCountIfUnderMax
    | Serve(thread: int, fileFound: bool)    // the file lookup of the verified path

  /** IncrementShareViewCountIfUnderMax with the maximum read earlier. */
  function MayCount(views: nat, maxDownloads: int): bool {
    maxDownloads <= 0 || views < maxDownloads
  }

  predicate Expired(terms: Terms, now: int) {
    terms.expireAt.Some? && now > terms.expireAt.value
  }

  /** The checks on the share as read; the path with a verify token skips the cap, the file and the password. */
  predicate MayOpen(s: Share, verified: bool, now: int, fileFound: bool) {
    && !Expired(s.terms, now)
    && (!verified ==>
          && !(s.terms.maxDownloads > 0 && s.views >= s.terms.maxDownloads)
          && fileFound && !s.terms.hasPassword)
  }

  function Step(s: Share, e: Event): Share {
    match e
    case Open(th, verified, now, fileFound) =>
      if th in s.threads || !MayOpen(s, verified, now, fileFound) then s
      else s.(threads := s.threads[th := Opened(verified, s.terms.maxDownloads)])
    case Count(th) =>
      if th !in s.threads || s.threads[th].Counted? then s
      else
        var p := s.threads[th];
        if !MayCount(s.views, p.maxDownloads) then s.(threads := s.threads - {th})
        else if p.verified then s.(views := s.views + 1, threads := s.threads[th := Counted])
        else s.(views := s.views + 1, granted := s.granted + 1, threads := s.threads - {th})
    case Serve(th, found) =>
      if th !in s.threads || s.threads[th].Opened? then s
      else if found then s.(granted := s.granted + 1, threads := s.threads - {th})
      else s.(lost := s.lost + 1, threads := s.threads - {th})
  }

  function Run(s: Share, events: seq<Event>): Share {
    if events == [] then s else Step(Run(s, events[..|events| - 1]), events[|events| - 1])
  }

  ghost function Waiting(s: Share): set<int> {
    set th | th in s.threads && s.threads[th].Counted?
  }

  /** Every counted view is a granted download, a lost one, or one about to be served. */
  ghost predicate Inv(s: Share) {
    && s.views == s.granted + s.lost + |Waiting(s)|
    && (forall th :: th in s.threads && s.threads[th].Opened? ==> s.threads[th].maxDownloads == s.terms.maxDownloads)
    && (s.terms.maxDownloads > 0 ==> s.views <= s.terms.maxDownloads)
  }

  lemma CountKeepsInv(s: Share, th: int)
    requires Inv(s)
    ensures Inv(Step(s, Count(th))) && Step(s, Count(th)).terms == s.terms
  {
    var s' := Step(s, Count(th));
    if s' != s {
      assert th !in Waiting(s);
      if th in s'.threads {
        assert Waiting(s') == Waiting(s) + {th};
      } else {
        assert Waiting(s') == Waiting(s);
      }
    }
  }

  lemma ServeKeepsInv(s: Share, th: int, found: bool)
    requires Inv(s)
    ensures Inv(Step(s, Serve(th, found))) && Step(s, Serve(th, found)).terms == s.terms
  {
    var s' := Step(s, Serve(th, found));
    if s' != s {
      assert th in Waiting(s);
      assert Waiting(s') == Waiting(s) - {th};
    }
  }

  lemma StepKeepsInv(s: Share, e: Event)
    requires Inv(s)
    ensures Inv(Step(s, e)) && Step(s, e).terms == s.terms
  {
    match e
    case Open(_, _, _, _) => assert Waiting(Step(s, e)) == Waiting(s);
    case Count(th) => CountKeepsInv(s, th);
    case Serve(th, found) => ServeKeepsInv(s, th, found);
  }

  /** Under every interleaving of both paths the views respect the cap and cover the granted downloads. */
  lemma {:induction false} CapHolds(terms: Terms, events: seq<Event>)
    ensures var s := Run(Share(terms, 0, 0, 0, map[]), events);
            && Inv(s) && s.terms == terms && s.granted <= s.views
            && (terms.maxDownloads > 0 ==> s.views <= terms.maxDownloads)
  {
    if events != [] {
      CapHolds(terms, events[..|events| - 1]);
      StepKeepsInv(Run(Share(terms, 0, 0, 0, map[]), events[..|events| - 1]), events[|events| - 1]);
    } else {
      assert Waiting(Share(terms, 0, 0, 0, map[])) == {};
    }
  }

  // -------------------------------------------------------------- who gets in

  /** A download starts exactly when the share is unexpired and, without a verify token, has room, its file and no password. */
  lemma OpensIff(s: Share, th: int, verified: bool, now: int, fileFound: bool)
    requires th !in s.threads
    ensures var s' := Step(s, Open(th, verified, now, fileFound));
            && (th in s'.threads <==>
                  && (s.terms.expireAt.Some? ==> now <= s.terms.expireAt.value)
                  && (!verified ==>
                        !s.terms.hasPassword && fileFound && (s.terms.maxDownloads > 0 ==> s.views < s.terms.maxDownloads)))
            && (th in s'.threads ==> s' == s.(threads := s.threads[th := Opened(verified, s.terms.maxDownloads)]))
            && (th !in s'.threads ==> s' == s)
  {
  }

  /** Counting takes one view if there is room, and at once grants a download that needs no further lookup. */
  lemma CountsIff(s: Share, th: int)
    requires Inv(s) && th in s.threads && s.threads[th].Opened?
    ensures var s' := Step(s, Count(th));
            var room := s.terms.maxDownloads > 0 ==> s.views < s.terms.maxDownloads;
            && s'.views == s.views + (if room then 1 else 0)
            && s'.granted == s.granted + (if room && !s.threads[th].verified then 1 else 0)
            && s'.lost == s.lost
            && (th in s'.threads <==> room && s.threads[th].verified)
            && forall o :: o != th ==> (o in s'.threads <==> o in s.threads) && (o in s.threads ==> s'.threads[o] == s.threads[o])
  {
  }

  /** An unverified request for a share that lets it in is granted and takes one view. */
  lemma OpenDownloadSucceeds(s: Share, th: int, now: int)
    requires Inv(s) && th !in s.threads && !s.terms.hasPassword
    requires s.terms.expireAt.Some? ==> now <= s.terms.expireAt.value
    requires s.terms.maxDownloads > 0 ==> s.views < s.terms.maxDownloads
    ensures var s' := Step(Step(s, Open(th, false, now, true)), Count(th));
            s'.granted == s.granted + 1 && s'.views == s.views + 1 && s'.threads == s.threads
  {
    var s1 := Step(s, Open(th, false, now, true));
    OpensIff(s, th, false, now, true);
    StepKeepsInv(s, Open(th, false, now, true));
    CountsIff(s1, th);
  }

  /** So is a verified one whose file is still there when it has counted. */
  lemma VerifiedDownloadSucceeds(s: Share, th: int, now: int, found: bool)
    requires Inv(s) && th !in s.threads
    requires s.terms.expireAt.Some? ==> now <= s.terms.expireAt.value
    requires s.terms.maxDownloads > 0 ==> s.views < s.terms.maxDownloads
    ensures var s' := Step(Step(Step(s, Open(th, true, now, true)), Count(th)), Serve(th, found));
            && s'.views == s.views + 1 && s'.threads == s.threads
            && s'.granted == s.granted + (if found then 1 else 0) && s'.lost == s.lost + (if found then 0 else 1)
  {
    var s1 := Step(s, Open(th, true, now, true));
    OpensIff(s, th, true, now, true);
    StepKeepsInv(s, Open(th, true, now, true));
    CountsIff(s1, th);
  }

  /** The request comes after the expiry, or without a verify token for a share with a password. */
  predicate Barred(terms: Terms, e: Event) {
    e.Open? ==> (terms.expireAt.Some? && e.now > terms.expireAt.value) || (!e.verified && terms.hasPassword)
  }

  /** Such requests get nothing, however many there are and whatever is counted or served between. */
  lemma {:induction false} BarredGetNothing(terms: Terms, events: seq<Event>)
    requires forall e :: e in events ==> Barred(terms, e)
    ensures Run(Share(terms, 0, 0, 0, map[]), events) == Share(terms, 0, 0, 0, map[])
  {
    if events != [] {
      var front, e := events[..|events| - 1], events[|events| - 1];
      assert e in events;
      BarredGetNothing(terms, front);
    }
  }

  class ShareRow {
    const terms: Terms
    var views: nat
    var granted: nat
    var lost: nat
    var threads: map<int, Phase>

    ghost function View(): Share
      reads this
    {
      Share(terms, views, granted, lost, threads)
    }

    constructor (terms: Terms)
      ensures View() == Share(terms, 0, 0, 0, map[])
    {
      this.terms := terms;
      views, granted, lost, threads := 0, 0, 0, map[];
    }

    method IncrementViewCountIfUnderMax(max: int) returns (ok: bool)
      modifies this`views
      ensures ok == MayCount(old(views), max)
      ensures views == old(views) + if ok then 1 else 0
    {
      if max <= 0 {
        views := views + 1;
        return true;
      }
      if views < max {
        views := views + 1;
        return true;
      }
      return false;
    }

    /** GetShareByToken and the password check of DownloadSharedFile. */
    method OpenShare(thread: int, now: int, fileFound: bool) returns (ok: bool)
      requires thread !in threads
      modifies this`threads
      ensures View() == Step(old(View()), Open(thread, false, now, fileFound))
      ensures ok <==> MayOpen(old(View()), false, now, fileFound)
      ensures ok <==> thread in threads
    {
      if terms.expireAt.Some? && now > terms.expireAt.value {
        return false;
      }
      if terms.maxDownloads > 0 && views >= terms.maxDownloads {
        return false;
      }
      if !fileFound {
        return false;
      }
      if terms.hasPassword {
        return false;
      }
      threads := threads[thread := Opened(false, terms.maxDownloads)];
      return true;
    }

    /** The read of DownloadWithVerifyToken, after its token was accepted. */
    method OpenVerified(thread: int, now: int) returns (ok: bool)
      requires thread !in threads
      modifies this`threads
      ensures View() == Step(old(View()), Open(thread, true, now, true))
      ensures ok <==> MayOpen(old(View()), true, now, true)
      ensures ok <==> thread in threads
    {
      if terms.expireAt.Some? && now > terms.expireAt.value {
        return false;
      }
      threads := threads[thread := Opened(true, terms.maxDownloads)];
      return true;
    }

    method CountView(thread: int) returns (ok: bool)
      requires thread in threads && threads[thread].Opened?
      modifies this
      ensures View() == Step(old(View()), Count(thread))
      ensures ok <==> views == old(views) + 1
    {
      var p := threads[thread];
      threads := threads - {thread};
      ok := IncrementViewCountIfUnderMax(p.maxDownloads);
      if ok && p.verified {
        threads := threads[thread := Counted];
        assert threads == old(threads)[thread := Counted];
      } else if ok {
        granted := granted + 1;
      }
    }

    method ServeFile(thread: int, fileFound: bool)
      requires thread in threads && threads[thread].Counted?
      modifies this
      ensures View() == Step(old(View()), Serve(thread, fileFound))
    {
      threads := threads - {thread};
      if fileFound {
        granted := granted + 1;
      } else {
        lost := lost + 1;
      }
    }
  }
}
