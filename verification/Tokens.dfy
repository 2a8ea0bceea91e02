/**
  Refresh-token rotation.  A refresh reads its token outside the transaction; a compare-and-set
  revocation and an insertion run inside it, or, when a revoked token was presented, a statement
  that revokes the family follows.  Logins, refreshes, logouts and revocations interleave freely,
  each database statement or transaction being one step.
 */
module Tokens {
  import opened Base

  type TokenId = nat
  type UserId = int

  datatype Token = Token(user: UserId, family: string, revoked: bool, expiresAt: int)

  /** What a refresh in flight remembers of the row it read: a live token, or the family of a revoked one. */
  datatype Pending = Rotate(token: TokenId, user: UserId, family: string) | Reuse(family: string)

  /**
    tokens: the refresh_tokens table, numbered in insertion order; flights: refreshes between their
    read and what follows it; used: every family id ever drawn.
   */
  datatype Db = Db(tokens: map<TokenId, Token>, next: TokenId, flights: map<int, Pending>, used: set<string>)

  datatype Event =
    | Login(user: UserId, family: string, expiresAt: int)
    | Read(thread: int, token: TokenId, now: int)       // RefreshTokenByHash and the checks on the row read
    | Commit(thread: int, expiresAt: int)               // revoke-if-live plus insert, one transaction
    | RevokeReused(thread: int)                         // RevokeTokenFamily after a revoked token was read
    | Logout(token: TokenId)
    | RevokeUser(user: UserId)                          // the transaction of ChangePassword
    | RevokeDevice(user: UserId, family: string)
    | DropExpired(now: int)

  // -------------------------------------------------------------- statements

  function RevokeOne(tokens: map<TokenId, Token>, id: TokenId): map<TokenId, Token> {
    if id in tokens then tokens[id := tokens[id].(revoked := true)] else tokens
  }

  function RevokeFamily(tokens: map<TokenId, Token>, family: string): map<TokenId, Token> {
    map t | t in tokens :: if tokens[t].family == family then tokens[t].(revoked := true) else tokens[t]
  }

  function RevokeUserTokens(tokens: map<TokenId, Token>, user: UserId): map<TokenId, Token> {
    map t | t in tokens :: if tokens[t].user == user then tokens[t].(revoked := true) else tokens[t]
  }

  function RevokeDeviceFamily(tokens: map<TokenId, Token>, user: UserId, family: string): map<TokenId, Token> {
    map t | t in tokens ::
      if tokens[t].user == user && tokens[t].family == family then tokens[t].(revoked := true) else tokens[t]
  }

  // -------------------------------------------------------------- steps

  /** Reading a revoked token leads on to revoking its family; an expired one is refused; a live one goes on. */
  function ReadStep(db: Db, thread: int, token: TokenId, now: int): Db {
    if token !in db.tokens then db
    else
      var rt := db.tokens[token];
      if rt.revoked then db.(flights := db.flights[thread := Reuse(rt.family)])
      else if now > rt.expiresAt then db
      else db.(flights := db.flights[thread := Rotate(token, rt.user, rt.family)])
  }

  function RevokeReusedStep(db: Db, thread: int): Db {
    if thread !in db.flights || !db.flights[thread].Reuse? then db
    else db.(tokens := RevokeFamily(db.tokens, db.flights[thread].family), flights := db.flights - {thread})
  }

  predicate CanCommit(db: Db, thread: int) {
    thread in db.flights && db.flights[thread].Rotate? &&
    var p := db.flights[thread]; p.token in db.tokens && !db.tokens[p.token].revoked
  }

  /** The transaction: rolled back unless the token read is still there and live. */
  function CommitStep(db: Db, thread: int, expiresAt: int): Db {
    if thread !in db.flights || !db.flights[thread].Rotate? then db
    else
      var p := db.flights[thread];
      var rest := db.flights - {thread};
      if !CanCommit(db, thread) then db.(flights := rest)
      else
        Db(RevokeOne(db.tokens, p.token)[db.next := Token(p.user, p.family, false, expiresAt)], db.next + 1, rest, db.used)
  }

  function Step(db: Db, e: Event): Db {
    match e
    case Login(user, family, expiresAt) =>
      Db(db.tokens[db.next := Token(user, family, false, expiresAt)], db.next + 1, db.flights, db.used + {family})
    case Read(thread, token, now) => ReadStep(db, thread, token, now)
    case Commit(thread, expiresAt) => CommitStep(db, thread, expiresAt)
    case RevokeReused(thread) => RevokeReusedStep(db, thread)
    case Logout(token) => db.(tokens := RevokeOne(db.tokens, token))
    case RevokeUser(user) => db.(tokens := RevokeUserTokens(db.tokens, user))
    case RevokeDevice(user, family) => db.(tokens := RevokeDeviceFamily(db.tokens, user, family))
    case DropExpired(now) => db.(tokens := map t | t in db.tokens && db.tokens[t].expiresAt >= now :: db.tokens[t])
  }

  /** The random generator never draws a family id twice. */
  predicate Fresh(db: Db, e: Event) {
    e.Login? ==> e.family !in db.used
  }

  ghost predicate FreshRun(db: Db, events: seq<Event>)
    decreases |events|
  {
    events == [] || (Fresh(db, events[0]) && FreshRun(Step(db, events[0]), events[1..]))
  }

  ghost function Run(db: Db, events: seq<Event>): Db
    decreases |events|
  {
    if events == [] then db else Run(Step(db, events[0]), events[1..])
  }

  const EMPTY: Db := Db(map[], 0, map[], {})

  // -------------------------------------------------------------- invariants

  ghost predicate Live(db: Db, t: TokenId) {
    t in db.tokens && !db.tokens[t].revoked
  }

  /** Within a family only the newest token can be live; in-flight reads remember what the rows say. */
  ghost predicate Inv(db: Db) {
    && (forall t :: t in db.tokens ==> t < db.next && db.tokens[t].family in db.used)
    && (forall a, b :: a in db.tokens && b in db.tokens && a < b && db.tokens[a].family == db.tokens[b].family ==>
          db.tokens[a].revoked && db.tokens[a].user == db.tokens[b].user)
    && (forall th :: th in db.flights ==> FlightOk(db, th))
  }

  ghost predicate FlightOk(db: Db, th: int)
    requires th in db.flights
  {
    var p := db.flights[th];
    && p.family in db.used
    && (p.Rotate? ==>
          && p.token < db.next
          && (p.token in db.tokens ==> db.tokens[p.token].user == p.user && db.tokens[p.token].family == p.family))
  }

  ghost predicate LiveFamily(db: Db, family: string) {
    exists t :: Live(db, t) && db.tokens[t].family == family
  }

  /** Steps that only revoke or drop tokens keep the invariant and bring no token to life. */
  lemma FewerLive(db: Db, db': Db)
    requires Inv(db) && db'.next == db.next && db'.used == db.used
    requires forall th :: th in db'.flights ==> th in db.flights && db'.flights[th] == db.flights[th]
    requires forall t :: t in db'.tokens ==>
      && t in db.tokens
      && (db'.tokens[t] == db.tokens[t] || db'.tokens[t] == db.tokens[t].(revoked := true))
    ensures Inv(db') && forall t :: Live(db', t) ==> Live(db, t)
  {
  }

  lemma StepKeepsInv(db: Db, e: Event)
    requires Inv(db) && Fresh(db, e)
    ensures Inv(Step(db, e)) && db.used <= Step(db, e).used && db.next <= Step(db, e).next
    ensures forall f :: f in db.used && !LiveFamily(db, f) ==> !LiveFamily(Step(db, e), f)
  {
    var db' := Step(db, e);
    match e
    case Login(user, family, expiresAt) => LoginKeepsInv(db, user, family, expiresAt);
    case Read(thread, token, now) => ReadKeepsInv(db, thread, token, now);
    case Commit(thread, expiresAt) => CommitKeepsInv(db, thread, expiresAt);
    case _ => FewerLive(db, db');
  }

  lemma LoginKeepsInv(db: Db, user: UserId, family: string, expiresAt: int)
    requires Inv(db) && family !in db.used
    ensures var db' := Step(db, Login(user, family, expiresAt));
            Inv(db') && forall f :: f in db.used && !LiveFamily(db, f) ==> !LiveFamily(db', f)
  {
  }

  lemma ReadKeepsInv(db: Db, thread: int, token: TokenId, now: int)
    requires Inv(db)
    ensures Inv(ReadStep(db, thread, token, now)) && ReadStep(db, thread, token, now).tokens == db.tokens
  {
  }

  lemma CommitKeepsInv(db: Db, thread: int, expiresAt: int)
    requires Inv(db)
    ensures var db' := CommitStep(db, thread, expiresAt);
            Inv(db') && forall f :: f in db.used && !LiveFamily(db, f) ==> !LiveFamily(db', f)
  {
    var db' := CommitStep(db, thread, expiresAt);
    forall th | th in db'.flights ensures FlightOk(db', th) {
      assert FlightOk(db, th);
    }
    if CanCommit(db, thread) {
      var p := db.flights[thread];
      var spent := p.token;
      assert FlightOk(db, thread) && Live(db, spent);
      forall a, b | a in db'.tokens && b in db'.tokens && a < b && db'.tokens[a].family == db'.tokens[b].family
        ensures db'.tokens[a].revoked && db'.tokens[a].user == db'.tokens[b].user
      {
        if b == db.next && a != spent {
          assert a < spent || spent < a;
        }
      }
      forall f | f in db.used && LiveFamily(db', f) ensures LiveFamily(db, f) {
        var t :| Live(db', t) && db'.tokens[t].family == f;
        assert t != db.next ==> Live(db, t);
        assert t == db.next ==> db.tokens[p.token].family == f;
      }
    } else {
      forall f | LiveFamily(db', f) ensures LiveFamily(db, f) {
        var t :| Live(db', t) && db'.tokens[t].family == f;
        assert Live(db, t);
      }
    }
  }

  // -------------------------------------------------------------- runs

  lemma {:induction false} RunKeepsInv(db: Db, events: seq<Event>)
    requires Inv(db) && FreshRun(db, events)
    ensures Inv(Run(db, events)) && db.used <= Run(db, events).used
    ensures forall f :: f in db.used && !LiveFamily(db, f) ==> !LiveFamily(Run(db, events), f)
    decreases |events|
  {
    if events != [] {
      StepKeepsInv(db, events[0]);
      RunKeepsInv(Step(db, events[0]), events[1..]);
    }
  }

  /** Under every interleaving a family has at most one live token, and it is the newest of the family. */
  lemma AtMostOneLiveToken(events: seq<Event>, a: TokenId, b: TokenId)
    requires FreshRun(EMPTY, events)
    requires var db := Run(EMPTY, events);
             a in db.tokens && b in db.tokens && db.tokens[a].family == db.tokens[b].family
    ensures Live(Run(EMPTY, events), a) ==> b <= a
    ensures Live(Run(EMPTY, events), a) && Live(Run(EMPTY, events), b) ==> a == b
  {
    RunKeepsInv(EMPTY, events);
  }

  /**
    Once a refresh that read a revoked token has revoked the family, the family is dead for good,
    whatever other refreshes of it are in flight.
   */
  lemma ReuseKillsFamily(before: seq<Event>, thread: int, after: seq<Event>)
    requires FreshRun(EMPTY, before)
    requires var db := Run(EMPTY, before);
             && thread in db.flights && db.flights[thread].Reuse?
             && FreshRun(Step(db, RevokeReused(thread)), after)
    ensures var db := Run(EMPTY, before);
            !LiveFamily(Run(Step(db, RevokeReused(thread)), after), db.flights[thread].family)
  {
    var db := Run(EMPTY, before);
    RunKeepsInv(EMPTY, before);
    assert FlightOk(db, thread);
    StepKeepsInv(db, RevokeReused(thread));
    RunKeepsInv(Step(db, RevokeReused(thread)), after);
  }

  /**
    After a password change no token the user held before, and no refresh of one that was already
    in flight, ever yields a live token: every live token of the user comes from a later login.
   */
  lemma PasswordChangeEndsSessions(before: seq<Event>, user: UserId, after: seq<Event>, t: TokenId)
    requires FreshRun(EMPTY, before)
    requires FreshRun(Step(Run(EMPTY, before), RevokeUser(user)), after)
    requires var db' := Run(Step(Run(EMPTY, before), RevokeUser(user)), after);
             Live(db', t) && db'.tokens[t].user == user
    ensures var db := Run(EMPTY, before);
            var db' := Run(Step(db, RevokeUser(user)), after);
            db'.tokens[t].family !in db.used
  {
    var db := Run(EMPTY, before);
    var cut := Step(db, RevokeUser(user));
    RunKeepsInv(EMPTY, before);
    StepKeepsInv(db, RevokeUser(user));
    OldFamiliesStayDead(cut, db.used, after, user);
  }

  /** Every live token of the user belongs to a family drawn outside `families`. */
  ghost predicate OnlyNewFamilies(db: Db, families: set<string>, user: UserId) {
    forall t :: Live(db, t) && db.tokens[t].user == user ==> db.tokens[t].family !in families
  }

  lemma {:induction false} OldFamiliesStayDead(db: Db, families: set<string>, events: seq<Event>, user: UserId)
    requires Inv(db) && FreshRun(db, events) && families <= db.used && OnlyNewFamilies(db, families, user)
    ensures OnlyNewFamilies(Run(db, events), families, user)
    decreases |events|
  {
    if events != [] {
      StepKeepsInv(db, events[0]);
      StepOnlyNew(db, families, events[0], user);
      OldFamiliesStayDead(Step(db, events[0]), families, events[1..], user);
    }
  }

  lemma StepOnlyNew(db: Db, families: set<string>, e: Event, user: UserId)
    requires Inv(db) && Fresh(db, e) && families <= db.used && OnlyNewFamilies(db, families, user)
    ensures OnlyNewFamilies(Step(db, e), families, user)
  {
  }

  // -------------------------------------------------------------- what each step does, row by row

  /** The refresh of this thread read the token t and has not ended. */
  ghost predicate Rotating(db: Db, thread: int, t: TokenId) {
    thread in db.flights && db.flights[thread].Rotate? && db.flights[thread].token == t
  }

  /** The rows an event revokes. */
  ghost predicate Revokes(db: Db, e: Event, t: TokenId)
    requires t in db.tokens
  {
    match e
    case Login(_, _, _) => false
    case Read(_, _, _) => false
    case Commit(thread, _) => Rotating(db, thread, t)
    case RevokeReused(thread) =>
      thread in db.flights && db.flights[thread].Reuse? && db.flights[thread].family == db.tokens[t].family
    case Logout(token) => t == token
    case RevokeUser(user) => db.tokens[t].user == user
    case RevokeDevice(user, family) => db.tokens[t].user == user && db.tokens[t].family == family
    case DropExpired(_) => false
  }

  ghost predicate Drops(db: Db, e: Event, t: TokenId)
    requires t in db.tokens
  {
    e.DropExpired? && db.tokens[t].expiresAt < e.now
  }

  /** An event drops and revokes exactly those rows, and changes no other column. */
  lemma StepRevokes(db: Db, e: Event, t: TokenId)
    requires Inv(db) && t in db.tokens
    ensures t in Step(db, e).tokens <==> !Drops(db, e, t)
    ensures t in Step(db, e).tokens ==>
              Step(db, e).tokens[t] == db.tokens[t].(revoked := db.tokens[t].revoked || Revokes(db, e, t))
    ensures Drops(db, e, t) || !Revokes(db, e, t) ==> (Live(Step(db, e), t) <==> Live(db, t) && !Drops(db, e, t))
  {
  }

  /** A login, and a refresh whose token is still live, add one live row; nothing else adds any. */
  lemma StepIssues(db: Db, e: Event, t: TokenId)
    requires Inv(db) && t !in db.tokens
    ensures t in Step(db, e).tokens <==>
              && t == db.next
              && (e.Login? || (e.Commit? && exists spent :: Live(db, spent) && Rotating(db, e.thread, spent)))
    ensures t in Step(db, e).tokens && e.Login? ==> Step(db, e).tokens[t] == Token(e.user, e.family, false, e.expiresAt)
    ensures t in Step(db, e).tokens ==> Step(db, e).next == t + 1
  {
    if e.Commit? && e.thread in db.flights && db.flights[e.thread].Rotate? {
      assert Rotating(db, e.thread, db.flights[e.thread].token);
    }
  }

  /** A read goes on with a live, unexpired token, or to the revocation of a revoked one's family; it changes no token. */
  lemma ReadLeadsTo(db: Db, thread: int, token: TokenId, now: int)
    ensures var db' := Step(db, Read(thread, token, now));
            && db' == db.(flights := db'.flights)
            && (if token in db.tokens && db.tokens[token].revoked
                then db'.flights == db.flights[thread := Reuse(db.tokens[token].family)]
                else if token in db.tokens && now <= db.tokens[token].expiresAt
                then db'.flights == db.flights[thread := Rotate(token, db.tokens[token].user, db.tokens[token].family)]
                else db'.flights == db.flights)
  {
  }

  /**
    The transaction of a refresh whose token is still live revokes it and adds one row: live, of the
    same user and family, with the new expiry.  Every other row stays.
   */
  lemma RefreshIssuesSuccessor(db: Db, thread: int, t: TokenId, expiresAt: int)
    requires Inv(db) && Live(db, t) && Rotating(db, thread, t)
    ensures var db' := Step(db, Commit(thread, expiresAt));
            && db'.tokens.Keys == db.tokens.Keys + {db.next} && db.next !in db.tokens && db'.next == db.next + 1
            && db'.tokens[db.next] == Token(db.tokens[t].user, db.tokens[t].family, false, expiresAt)
            && db'.tokens[t] == db.tokens[t].(revoked := true)
            && (forall x :: x in db.tokens && x != t ==> db'.tokens[x] == db.tokens[x])
            && db'.flights == db.flights - {thread}
  {
    assert FlightOk(db, thread);
  }

  /** Otherwise it is rolled back. */
  lemma RefreshRollsBack(db: Db, thread: int, expiresAt: int)
    requires forall t :: Live(db, t) ==> !Rotating(db, thread, t)
    ensures Step(db, Commit(thread, expiresAt)).tokens == db.tokens && Step(db, Commit(thread, expiresAt)).next == db.next
  {
    if CanCommit(db, thread) {
      assert Live(db, db.flights[thread].token) && Rotating(db, thread, db.flights[thread].token);
      assert false;
    }
  }

  /** The event leaves the token and the thread's refresh of it alone. */
  ghost predicate Spares(db: Db, e: Event, t: TokenId, thread: int) {
    && Fresh(db, e)
    && (t in db.tokens ==> !Revokes(db, e, t) && !Drops(db, e, t))
    && !((e.Read? || e.Commit? || e.RevokeReused?) && e.thread == thread)
  }

  ghost predicate SparingRun(db: Db, events: seq<Event>, t: TokenId, thread: int)
    decreases |events|
  {
    events == [] || (Spares(db, events[0], t, thread) && SparingRun(Step(db, events[0]), events[1..], t, thread))
  }

  lemma SparedStep(db: Db, e: Event, t: TokenId, thread: int)
    requires Inv(db) && Live(db, t) && Spares(db, e, t, thread)
    ensures var db' := Step(db, e);
            && Inv(db') && Live(db', t) && db'.tokens[t] == db.tokens[t]
            && (thread in db.flights ==> thread in db'.flights && db'.flights[thread] == db.flights[thread])
  {
    StepKeepsInv(db, e);
    StepRevokes(db, e, t);
  }

  lemma {:induction false} SparedStays(db: Db, events: seq<Event>, t: TokenId, thread: int)
    requires Inv(db) && Live(db, t) && SparingRun(db, events, t, thread)
    ensures var db' := Run(db, events);
            && Inv(db') && Live(db', t) && db'.tokens[t] == db.tokens[t]
            && (thread in db.flights ==> thread in db'.flights && db'.flights[thread] == db.flights[thread])
    decreases |events|
  {
    if events != [] {
      SparedStep(db, events[0], t, thread);
      SparedStays(Step(db, events[0]), events[1..], t, thread);
    }
  }

  /**
    A refresh succeeds: a token that is live and unexpired when read, and that nothing revokes or drops
    before the transaction, is replaced by a live one of the same user and family with the new expiry.
   */
  lemma RefreshSucceeds(db: Db, t: TokenId, thread: int, now: int, between: seq<Event>, expiresAt: int)
    requires Inv(db) && Live(db, t) && now <= db.tokens[t].expiresAt
    requires SparingRun(Step(db, Read(thread, t, now)), between, t, thread)
    ensures var before := Run(Step(db, Read(thread, t, now)), between);
            var after := Step(before, Commit(thread, expiresAt));
            && Inv(after) && Live(after, before.next) && !Live(after, t)
            && after.tokens[before.next] == Token(db.tokens[t].user, db.tokens[t].family, false, expiresAt)
  {
    ReadKeepsInv(db, thread, t, now);
    ReadLeadsTo(db, thread, t, now);
    var before := Run(Step(db, Read(thread, t, now)), between);
    SparedStays(Step(db, Read(thread, t, now)), between, t, thread);
    RefreshIssuesSuccessor(before, thread, t, expiresAt);
    StepKeepsInv(before, Commit(thread, expiresAt));
  }

  /** From login to refresh: with no revocation in between the family ends with a live token of the new expiry. */
  lemma LoginThenRefresh(db: Db, user: UserId, family: string, firstExpiry: int, idle: seq<Event>,
                         thread: int, now: int, between: seq<Event>, expiresAt: int)
    requires Inv(db) && family !in db.used && now <= firstExpiry
    requires var loggedIn := Step(db, Login(user, family, firstExpiry));
             && SparingRun(loggedIn, idle, db.next, thread)
             && SparingRun(Step(Run(loggedIn, idle), Read(thread, db.next, now)), between, db.next, thread)
    ensures var read := Step(Run(Step(db, Login(user, family, firstExpiry)), idle), Read(thread, db.next, now));
            var before := Run(read, between);
            var after := Step(before, Commit(thread, expiresAt));
            Live(after, before.next) && after.tokens[before.next] == Token(user, family, false, expiresAt)
  {
    var e := Login(user, family, firstExpiry);
    StepKeepsInv(db, e);
    SparedStays(Step(db, e), idle, db.next, thread);
    RefreshSucceeds(Run(Step(db, e), idle), db.next, thread, now, between, expiresAt);
  }

  // -------------------------------------------------------------- the code

  /** The token statements as methods; a refresh is Read followed, later, by Commit. */
  class TokenStore {
    var tokens: map<TokenId, Token>
    var next: TokenId
    var flights: map<int, Pending>
    ghost var used: set<string>

    ghost function View(): Db
      reads this
    {
      Db(tokens, next, flights, used)
    }

    constructor ()
      ensures View() == EMPTY
    {
      tokens, next, flights, used := map[], 0, map[], {};
    }

    method CreateRefreshToken(user: UserId, family: string, expiresAt: int) returns (id: TokenId)
      modifies this`tokens, this`next
      ensures id == old(next) && next == id + 1
      ensures tokens == old(tokens)[id := Token(user, family, false, expiresAt)]
    {
      id := next;
      tokens := tokens[id := Token(user, family, false, expiresAt)];
      next := next + 1;
    }

    /** The compare-and-set: UPDATE ... SET revoked = 1 WHERE id = ? AND revoked = 0 */
    method RevokeRefreshToken(id: TokenId) returns (affected: bool)
      modifies this`tokens
      ensures affected <==> id in old(tokens) && !old(tokens)[id].revoked
      ensures tokens == RevokeOne(old(tokens), id)
    {
      affected := id in tokens && !tokens[id].revoked;
      if affected {
        tokens := tokens[id := tokens[id].(revoked := true)];
      } else if id in tokens {
        assert tokens[id].(revoked := true) == tokens[id];
        assert tokens[id := tokens[id]] == tokens;
      }
    }

    method IssueTokens(user: UserId, family: string, expiresAt: int)
      modifies this
      ensures View() == Step(old(View()), Login(user, family, expiresAt))
    {
      var _ := CreateRefreshToken(user, family, expiresAt);
      used := used + {family};
    }

    /** The part of RefreshAccessToken before its transaction. */
    method RefreshRead(thread: int, id: TokenId, now: int) returns (goesOn: bool)
      modifies this`flights
      ensures View() == Step(old(View()), Read(thread, id, now))
      ensures goesOn <==> id in old(tokens) && !old(tokens)[id].revoked && now <= old(tokens)[id].expiresAt
    {
      if id !in tokens {
        return false;
      }
      var rt := tokens[id];
      if rt.revoked {
        flights := flights[thread := Reuse(rt.family)];
        return false;
      }
      if now > rt.expiresAt {
        return false;
      }
      flights := flights[thread := Rotate(id, rt.user, rt.family)];
      return true;
    }

    /** What follows the reading of a revoked token. */
    method RevokeTokenFamily(thread: int)
      requires thread in flights && flights[thread].Reuse?
      modifies this`tokens, this`flights
      ensures View() == Step(old(View()), RevokeReused(thread))
    {
      var family := flights[thread].family;
      tokens := map t | t in tokens :: if tokens[t].family == family then tokens[t].(revoked := true) else tokens[t];
      flights := flights - {thread};
    }

    /** The transaction of RefreshAccessToken; without a revoked row it rolls back. */
    method RefreshCommit(thread: int, expiresAt: int) returns (ok: bool)
      requires thread in flights && flights[thread].Rotate?
      modifies this
      ensures View() == Step(old(View()), Commit(thread, expiresAt))
      ensures ok <==> CanCommit(old(View()), thread)
    {
      var p := flights[thread];
      flights := flights - {thread};
      ok := RevokeRefreshToken(p.token);
      if ok {
        var _ := CreateRefreshToken(p.user, p.family, expiresAt);
      } else if p.token in tokens {
        assert tokens == old(tokens);
      }
    }

    /** Logout; its statement fails when the token was revoked before. */
    method Logout(id: TokenId) returns (ok: bool)
      modifies this`tokens
      ensures View() == Step(old(View()), Event.Logout(id))
      ensures ok <==> Live(old(View()), id)
    {
      ok := RevokeRefreshToken(id);
    }

    /** Fails when the device's family has no live token of the user. */
    method RevokeDeviceFamily(user: UserId, family: string) returns (ok: bool)
      modifies this`tokens
      ensures View() == Step(old(View()), RevokeDevice(user, family))
      ensures ok <==> exists t :: Live(old(View()), t) && old(tokens)[t].user == user && old(tokens)[t].family == family
    {
      var affected := set t | t in tokens && tokens[t].user == user && tokens[t].family == family && !tokens[t].revoked;
      ok := affected != {};
      tokens := map t | t in tokens :: if t in affected then tokens[t].(revoked := true) else tokens[t];
      if ok {
        HasElement(affected);
        var t :| t in affected;
        assert Live(old(View()), t);
      } else {
        forall t | Live(old(View()), t) ensures !(old(tokens)[t].user == user && old(tokens)[t].family == family) {
          assert t !in affected;
        }
      }
    }

    method DeleteExpired(now: int)
      modifies this`tokens
      ensures View() == Step(old(View()), DropExpired(now))
    {
      tokens := map t | t in tokens && tokens[t].expiresAt >= now :: tokens[t];
    }

    method RevokeAllOf(user: UserId)
      modifies this`tokens
      ensures View() == Step(old(View()), RevokeUser(user))
    {
      tokens := map t | t in tokens ::
        if tokens[t].user == user && !tokens[t].revoked then tokens[t].(revoked := true) else tokens[t];
    }
  }
}
