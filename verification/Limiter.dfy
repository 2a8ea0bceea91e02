/**
  Fixed-window limiters: requests per host, share-password attempts per address and login codes
  per account.  Times are instants on one nondecreasing clock.
 */
module Limiter {
  import opened Base

  datatype Entry = Entry(count: nat, resetAt: int)

  // -------------------------------------------------------------- one key

  /** RateLimiter.Allow on the entry of one host. */
  function Admit(e: Option<Entry>, limit: int, window: int, now: int): (r: (bool, Option<Entry>))
    ensures r.1.Some?
  {
    if e.None? || now > e.value.resetAt then (true, Some(Entry(1, now + window)))
    else if e.value.count >= limit then (false, e)
    else (true, Some(e.value.(count := e.value.count + 1)))
  }

  /** The gate of VerifySharePassword. */
  function ShareGate(e: Option<Entry>, maxAttempts: int, window: int, now: int): (bool, Option<Entry>) {
    var attempts := if e.None? || now > e.value.resetAt then Entry(0, now + window) else e.value;
    if e.Some? && attempts.count >= maxAttempts && !(now > attempts.resetAt) then (false, Some(attempts))
    else (true, Some(attempts.(count := attempts.count + 1)))
  }

  const MAX_TOTP_ATTEMPTS: int := 5
  const TOTP_WINDOW: int := 15 * 60

  /** The gate of Login's second factor; a missing entry reads as one that expired long ago. */
  function LoginGate(e: Option<Entry>, now: int): (bool, Option<Entry>) {
    var attempt := if e.None? || now > e.value.resetAt then Entry(0, now + TOTP_WINDOW) else e.value;
    if attempt.count >= MAX_TOTP_ATTEMPTS then (false, Some(attempt))
    else (true, Some(attempt.(count := attempt.count + 1)))
  }

  /** Both gates decide and count as the request limiter does. */
  lemma GatesAreLimiters(e: Option<Entry>, maxAttempts: int, window: int, now: int)
    requires maxAttempts >= 1 && window >= 0
    ensures ShareGate(e, maxAttempts, window, now) == Admit(e, maxAttempts, window, now)
    ensures LoginGate(e, now) == Admit(e, MAX_TOTP_ATTEMPTS, TOTP_WINDOW, now)
  {
  }

  /** Five codes in a quarter of an hour; the cleanup drops what is over and had reached that. */
  lemma LoginGateRule(e: Option<Entry>, now: int)
    ensures LoginGate(e, now).0 <==> e.None? || now > e.value.resetAt || e.value.count < 5
    ensures (e.None? || now > e.value.resetAt) ==> LoginGate(e, now).1 == Some(Entry(1, now + 900))
    ensures CleansUp(LoginCode, e, now) <==> e.Some? && now > e.value.resetAt && e.value.count >= 5
  {
  }

  // -------------------------------------------------------------- requests of one host

  predicate Nondecreasing(times: seq<int>) {
    forall i, j :: 0 <= i < j < |times| ==> times[i] <= times[j]
  }

  /** The entry after requests at these times, starting without one (as after a successful attempt). */
  function After(times: seq<int>, limit: int, window: int): Option<Entry> {
    if times == [] then None
    else Admit(After(times[..|times| - 1], limit, window), limit, window, times[|times| - 1]).1
  }

  predicate GrantedLast(times: seq<int>, limit: int, window: int)
    requires times != []
  {
    Admit(After(times[..|times| - 1], limit, window), limit, window, times[|times| - 1]).0
  }

  /** Requests granted at instants a to b, both included. */
  function Grants(times: seq<int>, limit: int, window: int, a: int, b: int): nat {
    if times == [] then 0
    else
      Grants(times[..|times| - 1], limit, window, a, b) +
      (if a <= times[|times| - 1] <= b && GrantedLast(times, limit, window) then 1 else 0)
  }

  lemma OneMore(times: seq<int>, limit: int, window: int, now: int, a: int, b: int)
    ensures var r := Admit(After(times, limit, window), limit, window, now);
            && After(times + [now], limit, window) == r.1
            && Grants(times + [now], limit, window, a, b) ==
               Grants(times, limit, window, a, b) + if a <= now <= b && r.0 then 1 else 0
  {
  }

  function Cap(limit: int): int {
    if limit < 1 then 1 else limit
  }

  /** What the entry tells about the grants g between a and a + window, split by where its window began. */
  ghost predicate WithinCap(e: Entry, limit: int, window: int, a: int, g: int) {
    var start := e.resetAt - window;
    && 1 <= e.count <= Cap(limit)
    && g <= 2 * Cap(limit) - 1
    && (e.resetAt < a ==> g == 0)
    && (start < a ==> g <= e.count - 1)
    && (start == a ==> g <= e.count)
    && (a < start <= a + window ==> g <= Cap(limit) - 1 + e.count)
  }

  lemma {:induction false} GrantsWithinCap(times: seq<int>, limit: int, window: int, a: int)
    requires Nondecreasing(times) && times != [] && window >= 0
    ensures var e := After(times, limit, window);
            && e.Some? && e.value.resetAt - window <= times[|times| - 1]
            && WithinCap(e.value, limit, window, a, Grants(times, limit, window, a, a + window))
  {
    var n := |times| - 1;
    var front, now := times[..n], times[n];
    if front == [] {
      assert Grants(front, limit, window, a, a + window) == 0;
    } else {
      GrantsWithinCap(front, limit, window, a);
      assert front[|front| - 1] <= now;
    }
  }

  /**
    In any interval as long as the window at most 2 * limit - 1 requests are granted
    (one, if the limit is below 1).
   */
  lemma WindowBound(times: seq<int>, limit: int, window: int, a: int)
    requires Nondecreasing(times) && window >= 0
    ensures Grants(times, limit, window, a, a + window) <= 2 * Cap(limit) - 1
  {
    if times != [] {
      GrantsWithinCap(times, limit, window, a);
    }
  }

  // -------------------------------------------------------------- exactly which requests are granted

  /** Widening the interval where no request falls changes nothing. */
  lemma {:induction false} GrantsUpTo(times: seq<int>, limit: int, window: int, a: int, b: int, last: int)
    requires (forall i :: 0 <= i < |times| ==> times[i] <= last) && last <= b
    ensures Grants(times, limit, window, a, b) == Grants(times, limit, window, a, last)
    ensures last < a ==> Grants(times, limit, window, a, b) == 0
  {
    if times != [] {
      GrantsUpTo(times[..|times| - 1], limit, window, a, b, last);
    }
  }

  /** The entry counts the requests granted since its window opened. */
  lemma {:induction false} CountIsGrants(times: seq<int>, limit: int, window: int)
    requires Nondecreasing(times) && times != [] && window >= 0
    ensures var e := After(times, limit, window);
            && e.Some? && e.value.resetAt - window <= times[|times| - 1] <= e.value.resetAt
            && e.value.count == Grants(times, limit, window, e.value.resetAt - window, times[|times| - 1])
  {
    var n := |times| - 1;
    var front, now := times[..n], times[n];
    if front == [] {
      assert Grants(front, limit, window, now, now) == 0;
    } else {
      CountIsGrants(front, limit, window);
      var e := After(front, limit, window).value;
      var last := front[n - 1];
      if now > e.resetAt {
        GrantsUpTo(front, limit, window, now, now, last);
      } else {
        GrantsUpTo(front, limit, window, e.resetAt - window, now, last);
      }
    }
  }

  /**
    A request is refused exactly when the window opened by an earlier granted request is still open and
    `limit` requests have been granted in it.
   */
  lemma RefusedIff(times: seq<int>, limit: int, window: int, now: int)
    requires Nondecreasing(times + [now]) && window >= 0
    ensures Admit(After(times, limit, window), limit, window, now).0 <==>
            times == [] ||
            var start := After(times, limit, window).value.resetAt - window;
            now > start + window || Grants(times, limit, window, start, now) < limit
  {
    if times != [] {
      assert times == (times + [now])[..|times|];
      CountIsGrants(times, limit, window);
      var last := times[|times| - 1];
      assert last == (times + [now])[|times| - 1] <= (times + [now])[|times|];
      GrantsUpTo(times, limit, window, After(times, limit, window).value.resetAt - window, now, last);
    }
  }

  function Repeat(n: nat, t: int): seq<int> {
    seq(n, _ => t)
  }

  /** One request at 0, and limit - 1 more at the end of its window. */
  function FirstWindow(limit: nat, window: int): seq<int>
    requires limit >= 1
  {
    [0] + Repeat(limit - 1, window)
  }

  lemma FirstWindowFull(limit: nat, window: int)
    requires limit >= 1 && window >= 1
    ensures After(FirstWindow(limit, window), limit, window) == Some(Entry(limit, window))
    ensures Grants(FirstWindow(limit, window), limit, window, 1, 1 + window) == limit - 1
  {
    OneRequest(limit, window);
    FillWindow([0], limit, window, window, 1, limit - 1);
  }

  lemma OneRequest(limit: nat, window: int)
    ensures After([0], limit, window) == Some(Entry(1, window))
    ensures Grants([0], limit, window, 1, 1 + window) == 0
  {
  }

  /** The bound is reached for every limit: a full window followed by limit requests just after it. */
  function WorstCase(limit: nat, window: int): seq<int>
    requires limit >= 1
  {
    FirstWindow(limit, window) + [window + 1] + Repeat(limit - 1, window + 1)
  }

  lemma BoundIsReached(limit: nat, window: int)
    requires limit >= 1 && window >= 1
    ensures Nondecreasing(WorstCase(limit, window))
    ensures Grants(WorstCase(limit, window), limit, window, 1, 1 + window) == 2 * limit - 1
  {
    FirstWindowFull(limit, window);
    SecondWindow(FirstWindow(limit, window), limit, window);
  }

  lemma SecondWindow(times: seq<int>, limit: nat, window: int)
    requires limit >= 1 && window >= 1 && After(times, limit, window) == Some(Entry(limit, window))
    ensures Grants(times + [window + 1] + Repeat(limit - 1, window + 1), limit, window, 1, 1 + window) ==
            Grants(times, limit, window, 1, 1 + window) + limit
  {
    OneMore(times, limit, window, window + 1, 1, 1 + window);
    FillWindow(times + [window + 1], limit, window, window + 1, 1, limit - 1);
  }

  /** Requests within an open window that has room are all granted. */
  lemma {:induction false} FillWindow(times: seq<int>, limit: nat, window: int, t: int, a: int, n: nat)
    requires After(times, limit, window).Some? && t <= After(times, limit, window).value.resetAt
    requires After(times, limit, window).value.count + n <= limit && a <= t <= a + window
    ensures var e := After(times, limit, window).value;
            && After(times + Repeat(n, t), limit, window) == Some(e.(count := e.count + n))
            && Grants(times + Repeat(n, t), limit, window, a, a + window) == Grants(times, limit, window, a, a + window) + n
  {
    var all := times + Repeat(n, t);
    if n == 0 {
      assert all == times;
    } else {
      FillWindow(times, limit, window, t, a, n - 1);
      assert all == times + Repeat(n - 1, t) + [t];
      OneMore(times + Repeat(n - 1, t), limit, window, t, a, a + window);
    }
  }

  // -------------------------------------------------------------- the whole table

  /** A request of a host, or a cleanup that drops the expired entries. */
  datatype Event = Request(host: string, now: int) | Sweep(now: int)

  type Table = map<string, Entry>

  function Lookup(t: Table, host: string): Option<Entry> {
    if host in t then Some(t[host]) else None
  }

  function Step(t: Table, limit: int, window: int, e: Event): Table {
    match e
    case Request(host, now) => t[host := Admit(Lookup(t, host), limit, window, now).1.value]
    case Sweep(now) => map h | h in t && !(now > t[h].resetAt) :: t[h]
  }

  function RunTable(events: seq<Event>, limit: int, window: int): Table {
    if events == [] then map[] else Step(RunTable(events[..|events| - 1], limit, window), limit, window, events[|events| - 1])
  }

  predicate Answer(t: Table, limit: int, window: int, e: Event)
    requires e.Request?
  {
    Admit(Lookup(t, e.host), limit, window, e.now).0
  }

  /** A request changes its host's entry alone; a cleanup drops the entries whose window is over and no other. */
  lemma StepTouches(t: Table, limit: int, window: int, e: Event, h: string)
    ensures e.Request? && e.host != h ==> Lookup(Step(t, limit, window, e), h) == Lookup(t, h)
    ensures e.Sweep? ==>
              Lookup(Step(t, limit, window, e), h) == if h in t && t[h].resetAt >= e.now then Some(t[h]) else None
  {
  }

  predicate Clocked(events: seq<Event>) {
    forall i, j :: 0 <= i < j < |events| ==> events[i].now <= events[j].now
  }

  /** The instants of one host's requests. */
  function TimesOf(events: seq<Event>, host: string): seq<int> {
    if events == [] then []
    else
      var e := events[|events| - 1];
      TimesOf(events[..|events| - 1], host) + if e.Request? && e.host == host then [e.now] else []
  }

  /** Granted requests of a host at instants a to b, as the table with its cleanups answers them. */
  function TableGrants(events: seq<Event>, limit: int, window: int, host: string, a: int, b: int): nat {
    if events == [] then 0
    else
      var front, e := events[..|events| - 1], events[|events| - 1];
      TableGrants(front, limit, window, host, a, b) +
      (if e.Request? && e.host == host && a <= e.now <= b && Answer(RunTable(front, limit, window), limit, window, e) then 1 else 0)
  }

  /** The swept entry differs from the one the history alone gives only by being dropped once expired. */
  ghost predicate Agrees(swept: Option<Entry>, e: Option<Entry>, now: int) {
    swept == e || (swept.None? && now > e.value.resetAt)
  }

  lemma AgreesStep(t: Table, host: string, entry: Option<Entry>, limit: int, window: int, before: int, e: Event)
    requires Agrees(Lookup(t, host), entry, before) && before <= e.now
    ensures Agrees(Lookup(Step(t, limit, window, e), host),
                   if e.Request? && e.host == host then Admit(entry, limit, window, e.now).1 else entry, e.now)
  {
  }

  lemma EarlierEvents(events: seq<Event>)
    requires Clocked(events) && events != []
    ensures var n := |events| - 1;
            Clocked(events[..n]) && (events[..n] != [] ==> events[..n][n - 1].now <= events[n].now)
  {
  }

  lemma {:induction false} TimesOrdered(events: seq<Event>, host: string, now: int)
    requires Clocked(events) && (events != [] ==> events[|events| - 1].now <= now)
    ensures Nondecreasing(TimesOf(events, host))
    ensures forall i :: 0 <= i < |TimesOf(events, host)| ==> TimesOf(events, host)[i] <= now
  {
    if events != [] {
      EarlierEvents(events);
      TimesOrdered(events[..|events| - 1], host, events[|events| - 1].now);
    }
  }

  lemma {:induction false} CleanupAgrees(events: seq<Event>, limit: int, window: int, host: string, now: int)
    requires Clocked(events) && (events != [] ==> events[|events| - 1].now <= now)
    ensures Agrees(Lookup(RunTable(events, limit, window), host), After(TimesOf(events, host), limit, window), now)
  {
    if events != [] {
      var front, e := events[..|events| - 1], events[|events| - 1];
      var before := TimesOf(front, host);
      EarlierEvents(events);
      CleanupAgrees(front, limit, window, host, e.now);
      AgreesStep(RunTable(front, limit, window), host, After(before, limit, window), limit, window, e.now, e);
      OneMore(before, limit, window, e.now, 0, 0);
      assert before + [] == before;
    }
  }

  /** Cleaning up, whenever it happens, never changes a later answer. */
  lemma CleanupInvisible(events: seq<Event>, limit: int, window: int, host: string, now: int)
    requires Clocked(events) && (events != [] ==> events[|events| - 1].now <= now)
    ensures Answer(RunTable(events, limit, window), limit, window, Request(host, now)) ==
            Admit(After(TimesOf(events, host), limit, window), limit, window, now).0
  {
    CleanupAgrees(events, limit, window, host, now);
  }

  lemma {:induction false} TableGrantsAreGrants(events: seq<Event>, limit: int, window: int, host: string, a: int, b: int)
    requires Clocked(events)
    ensures TableGrants(events, limit, window, host, a, b) == Grants(TimesOf(events, host), limit, window, a, b)
  {
    if events != [] {
      var n := |events| - 1;
      var front, e := events[..n], events[n];
      TableGrantsAreGrants(front, limit, window, host, a, b);
      assert TimesOf(front, host) + [] == TimesOf(front, host);
      if e.Request? && e.host == host {
        if front != [] {
          assert front[|front| - 1] == events[n - 1] && events[n - 1].now <= e.now;
        }
        CleanupInvisible(front, limit, window, host, e.now);
        OneMore(TimesOf(front, host), limit, window, e.now, a, b);
      }
    }
  }

  /** Whatever the cleanups and the other hosts do, a host gets at most 2 * limit - 1 grants per window length. */
  lemma HostBound(events: seq<Event>, limit: int, window: int, host: string, a: int)
    requires Clocked(events) && window >= 0
    ensures TableGrants(events, limit, window, host, a, a + window) <= 2 * Cap(limit) - 1
  {
    TableGrantsAreGrants(events, limit, window, host, a, a + window);
    TimesOrdered(events, host, if events == [] then 0 else events[|events| - 1].now);
    WindowBound(TimesOf(events, host), limit, window, a);
  }

  // -------------------------------------------------------------- gates reset by success

  datatype Gate = SharePassword(maxAttempts: int, window: int) | LoginCode

  function LimitOf(g: Gate): int {
    if g.LoginCode? then MAX_TOTP_ATTEMPTS else g.maxAttempts
  }

  function WindowOf(g: Gate): int {
    if g.LoginCode? then TOTP_WINDOW else g.window
  }

  function Decide(g: Gate, e: Option<Entry>, now: int): (bool, Option<Entry>) {
    if g.LoginCode? then LoginGate(e, now) else ShareGate(e, g.maxAttempts, g.window, now)
  }

  /** An attempt, a success, which deletes the counter, or a run of the periodic cleanup. */
  datatype Hit = Attempt(now: int) | Success(now: int) | Cleaned(now: int)

  /** CleanupTOTPState drops expired counters that had reached the limit; share counters are never cleaned. */
  predicate CleansUp(g: Gate, e: Option<Entry>, now: int) {
    g.LoginCode? && e.Some? && now > e.value.resetAt && e.value.count >= MAX_TOTP_ATTEMPTS
  }

  function Counter(g: Gate, history: seq<Hit>): Option<Entry> {
    if history == [] then None
    else
      var e := Counter(g, history[..|history| - 1]);
      match history[|history| - 1]
      case Attempt(now) => Decide(g, e, now).1
      case Success(_) => None
      case Cleaned(now) => if CleansUp(g, e, now) then None else e
  }

  /** Attempts let through since the last success, at instants a to b. */
  function AdmittedSinceSuccess(g: Gate, history: seq<Hit>, a: int, b: int): nat {
    if history == [] then 0
    else
      var front := history[..|history| - 1];
      match history[|history| - 1]
      case Attempt(now) =>
        AdmittedSinceSuccess(g, front, a, b) + (if a <= now <= b && Decide(g, Counter(g, front), now).0 then 1 else 0)
      case Success(_) => 0
      case Cleaned(_) => AdmittedSinceSuccess(g, front, a, b)
  }

  function AttemptsSinceSuccess(history: seq<Hit>): seq<int> {
    if history == [] then []
    else
      var front := AttemptsSinceSuccess(history[..|history| - 1]);
      match history[|history| - 1]
      case Attempt(now) => front + [now]
      case Success(_) => []
      case Cleaned(_) => front
  }

  predicate Chronological(history: seq<Hit>) {
    forall i, j :: 0 <= i < j < |history| ==> history[i].now <= history[j].now
  }

  predicate Until(history: seq<Hit>, now: int) {
    Chronological(history) && (history != [] ==> history[|history| - 1].now <= now)
  }

  lemma EarlierHits(history: seq<Hit>)
    requires Chronological(history) && history != []
    ensures Until(history[..|history| - 1], history[|history| - 1].now)
  {
  }

  lemma {:induction false} AttemptsOrdered(history: seq<Hit>, now: int)
    requires Until(history, now)
    ensures Nondecreasing(AttemptsSinceSuccess(history))
    ensures forall i :: 0 <= i < |AttemptsSinceSuccess(history)| ==> AttemptsSinceSuccess(history)[i] <= now
  {
    if history != [] {
      EarlierHits(history);
      AttemptsOrdered(history[..|history| - 1], history[|history| - 1].now);
    }
  }

  /** A gate with its cleanups lets through what the plain limiter does with the attempts since the last success. */
  lemma {:induction false} GateIsLimiter(g: Gate, history: seq<Hit>, now: int, a: int, b: int)
    requires LimitOf(g) >= 1 && WindowOf(g) >= 0 && Until(history, now)
    ensures Agrees(Counter(g, history), After(AttemptsSinceSuccess(history), LimitOf(g), WindowOf(g)), now)
    ensures AdmittedSinceSuccess(g, history, a, b) == Grants(AttemptsSinceSuccess(history), LimitOf(g), WindowOf(g), a, b)
  {
    if history != [] {
      var front, hit := history[..|history| - 1], history[|history| - 1];
      EarlierHits(history);
      GateIsLimiter(g, front, hit.now, a, b);
      if hit.Attempt? {
        GatesAreLimiters(Counter(g, front), LimitOf(g), WindowOf(g), hit.now);
        OneMore(AttemptsSinceSuccess(front), LimitOf(g), WindowOf(g), hit.now, a, b);
      }
    }
  }

  /** Between successes the gates obey the limiter's bound, whenever the cleanup runs. */
  lemma GateBound(g: Gate, history: seq<Hit>, a: int)
    requires LimitOf(g) >= 1 && WindowOf(g) >= 0 && Chronological(history)
    ensures AdmittedSinceSuccess(g, history, a, a + WindowOf(g)) <= 2 * LimitOf(g) - 1
  {
    var end := if history == [] then 0 else history[|history| - 1].now;
    GateIsLimiter(g, history, end, a, a + WindowOf(g));
    AttemptsOrdered(history, end);
    WindowBound(AttemptsSinceSuccess(history), LimitOf(g), WindowOf(g), a);
  }

  // -------------------------------------------------------------- the code

  /** passwordLimiter and totpAttempts: one counter per address or account. */
  class AttemptLimiter {
    var counters: Table
    const gate: Gate

    constructor (gate: Gate)
      ensures counters == map[] && this.gate == gate
    {
      this.gate, counters := gate, map[];
    }

    method TrySharePassword(client: string, now: int) returns (ok: bool)
      requires gate.SharePassword?
      modifies this
      ensures ok == Decide(gate, Lookup(old(counters), client), now).0
      ensures counters == old(counters)[client := Decide(gate, Lookup(old(counters), client), now).1.value]
    {
      var known := client in counters;
      var attempts := Entry(0, now + gate.window);
      if known && !(now > counters[client].resetAt) {
        attempts := counters[client];
      }
      counters := counters[client := attempts];
      if known && attempts.count >= gate.maxAttempts && !(now > attempts.resetAt) {
        return false;
      }
      counters := counters[client := attempts.(count := attempts.count + 1)];
      return true;
    }

    method TryLoginCode(user: string, now: int) returns (ok: bool)
      requires gate.LoginCode?
      modifies this
      ensures ok == Decide(gate, Lookup(old(counters), user), now).0
      ensures counters == old(counters)[user := Decide(gate, Lookup(old(counters), user), now).1.value]
    {
      var attempt := Entry(0, now + TOTP_WINDOW);
      if user in counters && !(now > counters[user].resetAt) {
        attempt := counters[user];
      }
      if attempt.count >= MAX_TOTP_ATTEMPTS {
        counters := counters[user := attempt];
        return false;
      }
      counters := counters[user := attempt.(count := attempt.count + 1)];
      return true;
    }

    method Reset(client: string)
      modifies this
      ensures counters == old(counters) - {client}
    {
      counters := counters - {client};
    }

    /** CleanupTOTPState */
    method Cleanup(now: int)
      requires gate.LoginCode?
      modifies this
      ensures counters == map u | u in old(counters) && !CleansUp(gate, Some(old(counters)[u]), now) :: old(counters)[u]
    {
      ghost var before := counters;
      var todo := counters.Keys;
      while todo != {}
        invariant todo <= before.Keys
        invariant counters == map u | u in before && (u in todo || !CleansUp(gate, Some(before[u]), now)) :: before[u]
      {
        HasKey(todo);
        var u :| u in todo;
        if now > counters[u].resetAt && counters[u].count >= MAX_TOTP_ATTEMPTS {
          counters := counters - {u};
        }
        todo := todo - {u};
      }
    }
  }

  class RateLimiter {
    var visitors: Table
    const limit: int
    const window: int

    constructor (limit: int, window: int)
      ensures visitors == map[] && this.limit == limit && this.window == window
    {
      this.limit, this.window, visitors := limit, window, map[];
    }

    method Allow(host: string, now: int) returns (ok: bool)
      modifies this
      ensures visitors == Step(old(visitors), limit, window, Request(host, now))
      ensures ok == Answer(old(visitors), limit, window, Request(host, now))
    {
      if host !in visitors || now > visitors[host].resetAt {
        visitors := visitors[host := Entry(1, now + window)];
        return true;
      }
      var v := visitors[host];
      if v.count >= limit {
        assert visitors[host := v] == visitors;
        return false;
      }
      visitors := visitors[host := v.(count := v.count + 1)];
      return true;
    }

    method Cleanup(now: int)
      modifies this
      ensures visitors == Step(old(visitors), limit, window, Sweep(now))
    {
      ghost var before := visitors;
      var todo := visitors.Keys;
      while todo != {}
        invariant todo <= before.Keys
        invariant visitors == map h | h in before && (h in todo || !(now > before[h].resetAt)) :: before[h]
      {
        HasKey(todo);
        var k :| k in todo;
        if now > visitors[k].resetAt {
          visitors := visitors - {k};
        }
        todo := todo - {k};
      }
    }
  }
}
