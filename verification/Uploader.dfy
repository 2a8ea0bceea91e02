/**
  The browser side of a chunked upload: closure variables changed by callbacks.
  One chain is at work at a time: the user resumes only when no request or retry timer is pending.
 */
module Uploader {
  import opened Base

  const MAX_CHUNK_RETRIES: nat := 3

  /** The outstanding request, or the timer that will repeat it. */
  datatype Pending = Request(chunk: nat, retry: nat, delivered: bool) | Timer(chunk: nat, retry: nat)

  /** stored: what the server holds; sends: requests made for the current chunk since the chain reached it. */
  datatype Client = Client(
    total: nat, index: nat, paused: bool, cancelled: bool, failed: bool,
    pending: Option<Pending>, stored: set<nat>, completions: nat, sends: nat)

  datatype Event =
    | Delivered    // the request's chunk is stored by the server
    | Success      // its answer arrives
    | Failure      // the request, delivered or not, fails
    | TimerFires
    | Pause
    | Resume
    | Cancel

  // -------------------------------------------------------------- the callbacks, as functions

  /** uploadChunkWithRetry */
  function Send(c: Client, chunk: nat, retry: nat, sends: nat): Client {
    if c.paused then c.(pending := None)
    else c.(pending := Some(Request(chunk, retry, false)), sends := sends)
  }

  function UploadNext(c: Client): Client {
    if c.paused then c.(pending := None)
    else if c.index >= c.total then c.(pending := None, completions := c.completions + 1)
    else Send(c, c.index, 0, 1)
  }

  /** The first chain: from the beginning, or from the first chunk missing on the server. */
  function Start(total: nat, stored: set<nat>, index: nat): Client {
    UploadNext(Client(total, index, false, false, false, None, stored, 0, 0))
  }

  predicate CanHappen(c: Client, e: Event) {
    match e
    case Delivered => c.pending.Some? && c.pending.value.Request?
    case Success => c.pending.Some? && c.pending.value.Request? && c.pending.value.delivered
    case Failure => c.pending.Some? && c.pending.value.Request?
    case TimerFires => c.pending.Some? && c.pending.value.Timer?
    case Pause => true
    case Resume => c.pending.None? && !c.cancelled && !c.failed
    case Cancel => true
  }

  function Step(c: Client, e: Event): Client
    requires CanHappen(c, e)
  {
    match e
    case Delivered =>
      c.(stored := c.stored + {c.pending.value.chunk}, pending := Some(c.pending.value.(delivered := true)))
    case Success => UploadNext(c.(index := c.index + 1, pending := None))
    case Failure =>
      var p := c.pending.value;
      if c.paused then c.(pending := None)
      else if p.retry < MAX_CHUNK_RETRIES then c.(pending := Some(Timer(p.chunk, p.retry)))
      else c.(pending := None, failed := true)
    case TimerFires => Send(c, c.pending.value.chunk, c.pending.value.retry + 1, c.sends + 1)
    case Pause => c.(paused := true)
    case Resume => UploadNext(c.(paused := false))
    case Cancel => c.(paused := true, cancelled := true, index := c.total + 1)
  }

  ghost predicate Possible(c: Client, events: seq<Event>)
    decreases |events|, 0
  {
    events == [] ||
    (Possible(c, events[..|events| - 1]) && CanHappen(Play(c, events[..|events| - 1]), events[|events| - 1]))
  }

  ghost function Play(c: Client, events: seq<Event>): Client
    requires Possible(c, events)
    decreases |events|, 1
  {
    if events == [] then c else Step(Play(c, events[..|events| - 1]), events[|events| - 1])
  }

  // -------------------------------------------------------------- what every callback keeps

  ghost predicate AllStored(c: Client) {
    forall i :: 0 <= i < c.total ==> i in c.stored
  }

  ghost predicate Sane(c: Client) {
    && (!c.cancelled ==>
          && c.index <= c.total
          && (forall i :: 0 <= i < c.index ==> i in c.stored)
          && (c.pending.Some? ==> c.pending.value.chunk == c.index < c.total))
    && (c.cancelled ==> c.paused)
    && (c.pending.Some? ==>
          && c.pending.value.retry <= MAX_CHUNK_RETRIES && c.sends == c.pending.value.retry + 1
          && (c.pending.value.Request? && c.pending.value.delivered ==> c.pending.value.chunk in c.stored)
          && (c.pending.value.Timer? ==> c.pending.value.retry < MAX_CHUNK_RETRIES))
    && c.sends <= 1 + MAX_CHUNK_RETRIES
    && (c.completions > 0 ==> AllStored(c))
  }

  lemma StepKeepsSane(c: Client, e: Event)
    requires Sane(c) && CanHappen(c, e)
    ensures Sane(Step(c, e))
    ensures c.stored <= Step(c, e).stored && Step(c, e).total == c.total
  {
  }

  /**
    In a single-chain upload, fresh or resumed at the first chunk missing on the server, the
    completion is requested only once the server holds every chunk, and no chunk is sent more
    than 1 + MAX_CHUNK_RETRIES times before the chain moves on or stops.
   */
  lemma {:induction false} CompletesOnlyWhenStored(total: nat, stored: set<nat>, index: nat, events: seq<Event>)
    requires index <= total && forall i :: 0 <= i < index ==> i in stored
    requires Possible(Start(total, stored, index), events)
    ensures var c := Play(Start(total, stored, index), events);
            && Sane(c) && c.total == total
            && (c.completions > 0 ==> forall i :: 0 <= i < total ==> i in c.stored)
            && c.sends <= 1 + MAX_CHUNK_RETRIES
  {
    if events != [] {
      CompletesOnlyWhenStored(total, stored, index, events[..|events| - 1]);
      StepKeepsSane(Play(Start(total, stored, index), events[..|events| - 1]), events[|events| - 1]);
    }
  }

  /** Whether the event makes the browser send chunk i. */
  predicate Requests(c: Client, e: Event, i: nat)
    requires CanHappen(c, e)
  {
    && (e.Success? || e.TimerFires? || e.Resume?)
    && var p := Step(c, e).pending; p.Some? && p.value.Request? && p.value.chunk == i
  }

  /** The requests for chunk i, the one that starts the chain included. */
  ghost function TotalRequests(c: Client, events: seq<Event>, i: nat): nat
    requires Possible(c, events)
  {
    if events == [] then if c.pending.Some? && c.pending.value.Request? && c.pending.value.chunk == i then 1 else 0
    else
      var front, e := events[..|events| - 1], events[|events| - 1];
      TotalRequests(c, front, i) + if Requests(Play(c, front), e, i) then 1 else 0
  }

  function Resumes(events: seq<Event>): nat {
    if events == [] then 0
    else Resumes(events[..|events| - 1]) + if events[|events| - 1].Resume? then 1 else 0
  }

  /** n requests for chunk i after r resumes: none before its turn, and a full set of tries for each resume and for its turn. */
  ghost predicate WithinTries(c: Client, i: nat, n: nat, r: nat) {
    && (!c.cancelled && c.index < i ==> n == 0)
    && (!c.cancelled && c.index == i ==> n <= (1 + MAX_CHUNK_RETRIES) * r + c.sends)
    && n <= (1 + MAX_CHUNK_RETRIES) * (1 + r)
  }

  lemma StepWithinTries(c: Client, e: Event, i: nat, n: nat, r: nat)
    requires Sane(c) && CanHappen(c, e) && WithinTries(c, i, n, r)
    ensures WithinTries(Step(c, e), i, n + if Requests(c, e, i) then 1 else 0, r + if e.Resume? then 1 else 0)
  {
  }

  /** Over all events of one chain a chunk is sent at most 1 + MAX_CHUNK_RETRIES times, and as often again for each resume. */
  lemma {:induction false} RequestsBounded(total: nat, stored: set<nat>, index: nat, events: seq<Event>, i: nat)
    requires index <= total && forall j :: 0 <= j < index ==> j in stored
    requires Possible(Start(total, stored, index), events)
    ensures var c := Start(total, stored, index);
            && WithinTries(Play(c, events), i, TotalRequests(c, events, i), Resumes(events))
            && TotalRequests(c, events, i) <= (1 + MAX_CHUNK_RETRIES) * (1 + Resumes(events))
  {
    if events != [] {
      var c, front := Start(total, stored, index), events[..|events| - 1];
      RequestsBounded(total, stored, index, front, i);
      CompletesOnlyWhenStored(total, stored, index, front);
      StepWithinTries(Play(c, front), events[|events| - 1], i, TotalRequests(c, front, i), Resumes(front));
    }
  }

  /** The same for a chain resumed from the server's answer to a status query. */
  lemma ResumedUploadIsSafe(total: nat, completed: seq<nat>, next: nat, events: seq<Event>)
    requires forall i :: i in completed ==> i < total
    requires next !in completed && forall i :: 0 <= i < next ==> i in completed
    requires Possible(Start(total, (set i | i in completed), next), events)
    ensures var c := Play(Start(total, (set i | i in completed), next), events);
            (c.completions > 0 ==> forall i :: 0 <= i < total ==> i in c.stored) && c.sends <= 1 + MAX_CHUNK_RETRIES
  {
    assert total !in completed;
    CompletesOnlyWhenStored(total, (set i | i in completed), next, events);
  }

  /** Events played after others continue from where those led. */
  lemma {:induction false} PlayOn(c: Client, a: seq<Event>, b: seq<Event>)
    requires Possible(c, a) && Possible(Play(c, a), b)
    ensures Possible(c, a + b) && Play(c, a + b) == Play(Play(c, a), b)
  {
    if b == [] {
      assert a + b == a;
    } else {
      PlayOn(c, a, b[..|b| - 1]);
      assert (a + b)[..|a + b| - 1] == a + b[..|b| - 1];
    }
  }

  lemma PlayOne(c: Client, e: Event)
    requires CanHappen(c, e)
    ensures Possible(c, [e]) && Play(c, [e]) == Step(c, e)
  {
    assert [e][..0] == [] && Possible(c, []) && Play(c, []) == c;
  }

  /** A chain starts with the chunk it is given, or with the completion past the last one. */
  lemma FirstRequest(total: nat, stored: set<nat>, index: nat)
    ensures var c := Start(total, stored, index);
            && c.total == total && c.stored == stored && c.index == index && !c.paused && !c.cancelled && !c.failed
            && (if index < total then c.pending == Some(Request(index, 0, false)) && c.completions == 0
                else c.pending.None? && c.completions == 1)
  {
  }

  /** A chain resumes with the chunk its index names, or with the completion past the last one. */
  lemma ChainStarts(c: Client)
    requires CanHappen(c, Resume)
    ensures var c' := Step(c, Resume);
            && !c'.paused && c'.index == c.index && c'.stored == c.stored
            && (if c.index < c.total then c'.pending == Some(Request(c.index, 0, false)) && c'.completions == c.completions
                else c'.pending.None? && c'.completions == c.completions + 1)
  {
  }

  /** A chunk that fails is sent again, until its retries are used up; then the chain fails. */
  lemma FailureIsRetried(c: Client)
    requires CanHappen(c, Failure) && !c.paused
    ensures var p := c.pending.value;
            var c1 := Step(c, Failure);
            if p.retry < 3
            then && CanHappen(c1, TimerFires) && c1.failed == c.failed
                 && Step(c1, TimerFires).pending == Some(Request(p.chunk, p.retry + 1, false))
                 && Step(c1, TimerFires) == c.(pending := Step(c1, TimerFires).pending, sends := c.sends + 1)
            else c1 == c.(pending := None, failed := true)
  {
  }

  /** n failures of one chunk, each followed by its timer. */
  function Tries(n: nat): seq<Event> {
    if n == 0 then [] else Tries(n - 1) + [Failure, TimerFires]
  }

  /** Chunk after chunk fails as often as given, then is stored and acknowledged. */
  function Script(i: nat, total: nat, fails: nat -> nat): seq<Event>
    decreases total - i
  {
    if i >= total then [] else Tries(fails(i)) + [Delivered, Success] + Script(i + 1, total, fails)
  }

  lemma {:induction false} TriesLead(c: Client, n: nat)
    requires Sane(c) && !c.paused && !c.cancelled && c.pending == Some(Request(c.index, 0, false)) && n <= MAX_CHUNK_RETRIES
    ensures Possible(c, Tries(n))
    ensures Play(c, Tries(n)) == c.(pending := Some(Request(c.index, n, false)), sends := c.sends + n)
  {
    if n > 0 {
      TriesLead(c, n - 1);
      var c1 := Play(c, Tries(n - 1));
      var c2 := Step(c1, Failure);
      PlayOne(c1, Failure);
      PlayOne(c2, TimerFires);
      PlayOn(c1, [Failure], [TimerFires]);
      assert [Failure] + [TimerFires] == [Failure, TimerFires];
      PlayOn(c, Tries(n - 1), [Failure, TimerFires]);
    }
  }

  lemma ChunkGoesThrough(c: Client, n: nat) returns (c': Client)
    requires Sane(c) && !c.paused && !c.cancelled && c.pending == Some(Request(c.index, 0, false)) && n <= MAX_CHUNK_RETRIES
    ensures Possible(c, Tries(n) + [Delivered, Success]) && c' == Play(c, Tries(n) + [Delivered, Success])
    ensures Sane(c') && !c'.paused && !c'.cancelled && c'.failed == c.failed && c'.total == c.total && c'.index == c.index + 1
    ensures if c.index + 1 < c.total then c'.pending == Some(Request(c.index + 1, 0, false)) && c'.completions == c.completions
            else c'.pending.None? && c'.completions == c.completions + 1
  {
    TriesLead(c, n);
    var c1 := Play(c, Tries(n));
    var c2 := Step(c1, Delivered);
    c' := Step(c2, Success);
    PlayOne(c1, Delivered);
    PlayOne(c2, Success);
    PlayOn(c1, [Delivered], [Success]);
    assert [Delivered] + [Success] == [Delivered, Success];
    PlayOn(c, Tries(n), [Delivered, Success]);
    StepKeepsSane(c, Delivered);
    StepKeepsSane(Step(c, Delivered), Success);
  }

  /**
    An upload whose chunks each fail at most MAX_CHUNK_RETRIES times completes, once, with every chunk
    stored; without failures it delivers each missing chunk once.
   */
  lemma {:induction false} RetriedUploadCompletes(c: Client, fails: nat -> nat)
    requires Sane(c) && !c.paused && !c.cancelled && c.pending == Some(Request(c.index, 0, false)) && c.completions == 0
    requires forall i :: fails(i) <= MAX_CHUNK_RETRIES
    ensures Possible(c, Script(c.index, c.total, fails))
    ensures var c' := Play(c, Script(c.index, c.total, fails));
            c'.completions == 1 && AllStored(c') && c'.pending.None? && c'.failed == c.failed
    decreases c.total - c.index
  {
    var i := c.index;
    var head := Tries(fails(i)) + [Delivered, Success];
    var c' := ChunkGoesThrough(c, fails(i));
    var rest := Script(i + 1, c.total, fails);
    assert Script(i, c.total, fails) == head + rest;
    if i + 1 < c.total {
      RetriedUploadCompletes(c', fails);
    } else {
      assert rest == [] && Possible(c', []) && Play(c', []) == c';
    }
    PlayOn(c, head, rest);
  }

  /** Undisturbed, a chain of n missing chunks completes after delivering each of them once. */
  lemma UndisturbedUploadCompletes(c: Client) returns (events: seq<Event>)
    requires Sane(c) && !c.paused && !c.cancelled && c.pending == Some(Request(c.index, 0, false)) && c.completions == 0
    ensures Possible(c, events) && |events| == 2 * (c.total - c.index)
    ensures Play(c, events).completions == 1 && AllStored(Play(c, events))
  {
    events := Script(c.index, c.total, _ => 0);
    RetriedUploadCompletes(c, _ => 0);
    ScriptLength(c.index, c.total);
  }

  lemma {:induction false} ScriptLength(i: nat, total: nat)
    requires i <= total
    ensures |Script(i, total, _ => 0)| == 2 * (total - i)
    decreases total - i
  {
    if i < total {
      ScriptLength(i + 1, total);
      assert Tries(0) == [];
    }
  }

  /** Pausing leaves everything else as it is; cancelling pauses for good. */
  lemma PauseAndCancel(c: Client)
    ensures Step(c, Pause) == c.(paused := true)
    ensures var c' := Step(c, Cancel);
            && c'.paused && c'.cancelled && !CanHappen(c', Resume)
            && c' == c.(paused := true, cancelled := true, index := c'.index) && c'.index > c.total
  {
  }

  /** A paused chain sends nothing and completes nothing until it is resumed; a cancelled one never does. */
  lemma {:induction false} PausedIsSilent(c: Client, events: seq<Event>, i: nat)
    requires Possible(c, events) && c.paused && (c.cancelled || Resume !in events)
    ensures var c' := Play(c, events);
            && c'.paused && (c.cancelled ==> c'.cancelled) && c'.completions == c.completions
            && TotalRequests(c, events, i) == TotalRequests(c, [], i)
  {
    if events != [] {
      PausedIsSilent(c, events[..|events| - 1], i);
    }
  }

  // -------------------------------------------------------------- the code

  /** resumeChunkedUpload: the first index missing from the server's completed list. */
  method FirstMissing(completed: seq<nat>) returns (next: nat)
    ensures next !in completed && forall i :: 0 <= i < next ==> i in completed
  {
    next := 0;
    var completedSet := set i | i in completed;
    ghost var seen: seq<nat> := [];
    while next in completedSet
      invariant forall i :: 0 <= i < next ==> i in completedSet
      invariant |seen| == next <= |completedSet| && forall i :: 0 <= i < next ==> seen[i] == i
      decreases |completedSet| - next
    {
      seen := seen + [next];
      next := next + 1;
      if next > |completedSet| {
        Pigeonhole(seen, completedSet);
        assert false;
      }
    }
    forall i | 0 <= i < next ensures i in completed {
      assert i in completedSet;
    }
  }

  class ChunkedUpload {
    const total: nat
    var index: nat
    var paused: bool
    var cancelled: bool
    var failed: bool
    var pending: Option<Pending>
    var completions: nat
    ghost var stored: set<nat>
    ghost var sends: nat

    ghost function View(): Client
      reads this
    {
      Client(total, index, paused, cancelled, failed, pending, stored, completions, sends)
    }

    constructor (total: nat, ghost stored: set<nat>, startIndex: nat)
      ensures View() == Start(total, stored, startIndex) && this.total == total
    {
      this.total := total;
      index, paused, cancelled, failed := startIndex, false, false, false;
      pending, completions := None, 0;
      this.stored, sends := stored, 0;
      new;
      Next();
    }

    method Next()
      modifies this
      ensures View() == UploadNext(old(View()))
    {
      pending := None;
      if paused {
        return;
      }
      if index >= total {
        completions := completions + 1;
        return;
      }
      sends := 0;
      SendChunk(index, 0);
    }

    method SendChunk(chunk: nat, retry: nat)
      modifies this
      ensures View() == Send(old(View()), chunk, retry, old(sends) + 1)
    {
      if paused {
        pending := None;
        return;
      }
      sends := sends + 1;
      pending := Some(Request(chunk, retry, false));
    }

    method OnDelivered()
      requires CanHappen(View(), Delivered)
      modifies this
      ensures View() == Step(old(View()), Delivered)
    {
      stored := stored + {pending.value.chunk};
      pending := Some(pending.value.(delivered := true));
    }

    method OnSuccess()
      requires CanHappen(View(), Success)
      modifies this
      ensures View() == Step(old(View()), Success)
    {
      index := index + 1;
      Next();
    }

    method OnFailure()
      requires CanHappen(View(), Failure)
      modifies this
      ensures View() == Step(old(View()), Failure)
    {
      var p := pending.value;
      pending := None;
      if paused {
        return;
      }
      if p.retry < MAX_CHUNK_RETRIES {
        pending := Some(Timer(p.chunk, p.retry));
      } else {
        failed := true;
      }
    }

    method OnTimer()
      requires CanHappen(View(), TimerFires)
      modifies this
      ensures View() == Step(old(View()), TimerFires)
    {
      SendChunk(pending.value.chunk, pending.value.retry + 1);
    }

    method PauseUpload()
      modifies this
      ensures View() == Step(old(View()), Pause)
    {
      paused := true;
    }

    method ResumeUpload()
      requires CanHappen(View(), Resume)
      modifies this
      ensures View() == Step(old(View()), Resume)
    {
      paused := false;
      Next();
    }

    method CancelUpload()
      modifies this
      ensures View() == Step(old(View()), Cancel)
    {
      paused := true;
      cancelled := true;
      index := total + 1;
    }
  }
}
