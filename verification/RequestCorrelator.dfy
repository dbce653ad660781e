/** `ChannelAgent::request` and `processMessage`: matching worker responses and timeouts to requests by id. */
module RequestCorrelator {
  const LAST_ID := 4_294_967_295

  /** A request: how many requests came up to it, and the id it was sent with. The source only has the id; the serial
      number tells requests with one id apart. */
  datatype Ticket = Ticket(serial: nat, id: nat)

  /** The promise of request `owner`. */
  datatype Promise = NoPromise | Promise(owner: Ticket, settled: bool)

  datatype Verdict = Accepted | Rejected | Neither

  /** What happens to a channel, each step atomic. `Response(t, _)`: the worker's answer to request t. `Timeout(t)`: the
      timer thread started for request t wakes up. `Return`: the requesting thread sees its future ready and leaves
      `request`, releasing the mutex. */
  datatype Event = Request | Response(ticket: Ticket, verdict: Verdict) | Timeout(ticket: Ticket) | Return

  /** What the requesting thread gets: the response's data, its error, or the timeout error. */
  datatype Answer = Data | Failure | TimedOut

  /** The promise of request `owner` was settled by the response or timer of request `cause`. */
  datatype Settlement = Settlement(owner: Ticket, cause: Ticket, answer: Answer)

  /** `timers` are still asleep, `unanswered` are the requests the worker has not responded to. */
  datatype State = State(
    nextId: nat, serial: nat, sents: set<nat>, promise: Promise, timers: set<Ticket>, unanswered: set<Ticket>,
    timerCleared: bool, busy: bool, history: seq<Settlement>)

  const IDLE := State(0, 0, {}, NoPromise, {}, {}, false, false, [])

  /** The id after `id`. */
  function Following(id: nat): nat {
    if id < LAST_ID then id + 1 else 1
  }

  /** What must hold for an event to happen at all: the mutex is free, the timer thread exists, the future is ready. The
      worker may send anything. */
  predicate Enabled(s: State, e: Event) {
    match e
    case Request => !s.busy
    case Response(_, _) => true
    case Timeout(t) => t in s.timers
    case Return => s.busy && s.promise.Promise? && s.promise.settled
  }

  /** Erases the entry of the id and settles the promise of the moment. */
  function Settle(s: State, t: Ticket, answer: Answer): State {
    if s.promise.NoPromise? then s.(sents := s.sents - {t.id})
    else s.(sents := s.sents - {t.id}, promise := s.promise.(settled := true),
            history := s.history + [Settlement(s.promise.owner, t, answer)])
  }

  function Step(s: State, e: Event): State {
    match e
    case Request =>
      var t := Ticket(s.serial + 1, Following(s.nextId));
      s.(nextId := t.id, serial := t.serial, promise := Promise(t, false), timers := s.timers + {t},
         unanswered := s.unanswered + {t}, timerCleared := false, sents := s.sents + {t.id}, busy := true)
    case Response(t, verdict) =>
      var answered := s.(unanswered := s.unanswered - {t});
      if t.id !in s.sents || verdict.Neither? then answered
      else Settle(answered, t, if verdict.Accepted? then Data else Failure).(timerCleared := true)
    case Timeout(t) =>
      var woken := s.(timers := s.timers - {t});
      if s.timerCleared || t.id !in s.sents then woken else Settle(woken, t, TimedOut)
    case Return => s.(busy := false)
  }

  /** The channel's bookkeeping, updated in place. The serial numbers, and with them the tickets, are ghost. */
  class Correlator {
    var nextId: nat
    var sents: set<nat>
    var hasPromise: bool
    var settled: bool
    var timerCleared: bool
    var busy: bool
    ghost var serial: nat
    ghost var owner: Ticket
    ghost var timers: set<Ticket>
    ghost var unanswered: set<Ticket>
    /** Every settlement so far. */
    ghost var history: seq<Settlement>

    ghost function Now(): State
      reads this
    {
      State(nextId, serial, sents, if hasPromise then Promise(owner, settled) else NoPromise, timers, unanswered,
            timerCleared, busy, history)
    }

    constructor ()
      ensures Now() == IDLE
    {
      nextId, sents, hasPromise, settled, timerCleared, busy := 0, {}, false, false, false, false;
      serial, owner, timers, unanswered, history := 0, Ticket(0, 0), {}, {}, [];
    }

    /** Up to the wait for the future. */
    method Send() returns (id: nat)
      requires !busy
      modifies this
      ensures Now() == Step(old(Now()), Request) && id == nextId
    {
      busy := true;
      if nextId < LAST_ID {
        nextId := nextId + 1;
      } else {
        nextId := 1;
      }
      id := nextId;
      serial := serial + 1;
      owner := Ticket(serial, id);
      hasPromise, settled := true, false;
      timerCleared := false;
      timers := timers + {owner};
      sents := sents + {id};
      unanswered := unanswered + {owner};
      assert nextId == Following(old(nextId)) && Now().promise == Promise(owner, false);
    }

    method SettlePromise(id: nat, ghost t: Ticket, ghost answer: Answer)
      requires t.id == id
      modifies this`sents, this`settled, this`history
      ensures Now() == Settle(old(Now()), t, answer)
    {
      sents := sents - {id};
      if hasPromise {
        history := history + [Settlement(owner, t, answer)];
        settled := true;
      }
    }

    method ProcessMessage(id: nat, verdict: Verdict, ghost t: Ticket)
      requires t.id == id
      modifies this
      ensures Now() == Step(old(Now()), Response(t, verdict))
    {
      unanswered := unanswered - {t};
      if id !in sents {
        return;
      }
      if !verdict.Neither? {
        SettlePromise(id, t, if verdict.Accepted? then Data else Failure);
        timerCleared := true;
      }
    }

    method TimerWakes(id: nat, ghost t: Ticket)
      requires t in timers && t.id == id
      modifies this
      ensures Now() == Step(old(Now()), Timeout(t))
    {
      timers := timers - {t};
      if timerCleared {
        return;
      }
      if id in sents {
        SettlePromise(id, t, TimedOut);
      }
    }

    method Finish()
      requires busy && hasPromise && settled
      modifies this`busy
      ensures Now() == Step(old(Now()), Return)
    {
      busy := false;
    }
  }

  // ----- Every run

  function Run(s: State, events: seq<Event>): State
    decreases |events|
  {
    if events == [] then s else Run(Step(s, events[0]), events[1..])
  }

  /** A run of events that can happen. The id counter may wrap. */
  predicate Possible(s: State, events: seq<Event>)
    decreases |events|
  {
    events != [] ==> Enabled(s, events[0]) && Possible(Step(s, events[0]), events[1..])
  }

  predicate Pending(s: State) {
    s.busy && s.promise.Promise? && !s.promise.settled
  }

  predicate Consistent(s: State) {
    && (s.serial == 0 <==> s.promise.NoPromise?)
    && (s.promise.Promise? ==> s.promise.owner == Ticket(s.serial, s.nextId))
    && (s.busy ==> s.promise.Promise?)
    && (s.promise.Promise? && !s.promise.settled ==> s.busy)
    && s.sents == (if Pending(s) then {s.nextId} else {})
    && (Pending(s) ==> !s.timerCleared && s.promise.owner in s.timers)
    && (forall t :: t in s.timers + s.unanswered ==> t.serial <= s.serial)
    && (forall i :: 0 <= i < |s.history| ==>
          s.history[i].cause.id == s.history[i].owner.id && s.history[i].owner.serial <= s.serial)
    && (Pending(s) ==> forall i :: 0 <= i < |s.history| ==> s.history[i].owner.serial < s.serial)
    && (forall i, j :: 0 <= i < j < |s.history| ==> s.history[i].owner.serial < s.history[j].owner.serial)
  }

  lemma StepConsistent(s: State, e: Event)
    requires Consistent(s) && Enabled(s, e)
    ensures Consistent(Step(s, e))
  {
  }

  lemma {:induction false} RunConsistent(s: State, events: seq<Event>)
    requires Consistent(s) && Possible(s, events)
    ensures Consistent(Run(s, events))
    decreases |events|
  {
    if events != [] {
      StepConsistent(s, events[0]);
      RunConsistent(Step(s, events[0]), events[1..]);
    }
  }

  /** In every run, also when the ids wrap: at most one request is pending, and it is the latest; no request is settled
      twice; a settlement comes from a response or timeout with the id of the request it settles. */
  lemma CorrelationTheorem(events: seq<Event>)
    requires Possible(IDLE, events)
    ensures var s := Run(IDLE, events);
      && |s.sents| <= 1
      && (forall id :: id in s.sents ==> id == s.nextId && s.promise == Promise(Ticket(s.serial, id), false))
      && (forall i :: 0 <= i < |s.history| ==> s.history[i].owner.id == s.history[i].cause.id)
      && (forall i, j :: 0 <= i < j < |s.history| ==> s.history[i].owner != s.history[j].owner)
  {
    RunConsistent(IDLE, events);
  }

  /** In every run: a response or timer with another id than the latest leaves the current promise, the pending entry
      and the settlements alone. */
  lemma StaleEventsIgnored(events: seq<Event>, e: Event)
    requires Possible(IDLE, events + [e]) && (e.Response? || e.Timeout?)
    requires e.ticket.id != Run(IDLE, events).nextId
    ensures var s := Run(IDLE, events); var s' := Run(IDLE, events + [e]);
      s'.promise == s.promise && s'.sents == s.sents && s'.history == s.history && s'.timerCleared == s.timerCleared
  {
    RunConcat(IDLE, events, [e]);
    RunConsistent(IDLE, events);
    assert Run(IDLE, events + [e]) == Step(Run(IDLE, events), e) by {
      RunOne(Run(IDLE, events), e);
    }
  }

  lemma RunOne(s: State, e: Event)
    ensures Run(s, [e]) == Step(s, e) && (Possible(s, [e]) <==> Enabled(s, e))
  {
    assert [e][1..] == [];
  }

  lemma {:induction false} RunConcat(s: State, a: seq<Event>, b: seq<Event>)
    ensures Run(s, a + b) == Run(Run(s, a), b)
    ensures Possible(s, a + b) <==> Possible(s, a) && Possible(Run(s, a), b)
    decreases |a|
  {
    if a == [] {
      assert a + b == b;
    } else {
      assert (a + b)[1..] == a[1..] + b;
      RunConcat(Step(s, a[0]), a[1..], b);
    }
  }

  /** In every run: while a request is pending, its decisive response settles exactly its promise. */
  lemma OwnResponseSettles(events: seq<Event>, verdict: Verdict)
    requires Possible(IDLE, events) && Pending(Run(IDLE, events)) && !verdict.Neither?
    ensures var s := Run(IDLE, events); var t := s.promise.owner; var s' := Step(s, Response(t, verdict));
      && s'.promise == Promise(t, true) && s'.sents == {}
      && s'.history == s.history + [Settlement(t, t, if verdict == Accepted then Data else Failure)]
  {
    RunConsistent(IDLE, events);
  }

  /** In every run: a pending request's own timer is asleep, and settles exactly its promise if it wakes up first; so a
      request never waits for good. */
  lemma OwnTimerSettles(events: seq<Event>)
    requires Possible(IDLE, events) && Pending(Run(IDLE, events))
    ensures var s := Run(IDLE, events); var t := s.promise.owner; var s' := Step(s, Timeout(t));
      && Enabled(s, Timeout(t)) && s'.promise == Promise(t, true) && s'.sents == {}
      && s'.history == s.history + [Settlement(t, t, TimedOut)] && Enabled(s', Return)
  {
    RunConsistent(IDLE, events);
  }

  // ----- When settlements come from the request's own response or timer

  /** Every settlement came from the response to that very request or from its own timer. */
  predicate Own(s: State) {
    forall i :: 0 <= i < |s.history| ==> s.history[i].cause == s.history[i].owner
  }

  /** A response that decides, or a timer. */
  predicate Decisive(e: Event) {
    e.Timeout? || (e.Response? && !e.verdict.Neither?)
  }

  /** While a request is pending, a decisive response or timer of another request with the same id arrives. */
  predicate Foreign(s: State, e: Event) {
    Pending(s) && Decisive(e) && e.ticket.id == s.nextId && e.ticket != s.promise.owner
  }

  predicate NoneForeign(s: State, events: seq<Event>)
    decreases |events|
  {
    events != [] ==> !Foreign(s, events[0]) && NoneForeign(Step(s, events[0]), events[1..])
  }

  lemma StepOwn(s: State, e: Event)
    requires Consistent(s) && Enabled(s, e)
    ensures Own(Step(s, e)) <==> Own(s) && !Foreign(s, e)
  {
    var s' := Step(s, e);
    assert s'.history[..|s.history|] == s.history;
    if Foreign(s, e) {
      assert s'.history[|s.history|].owner == s.promise.owner && s'.history[|s.history|].cause == e.ticket;
    }
    if Own(s') {
      forall i | 0 <= i < |s.history| ensures s.history[i].cause == s.history[i].owner {
        assert s'.history[i] == s.history[i];
      }
    }
  }

  /** For every run, wrapping or not: all settlements are the requests' own if and only if no response or timer of
      another request with the same id ever meets a pending request. */
  lemma {:induction false} OwnExactly(s: State, events: seq<Event>)
    requires Consistent(s) && Possible(s, events)
    ensures Own(Run(s, events)) <==> Own(s) && NoneForeign(s, events)
    decreases |events|
  {
    if events != [] {
      StepConsistent(s, events[0]);
      StepOwn(s, events[0]);
      OwnExactly(Step(s, events[0]), events[1..]);
    }
  }

  // ----- What a caller can look at before a request

  /** No timer sleeps and no response is outstanding for the id the next request gets. */
  predicate Clear(s: State) {
    forall t :: t in s.timers + s.unanswered ==> t.id != Following(s.nextId)
  }

  /** The worker answers requests it was sent, each at most once. */
  predicate Answers(s: State, e: Event) {
    e.Response? ==> e.ticket in s.unanswered
  }

  predicate Guarded(s: State, events: seq<Event>)
    decreases |events|
  {
    events != [] ==>
      && Answers(s, events[0]) && (events[0].Request? ==> Clear(s))
      && Guarded(Step(s, events[0]), events[1..])
  }

  /** Only the pending request's own timer and response are left for its id. */
  predicate OwnOnly(s: State) {
    Pending(s) ==> forall t :: t in s.timers + s.unanswered ==> t.id != s.nextId || t == s.promise.owner
  }

  lemma {:induction false} GuardedHasNoneForeign(s: State, events: seq<Event>)
    requires Consistent(s) && OwnOnly(s) && Possible(s, events) && Guarded(s, events)
    ensures NoneForeign(s, events)
    decreases |events|
  {
    if events != [] {
      StepConsistent(s, events[0]);
      GuardedHasNoneForeign(Step(s, events[0]), events[1..]);
    }
  }

  /** When each request is only made with its id clear, every settlement is the request's own, wrapping or not. */
  lemma GuardTheorem(events: seq<Event>)
    requires Possible(IDLE, events) && Guarded(IDLE, events)
    ensures Own(Run(IDLE, events))
  {
    GuardedHasNoneForeign(IDLE, events);
    OwnExactly(IDLE, events);
  }

  /** The guard is exact: the id is clear if and only if whatever settles the next request, the worker answering only
      what it was asked, is its own response or timer. */
  lemma GuardIsExact(s: State)
    requires Consistent(s) && Own(s) && Enabled(s, Request)
    ensures Clear(s) <==>
      forall e :: var s1 := Step(s, Request);
        Enabled(s1, e) && Answers(s1, e) && Decisive(e) ==> Own(Step(s1, e))
  {
    var s1 := Step(s, Request);
    StepConsistent(s, Request);
    forall e | Enabled(s1, e) && Answers(s1, e) && Decisive(e)
      ensures Own(Step(s1, e)) <==> !Foreign(s1, e)
    {
      StepOwn(s1, e);
    }
    if !Clear(s) {
      var t :| t in s.timers + s.unanswered && t.id == Following(s.nextId);
      var e := if t in s.timers then Timeout(t) else Response(t, Accepted);
      assert Foreign(s1, e) && Enabled(s1, e) && Answers(s1, e);
    }
  }

  /** A run in which the counter does not wrap and the worker answers only what it was asked. */
  predicate WithinIds(s: State, events: seq<Event>)
    decreases |events|
  {
    events != [] ==>
      && Answers(s, events[0]) && (events[0].Request? ==> s.nextId < LAST_ID)
      && WithinIds(Step(s, events[0]), events[1..])
  }

  /** Before the first wrap ids and serial numbers agree. */
  predicate Unwrapped(s: State) {
    s.serial == s.nextId && forall t :: t in s.timers + s.unanswered ==> t.serial == t.id
  }

  lemma {:induction false} WithinIdsIsGuarded(s: State, events: seq<Event>)
    requires Consistent(s) && Unwrapped(s) && Possible(s, events) && WithinIds(s, events)
    ensures Guarded(s, events)
    decreases |events|
  {
    if events != [] {
      StepConsistent(s, events[0]);
      WithinIdsIsGuarded(Step(s, events[0]), events[1..]);
    }
  }

  /** Until the 32-bit counter wraps, every settlement is the request's own. */
  lemma BeforeTheWrap(events: seq<Event>)
    requires Possible(IDLE, events) && WithinIds(IDLE, events)
    ensures Own(Run(IDLE, events))
  {
    WithinIdsIsGuarded(IDLE, events);
    GuardTheorem(events);
  }

  // ----- The counter wraps

  /** The first request times out, its response stays outstanding. Every later one is answered, and its timer wakes up
      before the next request. */
  function Round(n: nat): seq<Event> {
    if n == 1 then [Request, Timeout(Ticket(n, n)), Return]
    else [Request, Response(Ticket(n, n), Accepted), Return, Timeout(Ticket(n, n))]
  }

  function Rounds(n: nat): seq<Event> {
    if n == 0 then [] else Rounds(n - 1) + Round(n)
  }

  /** Idle after `n` requests: no timer sleeps, the response to the first request is outstanding. */
  predicate AfterRounds(s: State, n: nat) {
    && Consistent(s) && s.nextId == n && s.serial == n && !s.busy && s.timers == {}
    && (n > 0 ==> Ticket(1, 1) in s.unanswered)
  }

  lemma RunThree(s: State, a: Event, b: Event, c: Event)
    ensures Run(s, [a, b, c]) == Step(Step(Step(s, a), b), c)
    ensures Enabled(s, a) && Enabled(Step(s, a), b) && Enabled(Step(Step(s, a), b), c) ==> Possible(s, [a, b, c])
  {
    assert [a, b, c][1..] == [b, c] && [b, c][1..] == [c];
    RunOne(Step(Step(s, a), b), c);
  }

  lemma RoundFrom(s: State, n: nat)
    requires AfterRounds(s, n) && n < LAST_ID
    ensures Possible(s, Round(n + 1)) && AfterRounds(Run(s, Round(n + 1)), n + 1)
  {
    var t := Ticket(n + 1, n + 1);
    var decides := if n == 0 then Timeout(t) else Response(t, Accepted);
    var three := [Request, decides, Return];
    RunThree(s, Request, decides, Return);
    RunConsistent(s, three);
    if n > 0 {
      RunConcat(s, three, [Timeout(t)]);
      RunOne(Run(s, three), Timeout(t));
      RunConsistent(s, three + [Timeout(t)]);
      assert Round(n + 1) == three + [Timeout(t)];
    }
  }

  lemma {:induction false} RoundsRun(n: nat)
    requires n <= LAST_ID
    ensures Possible(IDLE, Rounds(n)) && AfterRounds(Run(IDLE, Rounds(n)), n)
  {
    if n > 0 {
      RoundsRun(n - 1);
      RoundFrom(Run(IDLE, Rounds(n - 1)), n - 1);
      RunConcat(IDLE, Rounds(n - 1), Round(n));
    }
  }

  /** Without the guard it fails: after as many requests as there are ids, the next one has id 1 again, and the late
      response to the first request settles it. */
  lemma WrapConfusesResponses(n: nat)
    requires n == LAST_ID
    ensures var before := Run(IDLE, Rounds(n)); var asked := Step(before, Request);
      var late := Response(Ticket(1, 1), Accepted);
      && Possible(IDLE, Rounds(n)) && Enabled(before, Request) && Answers(asked, late)
      && asked.timers == {Ticket(n + 1, 1)} && asked.promise == Promise(Ticket(n + 1, 1), false)
      && var s := Step(asked, late);
      && s.promise == Promise(Ticket(n + 1, 1), true)
      && s.history == before.history + [Settlement(Ticket(n + 1, 1), Ticket(1, 1), Data)]
      && !Own(s)
  {
    RoundsRun(n);
    var before := Run(IDLE, Rounds(n));
    var asked := Step(before, Request);
    StepConsistent(before, Request);
    StepOwn(asked, Response(Ticket(1, 1), Accepted));
  }
}
