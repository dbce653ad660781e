/** `Promise`: the doubly linked chain of promises, and how one chain is inserted into another. */
module PromiseChain {
  import opened PromiseSettlement
  import opened Sequences

  class Promise {
    var next: Promise?
    var prev: Promise?
    var status: Status
    var any: Any
    var step: Step

    constructor (step: Step)
      ensures Chain([this]) && Value() == Pending(step)
    {
      next, prev, status, any, this.step := null, null, Init, Empty, step;
    }

    function Value(): Record
      reads this`status, this`any, this`step
    {
      Record(status, any, step)
    }

    /** `prepare_resolve` and `prepare_reject`. */
    method Prepare(o: Outcome)
      modifies this`status, this`any
      ensures Value() == Prepared(old(Value()), o)
    {
      if status != Init {
        return;
      }
      status := StatusOf(o);
      any := o.any;
    }

    /** `call_resolve` and `call_reject`, for a handler that returns a value or throws, and `clear_func`. */
    method Notify(o: Outcome)
      modifies this`status, this`any, this`step
      ensures Value() == Notified(old(Value()), o)
    {
      var handler := if o.Resolve? then step.onResolved else step.onRejected;
      if handler.Absent? {
        Prepare(o);
      } else {
        Prepare(handler.call(o.any));
      }
      step := NO_STEP;
    }
  }

  /** The promises of `c` have the records `r`. */
  ghost predicate Holds(c: seq<Promise>, r: seq<Record>)
    reads c`status, c`any, c`step
  {
    |r| == |c| && forall i :: 0 <= i < |c| ==> c[i].Value() == r[i]
  }

  /** The promises of `c`, in this order, from the one without predecessor to the one without successor. */
  ghost predicate Chain(c: seq<Promise>)
    reads c`next, c`prev
  {
    && c != []
    && Distinct(c)
    && Linked(c)
    && c[0].prev == null && c[|c| - 1].next == null
  }

  /** Each promise's next is the following one, whose prev it is. */
  ghost predicate Linked(c: seq<Promise>)
    reads c`next, c`prev
  {
    forall i, j :: 0 <= i && j == i + 1 < |c| ==> c[i].next == c[j] && c[j].prev == c[i]
  }

  /** Only the first promise lacks a predecessor and only the last one a successor. */
  lemma Neighbours(c: seq<Promise>, k: nat)
    requires Chain(c) && k < |c|
    ensures c[k].prev == if k == 0 then null else c[k - 1]
    ensures c[k].next == if k + 1 == |c| then null else c[k + 1]
  {
  }

  lemma JoinLinked(x: seq<Promise>, y: seq<Promise>)
    requires Linked(x) && Linked(y) && x != []
    requires y != [] ==> x[|x| - 1].next == y[0] && y[0].prev == x[|x| - 1]
    ensures Linked(x + y)
  {
  }

  lemma DistinctInsert(a: seq<Promise>, k: nat, c: seq<Promise>)
    requires Distinct(a) && Distinct(c) && Disjoint(a, c) && k <= |a|
    ensures Distinct(a[..k] + c + a[k..])
  {
  }

  /** `get_head`, from the promise at position i of its chain. It ends on every chain. */
  method GetHead(p: Promise, ghost c: seq<Promise>, ghost i: nat) returns (head: Promise)
    requires Chain(c) && i < |c| && c[i] == p
    ensures head == c[0]
  {
    head := p;
    ghost var k := i;
    while head.prev != null
      invariant 0 <= k < |c| && head == c[k]
      decreases k
    {
      Neighbours(c, k);
      head := head.prev;
      k := k - 1;
    }
    Neighbours(c, k);
  }

  /** `get_tail`. */
  method GetTail(p: Promise, ghost c: seq<Promise>, ghost i: nat) returns (tail: Promise)
    requires Chain(c) && i < |c| && c[i] == p
    ensures tail == c[|c| - 1]
  {
    tail := p;
    ghost var k := i;
    while tail.next != null
      invariant 0 <= k < |c| && tail == c[k]
      decreases |c| - k
    {
      Neighbours(c, k);
      tail := tail.next;
      k := k + 1;
    }
    Neighbours(c, k);
  }

  /** The links of two chains joined behind position i of the first. */
  ghost predicate Spliced(a: seq<Promise>, i: nat, c: seq<Promise>)
    requires i < |a| && c != []
    reads a, c
  {
    && Linked(a[..i + 1]) && Linked(c) && Linked(a[i + 1..])
    && a[0].prev == null && (i + 1 < |a| ==> a[|a| - 1].next == null)
    && a[i].next == c[0] && c[0].prev == a[i]
    && c[|c| - 1].next == (if i + 1 < |a| then a[i + 1] else null)
    && (i + 1 < |a| ==> a[i + 1].prev == c[|c| - 1])
  }

  lemma SplicedIsChain(a: seq<Promise>, i: nat, c: seq<Promise>)
    requires i < |a| && c != [] && Spliced(a, i, c)
    requires Distinct(a) && Distinct(c) && Disjoint(a, c)
    ensures Chain(a[..i + 1] + c + a[i + 1..])
  {
    var before, after := a[..i + 1], a[i + 1..];
    DistinctInsert(a, i + 1, c);
    JoinLinked(before, c);
    assert (before + c)[i + |c|] == c[|c| - 1];
    JoinLinked(before + c, after);
  }

  /** The four pointer updates. */
  method Splice(self: Promise, head: Promise, tail: Promise, ghost a: seq<Promise>, ghost i: nat, ghost c: seq<Promise>)
    requires Chain(a) && i < |a| && a[i] == self
    requires Chain(c) && head == c[0] && tail == c[|c| - 1] && Disjoint(a, c)
    modifies a`next, a`prev, c`next, c`prev
    ensures Spliced(a, i, c)
  {
    Neighbours(a, i);
    if self.next != null {
      self.next.prev := tail;
    }
    tail.next := self.next;
    self.next := head;
    head.prev := self;
  }

  /** `joinDeferObject`: the whole chain of `next`, found from any of its promises, goes right behind `self`. */
  method JoinDeferObject(self: Promise, next: Promise, ghost a: seq<Promise>, ghost i: nat,
                         ghost c: seq<Promise>, ghost j: nat, ghost all: seq<Promise>)
    requires Chain(a) && i < |a| && a[i] == self
    requires Chain(c) && j < |c| && c[j] == next && Disjoint(a, c)
    requires IsJoin(all, a, i + 1, c)
    modifies a`next, a`prev, c`next, c`prev
    ensures Chain(all)
  {
    var head := GetHead(next, c, j);
    var tail := GetTail(next, c, j);
    Splice(self, head, tail, a, i, c);
    JoinMeans(all, a, i + 1, c);
    SplicedIsChain(a, i, c);
  }

  lemma JoinPlaces<T>(all: seq<T>, a: seq<T>, i: nat, c: seq<T>, j: nat)
    requires IsJoin(all, a, i, c) && j < |c|
    ensures i + j < |all| && all[i + j] == c[j]
    ensures forall k :: 0 <= k < i ==> all[k] == a[k]
  {
  }

  lemma JoinedHolds(a: seq<Promise>, i: nat, c: seq<Promise>, ra: seq<Record>, rc: seq<Record>,
                    all: seq<Promise>, r: seq<Record>)
    requires Holds(a, ra) && Holds(c, rc) && IsJoin(all, a, i, c) && IsJoin(r, ra, i, rc)
    ensures Holds(all, r)
  {
  }

  /** `joinDeferObject` with the records of the two chains. */
  method Join(self: Promise, next: Promise, ghost a: seq<Promise>, ghost i: nat, ghost ra: seq<Record>,
              ghost c: seq<Promise>, ghost j: nat, ghost rc: seq<Record>, ghost all: seq<Promise>, ghost r: seq<Record>)
    requires Chain(a) && Holds(a, ra) && i < |a| && a[i] == self
    requires Chain(c) && Holds(c, rc) && j < |c| && c[j] == next && Disjoint(a, c)
    requires IsJoin(all, a, i + 1, c) && IsJoin(r, ra, i + 1, rc)
    modifies a`next, a`prev, c`next, c`prev
    ensures Chain(all) && Holds(all, r)
  {
    JoinDeferObject(self, next, a, i, c, j, all);
    JoinedHolds(a, i + 1, c, ra, rc, all, r);
  }

  // ----- `call_next`: the steps of a call, at any number of which a handler returns a promise

  /** One step of `call_next`, at which the successor's handler returns a value, throws, or is absent. */
  method HopPlain(p: Promise, ghost c: seq<Promise>, ghost k: nat, ghost r: seq<Record>) returns (next: Promise)
    requires Chain(c) && Holds(c, r) && k + 1 < |c| && c[k] == p && Settled(r[k])
    modifies c`status, c`any, c`step
    ensures Chain(c) && Holds(c, HandOn(r, k)) && next == c[k + 1]
  {
    Neighbours(c, k);
    next := p.next;
    var o := if p.status == Resolved then Resolve(p.any) else Reject(p.any);
    p.status := Finished;
    next.Notify(o);
    p.any := Empty;
  }

  /** The chain of `ret` goes behind the successor of `p`. */
  method JoinReturned(p: Promise, ret: Promise, ghost a: seq<Promise>, ghost k: nat, ghost ra: seq<Record>,
                      ghost c: seq<Promise>, ghost j: nat, ghost rc: seq<Record>,
                      ghost all: seq<Promise>, ghost joined: seq<Record>) returns (self: Promise)
    requires Chain(a) && Holds(a, ra) && k + 1 < |a| && a[k] == p
    requires Chain(c) && Holds(c, rc) && j < |c| && c[j] == ret && Disjoint(a, c)
    requires IsJoin(all, a, k + 2, c) && IsJoin(joined, ra, k + 2, rc)
    modifies a`next, a`prev, c`next, c`prev
    ensures Chain(all) && Holds(all, joined)
    ensures k + 2 + j < |all| && all[k] == p && all[k + 1] == self && all[k + 2 + j] == ret
  {
    Neighbours(a, k);
    self := p.next;
    JoinPlaces(all, a, k + 2, c, j);
    Join(self, ret, a, k + 1, ra, c, j, rc, all, joined);
  }

  /** The promise at k has handed on, and the next one is finished. */
  method FinishTwo(p: Promise, self: Promise, ghost c: seq<Promise>, ghost k: nat, ghost r: seq<Record>)
    requires Chain(c) && Holds(c, r) && k + 1 < |c| && c[k] == p && c[k + 1] == self
    modifies c`status, c`any, c`step
    ensures Chain(c) && Holds(c, Handed(r, k))
  {
    p.status := Finished;
    self.status := Finished;
    p.any := Empty;
    self.step := NO_STEP;
  }

  /** One step of `call_next`, at which the successor's handler returns `ret`. */
  method AdoptStep(p: Promise, ret: Promise, ghost a: seq<Promise>, ghost k: nat, ghost ra: seq<Record>,
                   ghost c: seq<Promise>, ghost j: nat, ghost rc: seq<Record>,
                   ghost all: seq<Promise>, ghost joined: seq<Record>)
    requires Chain(a) && Holds(a, ra) && k + 1 < |a| && a[k] == p
    requires Chain(c) && Holds(c, rc) && j < |c| && c[j] == ret && Disjoint(a, c)
    requires IsJoin(all, a, k + 2, c) && IsJoin(joined, ra, k + 2, rc)
    modifies a, c
    ensures Chain(all) && Holds(all, Handed(joined, k)) && k + 2 + j < |all| && all[k + 2 + j] == ret
  {
    var self := JoinReturned(p, ret, a, k, ra, c, j, rc, all, joined);
    FinishTwo(p, self, all, k, joined);
  }

  /** What a handler returned: the promise, at position `ret` of its chain, to the call standing at position `at`. */
  datatype Returned = Returned(at: nat, ret: nat, promise: Promise)

  function Members(chains: seq<seq<Promise>>): (m: set<Promise>)
    ensures forall i :: 0 <= i < |chains| ==> forall p :: p in chains[i] ==> p in m
    ensures forall p :: p in m ==> exists i :: 0 <= i < |chains| && p in chains[i]
  {
    set i, p | 0 <= i < |chains| && p in chains[i] :: p
  }

  /** The returned promises are in chains with the records `adopts` says. */
  ghost predicate Offered(rets: seq<Returned>, chains: seq<seq<Promise>>, adopts: seq<Adoption>)
    reads Members(chains)
  {
    && |rets| == |chains| == |adopts|
    && forall i :: 0 <= i < |rets| ==>
         && rets[i].at == adopts[i].at && rets[i].ret == adopts[i].ret < |chains[i]|
         && chains[i][rets[i].ret] == rets[i].promise && Chain(chains[i]) && Holds(chains[i], adopts[i].chain)
  }

  /** No promise is in two of the chains. */
  predicate Apart(c: seq<Promise>, chains: seq<seq<Promise>>) {
    && (forall i :: 0 <= i < |chains| ==> Disjoint(c, chains[i]))
    && (forall i, j :: 0 <= i < j < |chains| ==> Disjoint(chains[i], chains[j]))
  }

  lemma OfferedRest(a: seq<Promise>, rets: seq<Returned>, chains: seq<seq<Promise>>, adopts: seq<Adoption>)
    requires rets != [] && Offered(rets, chains, adopts) && Apart(a, chains)
    ensures Offered(rets[1..], chains[1..], adopts[1..])
    ensures forall p :: p in a || p in chains[0] ==> p !in Members(chains[1..])
  {
  }

  /** What is offered later is not touched by what happens to the chains before. */
  method AdoptFirst(p: Promise, ghost a: seq<Promise>, ghost k: nat, ghost ra: seq<Record>, rets: seq<Returned>,
                    ghost chains: seq<seq<Promise>>, ghost adopts: seq<Adoption>)
    returns (ghost all: seq<Promise>)
    requires Chain(a) && Holds(a, ra) && k + 1 < |a| && a[k] == p
    requires rets != [] && Offered(rets, chains, adopts) && Apart(a, chains) && rets[0].at == k
    modifies a, chains[0]
    ensures IsJoin(all, a, k + 2, chains[0]) && Chain(all) && Holds(all, JoinedBy(ra, adopts[0]))
    ensures k + 2 + rets[0].ret < |all| && all[k + 2 + rets[0].ret] == rets[0].promise
    ensures Offered(rets[1..], chains[1..], adopts[1..])
  {
    ghost var c, rc := chains[0], adopts[0].chain;
    all := NewJoin(a, k + 2, c);
    ghost var joined := NewJoin(ra, k + 2, rc);
    JoinedByIsJoin(joined, ra, adopts[0]);
    JoinPlaces(all, a, k + 2, c, rets[0].ret);
    OfferedRest(a, rets, chains, adopts);
    AdoptStep(p, rets[0].promise, a, k, ra, c, rets[0].ret, rc, all, joined);
  }

  /** The promises of the chains are in the frame. */
  predicate Within(c: seq<Promise>, chains: seq<seq<Promise>>, frame: set<Promise>) {
    (forall i :: 0 <= i < |c| ==> c[i] in frame) && Members(chains) <= frame
  }

  lemma JoinApart(all: seq<Promise>, a: seq<Promise>, i: nat, chains: seq<seq<Promise>>, frame: set<Promise>)
    requires chains != [] && Apart(a, chains) && IsJoin(all, a, i, chains[0]) && Within(a, chains, frame)
    ensures Apart(all, chains[1..]) && Within(all, chains[1..], frame)
  {
    forall n | 0 <= n < |chains[1..]| ensures Disjoint(all, chains[1..][n]) {
      assert chains[1..][n] == chains[n + 1];
    }
  }

  /** A call under way on the heap: it stands at the promise `p`, and `rets` are what handlers further on return. */
  ghost predicate Stands(p: Promise, c: seq<Promise>, call: Call, rets: seq<Returned>, chains: seq<seq<Promise>>,
                         frame: set<Promise>)
    reads frame
  {
    && Within(c, chains, frame) && Ready(call) && Apart(c, chains)
    && Chain(c) && Holds(c, call.chain) && c[call.k] == p
    && Offered(rets, chains, call.adopts)
  }

  /** One step at which the successor's handler returns a promise. */
  method HopAdopting(p: Promise, rets: seq<Returned>, ghost c: seq<Promise>, ghost chains: seq<seq<Promise>>,
                     ghost call: Call, ghost frame: set<Promise>)
    returns (ghost all: seq<Promise>)
    requires Stands(p, c, call, rets, chains, frame) && !Stops(call) && Adopts(call)
    modifies frame
    ensures all == Joined(c, call.k + 2, chains[0])
    ensures Stands(rets[0].promise, all, Hop(call), rets[1..], chains[1..], frame)
  {
    all := AdoptFirst(p, c, call.k, call.chain, rets, chains, call.adopts);
    JoinIs(all, c, call.k + 2, chains[0]);
    JoinApart(all, c, call.k + 2, chains, frame);
  }

  /** Any other step. */
  method HopPast(p: Promise, ghost rets: seq<Returned>, ghost c: seq<Promise>, ghost chains: seq<seq<Promise>>,
                 ghost call: Call, ghost frame: set<Promise>)
    returns (next: Promise)
    requires Stands(p, c, call, rets, chains, frame) && !Stops(call) && !Adopts(call)
    modifies frame
    ensures Stands(next, c, Hop(call), rets, chains, frame)
  {
    next := HopPlain(p, c, call.k, call.chain);
  }

  lemma StandsAligned(p: Promise, c: seq<Promise>, call: Call, rets: seq<Returned>, chains: seq<seq<Promise>>,
                      frame: set<Promise>)
    requires Stands(p, c, call, rets, chains, frame)
    ensures Aligned(c, chains, call)
  {
  }

  /** `call_next` of the promise at position k. `all` are the promises of the chain it ends with, `after` their
      records. */
  method CallNext(p: Promise, k: nat, rets: seq<Returned>, ghost c: seq<Promise>, ghost chains: seq<seq<Promise>>,
                  ghost call: Call, ghost frame: set<Promise>, ghost all: seq<Promise>, ghost after: seq<Record>)
    requires Stands(p, c, call, rets, chains, frame) && k == call.k
    requires Aligned(c, chains, call) && all == Line(c, chains, call) && after == Travel(call)
    modifies frame
    ensures Chain(all) && Holds(all, after)
    decreases |rets|, |c| - k
  {
    Neighbours(c, k);
    if (p.status == Resolved || p.status == Rejected) && p.next != null {
      if rets != [] && rets[0].at == k {
        ghost var joined := HopAdopting(p, rets, c, chains, call, frame);
        StandsAligned(rets[0].promise, joined, Hop(call), rets[1..], chains[1..], frame);
        CallNext(rets[0].promise, k + 2 + rets[0].ret, rets[1..], joined, chains[1..], Hop(call), frame, all, after);
      } else {
        var next := HopPast(p, rets, c, chains, call, frame);
        StandsAligned(next, c, Hop(call), rets, chains, frame);
        CallNext(next, k + 1, rets, c, chains, Hop(call), frame, all, after);
      }
    }
  }

  // ----- The events of a history

  /** `resolve` and `reject` of the promise at position k. */
  method SettlePromise(p: Promise, o: Outcome, k: nat, rets: seq<Returned>, ghost c: seq<Promise>,
                       ghost chains: seq<seq<Promise>>, ghost r: seq<Record>, ghost e: Event, ghost frame: set<Promise>)
    returns (ghost all: seq<Promise>)
    requires Stands(p, c, Call(r, k, e.adopts), rets, chains, frame) && e == SettleAt(k, o, e.adopts)
    modifies frame
    ensures Aligned(c, chains, CallOf(r, e))
    ensures all == (if Calls(r, e) then Line(c, chains, CallOf(r, e)) else c)
    ensures Chain(all) && Holds(all, Next(r, e))
  {
    PrepareFirst(p, o, rets, c, chains, r, e, frame);
    StandsAligned(p, c, CallOf(r, e), rets, chains, frame);
    all := c;
    if p.status == StatusOf(o) {
      all := Line(c, chains, CallOf(r, e));
      CallNext(p, k, rets, c, chains, CallOf(r, e), frame, all, Next(r, e));
    }
  }

  method PrepareFirst(p: Promise, o: Outcome, ghost rets: seq<Returned>, ghost c: seq<Promise>,
                      ghost chains: seq<seq<Promise>>, ghost r: seq<Record>, ghost e: Event, ghost frame: set<Promise>)
    requires Stands(p, c, Call(r, e.k, e.adopts), rets, chains, frame) && e == SettleAt(e.k, o, e.adopts)
    modifies frame
    ensures Stands(p, c, CallOf(r, e), rets, chains, frame)
  {
    p.Prepare(o);
  }

  /** `then` with a new promise that has two callbacks: it goes right behind `self`, which is called. */
  method AddStep(self: Promise, promise: Promise, k: nat, rets: seq<Returned>, ghost a: seq<Promise>,
                 ghost chains: seq<seq<Promise>>, ghost r: seq<Record>, ghost e: Event, ghost frame: set<Promise>)
    returns (ghost all: seq<Promise>)
    requires Stands(self, a, Call(r, k, e.adopts), rets, chains, frame) && e.ThenAt? && e.k == k
    requires Chain([promise]) && promise.Value() == Pending(e.step)
    requires promise in frame && promise !in a && promise !in Members(chains)
    modifies frame
    ensures var longer := Joined(a, k + 1, [promise]);
      Aligned(longer, chains, CallOf(r, e)) && all == Line(longer, chains, CallOf(r, e))
    ensures Chain(all) && Holds(all, Next(r, e))
  {
    ghost var longer := InsertFirst(self, promise, rets, a, chains, r, e, frame);
    JoinIs(longer, a, k + 1, [promise]);
    StandsAligned(self, longer, CallOf(r, e), rets, chains, frame);
    all := Line(longer, chains, CallOf(r, e));
    CallNext(self, k, rets, longer, chains, CallOf(r, e), frame, all, Next(r, e));
  }

  lemma InsertedApart(all: seq<Promise>, a: seq<Promise>, i: nat, p: Promise, chains: seq<seq<Promise>>,
                      frame: set<Promise>)
    requires IsJoin(all, a, i, [p]) && Apart(a, chains) && Within(a, chains, frame)
    requires p in frame && p !in Members(chains)
    ensures Apart(all, chains) && Within(all, chains, frame)
  {
  }

  method InsertFirst(self: Promise, promise: Promise, ghost rets: seq<Returned>, ghost a: seq<Promise>,
                     ghost chains: seq<seq<Promise>>, ghost r: seq<Record>, ghost e: Event, ghost frame: set<Promise>)
    returns (ghost all: seq<Promise>)
    requires Stands(self, a, Call(r, e.k, e.adopts), rets, chains, frame) && e.ThenAt?
    requires Chain([promise]) && promise.Value() == Pending(e.step)
    requires promise in frame && promise !in a && promise !in Members(chains)
    modifies frame
    ensures IsJoin(all, a, e.k + 1, [promise]) && Stands(self, all, CallOf(r, e), rets, chains, frame)
  {
    all := NewJoin(a, e.k + 1, [promise]);
    InsertedIsJoin(r, e.k, e.step);
    JoinPlaces(all, a, e.k + 1, [promise], 0);
    InsertedApart(all, a, e.k + 1, promise, chains, frame);
    Join(self, promise, a, e.k, r, [promise], 0, [Pending(e.step)], all, Started(r, e));
  }
}
