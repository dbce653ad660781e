/** How a settlement travels down a chain of promises: the records of the chain, the operations on them, and what every
    history of `then`, `resolve` and `reject` gives. */
module PromiseSettlement {
  /** What a promise carries: nothing, or some value. */
  datatype Any = Empty | Holding(value: int)

  datatype Status = Init | Resolved | Rejected | Finished

  /** The result of a settlement: a value, or a reason. */
  datatype Outcome = Resolve(any: Any) | Reject(any: Any)

  datatype Handler = Absent | Present(call: Any -> Outcome)

  /** The two callbacks given to `then`. */
  datatype Step = Step(onResolved: Handler, onRejected: Handler)

  datatype Record = Record(status: Status, any: Any, step: Step)

  const NO_STEP := Step(Absent, Absent)

  predicate Settled(r: Record) {
    r.status == Resolved || r.status == Rejected
  }

  function OutcomeOf(r: Record): Outcome
    requires Settled(r)
  {
    if r.status == Resolved then Resolve(r.any) else Reject(r.any)
  }

  function StatusOf(o: Outcome): Status {
    if o.Resolve? then Resolved else Rejected
  }

  /** `prepare_resolve` and `prepare_reject`: only a promise that is not settled yet takes the outcome. */
  function Prepared(r: Record, o: Outcome): Record {
    if r.status == Init then r.(status := StatusOf(o), any := o.any) else r
  }

  /** The handler for this kind of outcome, if there is one, turns it into another outcome. */
  function React(step: Step, o: Outcome): Outcome {
    var handler := if o.Resolve? then step.onResolved else step.onRejected;
    if handler.Present? then handler.call(o.any) else o
  }

  /** The record after the predecessor's outcome was handed on: the handlers are gone. */
  function Notified(r: Record, o: Outcome): Record {
    Prepared(r, React(r.step, o)).(step := NO_STEP)
  }

  /** A promise whose outcome was handed on. */
  function Spent(r: Record): Record {
    r.(status := Finished, any := Empty)
  }

  /** `call_next` at position k: a settled promise with a successor hands its outcome on, and so on down the chain. */
  function Propagate(chain: seq<Record>, k: nat): (r: seq<Record>)
    requires k < |chain|
    ensures |r| == |chain|
    decreases |chain| - k
  {
    if !Settled(chain[k]) || k + 1 == |chain| then chain
    else Propagate(HandOn(chain, k), k + 1)
  }

  function HandOn(chain: seq<Record>, k: nat): (r: seq<Record>)
    requires k + 1 < |chain| && Settled(chain[k])
    ensures |r| == |chain|
  {
    chain[k := Spent(chain[k])][k + 1 := Notified(chain[k + 1], OutcomeOf(chain[k]))]
  }

  /** `resolve` and `reject` of the promise at position k. */
  function Settle(chain: seq<Record>, k: nat, o: Outcome): (r: seq<Record>)
    requires k < |chain|
    ensures |r| == |chain|
  {
    var next := chain[k := Prepared(chain[k], o)];
    if next[k].status == StatusOf(o) then Propagate(next, k) else next
  }

  function Pending(step: Step): Record {
    Record(Init, Empty, step)
  }

  /** `then` on the promise at position k: a new promise right behind it, notified at once if that one is settled. */
  function Then(chain: seq<Record>, k: nat, step: Step): (r: seq<Record>)
    requires k < |chain|
    ensures |r| == |chain| + 1
  {
    Propagate(Inserted(chain, k, step), k)
  }

  function Inserted(chain: seq<Record>, k: nat, step: Step): (r: seq<Record>)
    requires k < |chain|
    ensures |r| == |chain| + 1
  {
    chain[..k + 1] + [Pending(step)] + chain[k + 1..]
  }

  /** The outcome at the end of a list of steps. */
  function Fold(steps: seq<Step>, o: Outcome): Outcome
    decreases |steps|
  {
    if steps == [] then o else Fold(steps[1..], React(steps[0], o))
  }

  function Steps(chain: seq<Record>): (r: seq<Step>)
    ensures |r| == |chain|
  {
    seq(|chain|, i requires 0 <= i < |chain| => chain[i].step)
  }

  // ----- What propagation does

  predicate AllInit(chain: seq<Record>, from: nat) {
    forall i :: from <= i < |chain| ==> chain[i].status == Init
  }

  /** Everything before the last promise was handed on; the last one holds the outcome. */
  ghost predicate Delivered(chain: seq<Record>, k: nat, o: Outcome) {
    && k < |chain|
    && (forall i :: k <= i < |chain| - 1 ==> chain[i].status == Finished && chain[i].any == Empty)
    && Settled(chain[|chain| - 1]) && OutcomeOf(chain[|chain| - 1]) == o
    && (forall i :: k < i < |chain| ==> chain[i].step == NO_STEP)
  }

  /** The promises before position k, and the handlers of the one at k, stay as they are. */
  lemma {:induction false} PropagateLeaves(chain: seq<Record>, k: nat)
    requires k < |chain|
    ensures Propagate(chain, k)[..k] == chain[..k] && Propagate(chain, k)[k].step == chain[k].step
    ensures Settled(chain[k]) && k + 1 < |chain| ==> Propagate(chain, k)[k] == Spent(chain[k])
    decreases |chain| - k
  {
    if Settled(chain[k]) && k + 1 < |chain| {
      var next := HandOn(chain, k);
      PropagateLeaves(next, k + 1);
      var last := Propagate(next, k + 1);
      assert last[k] == last[..k + 1][k] == next[..k + 1][k];
      assert last[..k] == last[..k + 1][..k] == next[..k + 1][..k] == chain[..k];
    }
  }

  /** A settled promise in front of pending ones: the last promise ends up with the outcome of all their steps. */
  lemma {:induction false} PropagateDelivers(chain: seq<Record>, k: nat)
    requires k < |chain| && Settled(chain[k]) && AllInit(chain, k + 1)
    ensures Delivered(Propagate(chain, k), k, Fold(Steps(chain[k + 1..]), OutcomeOf(chain[k])))
    decreases |chain| - k
  {
    PropagateLeaves(chain, k);
    if k + 1 < |chain| {
      var next := HandOn(chain, k);
      assert next[k + 2..] == chain[k + 2..];
      PropagateLeaves(next, k + 1);
      PropagateDelivers(next, k + 1);
      var steps := Steps(chain[k + 1..]);
      assert steps[1..] == Steps(chain[k + 2..]);
    }
  }

  // ----- The order of `then` and `resolve` does not matter

  /** Each step is added behind the last promise. */
  function Attach(chain: seq<Record>, steps: seq<Step>): (r: seq<Record>)
    requires chain != []
    ensures |r| == |chain| + |steps|
    decreases |steps|
  {
    if steps == [] then chain else Attach(Then(chain, |chain| - 1, steps[0]), steps[1..])
  }

  lemma {:induction false} InsertedAtEnd(chain: seq<Record>, step: Step)
    requires chain != []
    ensures Inserted(chain, |chain| - 1, step) == chain + [Pending(step)]
  {
  }

  lemma {:induction false} ThenAtEnd(chain: seq<Record>, step: Step)
    requires chain != []
    ensures Then(chain, |chain| - 1, step) == Propagate(chain + [Pending(step)], |chain| - 1)
  {
    InsertedAtEnd(chain, step);
  }

  lemma {:induction false} AttachToPending(chain: seq<Record>, steps: seq<Step>)
    requires chain != [] && AllInit(chain, 0)
    ensures AllInit(Attach(chain, steps), 0) && Steps(Attach(chain, steps)) == Steps(chain) + steps
    decreases |steps|
  {
    if steps != [] {
      ThenAtEnd(chain, steps[0]);
      var longer := Then(chain, |chain| - 1, steps[0]);
      AttachToPending(longer, steps[1..]);
      assert Steps(longer) == Steps(chain) + [steps[0]];
      assert Steps(chain) + [steps[0]] + steps[1..] == Steps(chain) + steps;
    }
  }

  lemma {:induction false} ThenOnDelivered(chain: seq<Record>, step: Step, o: Outcome)
    requires Delivered(chain, 0, o)
    ensures Delivered(Then(chain, |chain| - 1, step), 0, React(step, o))
  {
    var k := |chain| - 1;
    var longer := chain + [Pending(step)];
    ThenAtEnd(chain, step);
    PropagateLeaves(longer, k);
    PropagateDelivers(longer, k);
    assert longer[k + 1..] == [Pending(step)] && Steps(longer[k + 1..]) == [step];
    assert Fold([step], o) == Fold([], React(step, o));
    var last := Then(chain, k, step);
    forall i | 0 <= i < k ensures last[i] == chain[i] {
      assert last[i] == last[..k][i] == longer[..k][i];
    }
  }

  lemma {:induction false} AttachToDelivered(chain: seq<Record>, steps: seq<Step>, o: Outcome)
    requires Delivered(chain, 0, o)
    ensures Delivered(Attach(chain, steps), 0, Fold(steps, o))
    decreases |steps|
  {
    if steps != [] {
      ThenOnDelivered(chain, steps[0], o);
      AttachToDelivered(Then(chain, |chain| - 1, steps[0]), steps[1..], React(steps[0], o));
    }
  }

  lemma {:induction false} FoldConcat(a: seq<Step>, b: seq<Step>, o: Outcome)
    ensures Fold(a + b, o) == Fold(b, Fold(a, o))
    decreases |a|
  {
    if a == [] {
      assert a + b == b;
    } else {
      FoldConcat(a[1..], b, React(a[0], o));
      assert (a + b)[1..] == a[1..] + b;
    }
  }

  /** Steps attached before and after the first promise is settled: every promise but the last is finished, and the last
      one has the outcome of all steps in order, wherever the settlement came in between. */
  lemma {:induction false} SettlementTheorem(early: seq<Step>, late: seq<Step>, o: Outcome)
    ensures var waiting := Attach([Pending(NO_STEP)], early);
      Delivered(Attach(Settle(waiting, 0, o), late), 0, Fold(early + late, o))
  {
    var first := [Pending(NO_STEP)];
    var waiting := Attach(first, early);
    AttachToPending(first, early);
    var next := waiting[0 := Prepared(waiting[0], o)];
    assert Steps(next[1..]) == early by {
      assert Steps(waiting) == Steps(first) + early;
      assert forall i :: 0 <= i < |early| ==> Steps(next[1..])[i] == Steps(waiting)[i + 1];
    }
    PropagateDelivers(next, 0);
    assert Settle(waiting, 0, o) == Propagate(next, 0);
    AttachToDelivered(Settle(waiting, 0, o), late, Fold(early, o));
    FoldConcat(early, late, o);
  }

  // ----- A handler that returns a promise

  /** `all` is `a` with `c` inserted at position i. */
  ghost predicate IsJoin<T>(all: seq<T>, a: seq<T>, i: nat, c: seq<T>) {
    && i <= |a| && |all| == |a| + |c|
    && forall k {:trigger all[k]} :: 0 <= k < |all| ==>
         all[k] == if k < i then a[k] else if k < i + |c| then c[k - i] else a[k - |c|]
  }

  /** `c` inserted into `a` at position i. */
  function Joined<T>(a: seq<T>, i: nat, c: seq<T>): (all: seq<T>)
    requires i <= |a|
    ensures IsJoin(all, a, i, c)
  {
    a[..i] + c + a[i..]
  }

  lemma {:induction false} JoinMeans<T>(all: seq<T>, a: seq<T>, i: nat, c: seq<T>)
    requires i <= |a|
    ensures IsJoin(all, a, i, c) <==> all == a[..i] + c + a[i..]
  {
    var joined := a[..i] + c + a[i..];
    assert IsJoin(joined, a, i, c);
    if IsJoin(all, a, i, c) {
      assert forall k :: 0 <= k < |all| ==> all[k] == joined[k];
    }
  }

  lemma {:induction false} JoinIs<T>(all: seq<T>, a: seq<T>, i: nat, c: seq<T>)
    requires IsJoin(all, a, i, c)
    ensures all == Joined(a, i, c)
  {
    JoinMeans(all, a, i, c);
  }

  lemma {:induction false} NewJoin<T>(a: seq<T>, i: nat, c: seq<T>) returns (all: seq<T>)
    requires i <= |a|
    ensures IsJoin(all, a, i, c)
  {
    all := Joined(a, i, c);
  }

  lemma {:induction false} InsertedIsJoin(r: seq<Record>, i: nat, step: Step)
    requires i < |r|
    ensures IsJoin(Inserted(r, i, step), r, i + 1, [Pending(step)])
  {
  }

  /** The promise at k has handed on, the next one is finished. */
  function Handed(r: seq<Record>, k: nat): (r': seq<Record>)
    requires k + 1 < |r|
    ensures |r'| == |r|
  {
    r[k := Spent(r[k])][k + 1 := r[k + 1].(status := Finished, step := NO_STEP)]
  }

  /** `call_next` at k when the successor's handler returns the promise at position j of chain `c`: the successor is
      finished, `c` is joined behind it, and the returned promise hands on what it may hold. */
  function Adopting(chain: seq<Record>, k: nat, c: seq<Record>, j: nat): seq<Record>
    requires k + 1 < |chain| && j < |c|
  {
    Propagate(Handed(chain[..k + 2] + c + chain[k + 2..], k), k + 2 + j)
  }

  lemma {:induction false} JoinedByIsJoin(joined: seq<Record>, chain: seq<Record>, a: Adoption)
    requires a.at + 1 < |chain| && IsJoin(joined, chain, a.at + 2, a.chain)
    ensures Handed(joined, a.at) == JoinedBy(chain, a)
  {
    JoinMeans(joined, chain, a.at + 2, a.chain);
    JoinedIsHanded(chain, a);
  }

  lemma {:induction false} AdoptedParts(chain: seq<Record>, k: nat, c: seq<Record>, j: nat)
    requires k + 1 < |chain| && j < |c|
    ensures var joined := Handed(chain[..k + 2] + c + chain[k + 2..], k);
      && joined[k + 2 + j] == c[j]
      && joined[k + 2 + j + 1..] == c[j + 1..] + chain[k + 2..]
      && Steps(joined[k + 2 + j + 1..]) == Steps(c[j + 1..]) + Steps(chain[k + 2..])
  {
  }

  /** The rest of the chain gets the returned promise's outcome, through its remaining steps and then its own, whether
      the promise was settled when it was returned or is settled later. */
  lemma {:induction false} AdoptionTheorem(chain: seq<Record>, k: nat, c: seq<Record>, j: nat, o: Outcome)
    requires k + 1 < |chain| && j < |c| && AllInit(chain, k + 2) && AllInit(c, j + 1)
    requires if Settled(c[j]) then OutcomeOf(c[j]) == o else c[j].status == Init
    ensures var end := Fold(Steps(c[j + 1..]) + Steps(chain[k + 2..]), o);
      if Settled(c[j]) then Delivered(Adopting(chain, k, c, j), k + 2 + j, end)
      else Delivered(Settle(Adopting(chain, k, c, j), k + 2 + j, o), k + 2 + j, end)
  {
    var joined, at := Handed(chain[..k + 2] + c + chain[k + 2..], k), k + 2 + j;
    AdoptedParts(chain, k, c, j);
    assert forall i :: at < i < |joined| ==> joined[i] == joined[at + 1..][i - at - 1];
    if Settled(c[j]) {
      PropagateDelivers(joined, at);
    } else {
      var next := joined[at := Prepared(joined[at], o)];
      assert next[at + 1..] == joined[at + 1..];
      PropagateDelivers(next, at);
    }
  }

  // ----- Histories

  /** The handler of the successor of position `at` returned the promise at `ret` of `chain`. */
  datatype Adoption = Adoption(at: nat, chain: seq<Record>, ret: nat)

  predicate AllReturn(adopts: seq<Adoption>) {
    forall i :: 0 <= i < |adopts| ==> adopts[i].ret < |adopts[i].chain|
  }

  /** The record at position i of the chain when `a` is adopted. */
  function JoinedAt(chain: seq<Record>, a: Adoption, i: nat): Record
    requires a.at + 1 < |chain| && i < |chain| + |a.chain|
  {
    if i < a.at then chain[i]
    else if i == a.at then Spent(chain[i])
    else if i == a.at + 1 then chain[i].(status := Finished, step := NO_STEP)
    else if i < a.at + 2 + |a.chain| then a.chain[i - a.at - 2]
    else chain[i - |a.chain|]
  }

  /** The chain when `a` is adopted: the adopting promise is finished, the other chain joined behind it. */
  function JoinedBy(chain: seq<Record>, a: Adoption): (r: seq<Record>)
    requires a.at + 1 < |chain|
    ensures |r| == |chain| + |a.chain| && forall i :: 0 <= i < |r| ==> r[i] == JoinedAt(chain, a, i)
  {
    seq(|chain| + |a.chain|, i requires 0 <= i < |chain| + |a.chain| => JoinedAt(chain, a, i))
  }

  lemma {:induction false} JoinedIsHanded(chain: seq<Record>, a: Adoption)
    requires a.at + 1 < |chain|
    ensures JoinedBy(chain, a) == Handed(chain[..a.at + 2] + a.chain + chain[a.at + 2..], a.at)
  {
  }

  /** A `call_next` under way: it stands at position k; `adopts` are the promises that handlers further on return. */
  datatype Call = Call(chain: seq<Record>, k: nat, adopts: seq<Adoption>)

  predicate Ready(c: Call) {
    c.k < |c.chain| && AllReturn(c.adopts)
  }

  predicate Stops(c: Call)
    requires Ready(c)
  {
    !Settled(c.chain[c.k]) || c.k + 1 == |c.chain|
  }

  /** The handler of the successor returns a promise. */
  predicate Adopts(c: Call) {
    c.adopts != [] && c.adopts[0].at == c.k
  }

  /** One step of the call. */
  function Hop(c: Call): (c': Call)
    requires Ready(c) && !Stops(c)
    ensures Ready(c') && |c'.chain| >= |c.chain|
  {
    if Adopts(c) then Call(JoinedBy(c.chain, c.adopts[0]), c.k + 2 + c.adopts[0].ret, c.adopts[1..])
    else Call(HandOn(c.chain, c.k), c.k + 1, c.adopts)
  }

  /** Where the promise at position i is after one step. */
  function Shift(c: Call, i: nat): nat {
    if Adopts(c) && i >= c.k + 2 then i + |c.adopts[0].chain| else i
  }

  /** The chain when the call is over. */
  function Travel(c: Call): (r: seq<Record>)
    requires Ready(c)
    ensures |r| >= |c.chain|
    decreases |c.adopts|, |c.chain| - c.k
  {
    if Stops(c) then c.chain else Travel(Hop(c))
  }

  /** Where the promise at position i is then. */
  function Where(c: Call, i: nat): nat
    requires Ready(c)
    decreases |c.adopts|, |c.chain| - c.k
  {
    if Stops(c) then i else Where(Hop(c), Shift(c, i))
  }

  /** `c` are the promises of the call's chain, `chains` those of the returned chains. */
  predicate Aligned<T>(c: seq<T>, chains: seq<seq<T>>, call: Call) {
    && Ready(call) && |c| == |call.chain| && |chains| == |call.adopts|
    && forall i :: 0 <= i < |chains| ==> |chains[i]| == |call.adopts[i].chain|
  }

  /** The promises of the chain when the call is over, in order. */
  function Line<T>(c: seq<T>, chains: seq<seq<T>>, call: Call): seq<T>
    requires Aligned(c, chains, call)
    decreases |call.adopts|, |call.chain| - call.k
  {
    if Stops(call) then c
    else if Adopts(call) then Line(Joined(c, call.k + 2, chains[0]), chains[1..], Hop(call))
    else Line(c, chains, Hop(call))
  }

  /** The promise at position i is then the one at `Where(call, i)`. */
  lemma {:induction false} LinePlaces<T>(c: seq<T>, chains: seq<seq<T>>, call: Call, i: nat)
    requires Aligned(c, chains, call) && i < |c|
    ensures |Line(c, chains, call)| == |Travel(call)|
    ensures Where(call, i) < |Travel(call)| && Line(c, chains, call)[Where(call, i)] == c[i]
    decreases |call.adopts|, |call.chain| - call.k
  {
    if !Stops(call) {
      if Adopts(call) {
        LinePlaces(Joined(c, call.k + 2, chains[0]), chains[1..], Hop(call), Shift(call, i));
      } else {
        LinePlaces(c, chains, Hop(call), Shift(call, i));
      }
    }
  }

  /** Without handlers that return promises it is the plain propagation. */
  lemma {:induction false} TravelWithout(chain: seq<Record>, k: nat)
    requires k < |chain|
    ensures Travel(Call(chain, k, [])) == Propagate(chain, k)
    decreases |chain| - k
  {
    if Settled(chain[k]) && k + 1 < |chain| {
      TravelWithout(HandOn(chain, k), k + 1);
    }
  }

  /** With one it is the adoption. */
  lemma {:induction false} TravelWithOne(chain: seq<Record>, a: Adoption)
    requires a.at + 1 < |chain| && Settled(chain[a.at]) && a.ret < |a.chain|
    ensures Travel(Call(chain, a.at, [a])) == Adopting(chain, a.at, a.chain, a.ret)
  {
    var c := Call(chain, a.at, [a]);
    assert [a][1..] == [];
    assert Hop(c) == Call(JoinedBy(chain, a), a.at + 2 + a.ret, []);
    JoinedIsHanded(chain, a);
    TravelWithout(JoinedBy(chain, a), a.at + 2 + a.ret);
  }

  /** Without returned promises the promises stay in order; one returned promise brings its chain in behind the promise
      that adopts it. */
  lemma {:induction false} LineWithout<T>(c: seq<T>, chain: seq<Record>, k: nat)
    requires k < |chain| == |c|
    ensures Line(c, [], Call(chain, k, [])) == c
    decreases |chain| - k
  {
    var call := Call(chain, k, []);
    if !Stops(call) {
      assert Hop(call) == Call(HandOn(chain, k), k + 1, []);
      LineWithout(c, HandOn(chain, k), k + 1);
    }
  }

  lemma {:induction false} LineWithOne<T>(c: seq<T>, d: seq<T>, chain: seq<Record>, a: Adoption)
    requires a.at + 1 < |chain| == |c| && Settled(chain[a.at]) && a.ret < |a.chain| == |d|
    ensures Line(c, [d], Call(chain, a.at, [a])) == Joined(c, a.at + 2, d)
  {
    var call := Call(chain, a.at, [a]);
    assert [a][1..] == [] && [d][1..] == [];
    assert Hop(call) == Call(JoinedBy(chain, a), a.at + 2 + a.ret, []);
    LineWithout(Joined(c, a.at + 2, d), JoinedBy(chain, a), a.at + 2 + a.ret);
  }

  /** `adopts` are the promises that handlers return on the way. */
  datatype Event =
    | SettleAt(k: nat, outcome: Outcome, adopts: seq<Adoption>)
    | ThenAt(k: nat, step: Step, adopts: seq<Adoption>)

  predicate Fits(chain: seq<Record>, e: Event) {
    e.k < |chain| && AllReturn(e.adopts)
  }

  /** The chain when the event calls `call_next` at its position; if it does. */
  function Started(chain: seq<Record>, e: Event): (r: seq<Record>)
    requires Fits(chain, e)
    ensures |r| >= |chain|
  {
    match e
    case SettleAt(k, o, _) => chain[k := Prepared(chain[k], o)]
    case ThenAt(k, step, _) => Inserted(chain, k, step)
  }

  predicate Calls(chain: seq<Record>, e: Event)
    requires Fits(chain, e)
  {
    e.SettleAt? ==> Started(chain, e)[e.k].status == StatusOf(e.outcome)
  }

  function CallOf(chain: seq<Record>, e: Event): (c: Call)
    requires Fits(chain, e)
    ensures Ready(c)
  {
    Call(Started(chain, e), e.k, e.adopts)
  }

  function Next(chain: seq<Record>, e: Event): (r: seq<Record>)
    requires Fits(chain, e)
    ensures |r| >= |chain|
  {
    if Calls(chain, e) then Travel(CallOf(chain, e)) else Started(chain, e)
  }

  /** Where the promise at position i is when the event starts, and when it is over. */
  function StartedAt(e: Event, i: nat): nat {
    if e.ThenAt? && i > e.k then i + 1 else i
  }

  function Moved(chain: seq<Record>, e: Event, i: nat): nat
    requires Fits(chain, e)
  {
    if Calls(chain, e) then Where(CallOf(chain, e), StartedAt(e, i)) else StartedAt(e, i)
  }

  /** Without adoptions the events are `resolve`, `reject` and `then`. */
  lemma {:induction false} PlainEvents(chain: seq<Record>, k: nat, o: Outcome, step: Step)
    requires k < |chain|
    ensures Next(chain, SettleAt(k, o, [])) == Settle(chain, k, o)
    ensures Next(chain, ThenAt(k, step, [])) == Then(chain, k, step)
  {
    TravelWithout(chain[k := Prepared(chain[k], o)], k);
    TravelWithout(Inserted(chain, k, step), k);
  }

  predicate AllFit(chain: seq<Record>, events: seq<Event>)
    decreases |events|
  {
    events != [] ==> Fits(chain, events[0]) && AllFit(Next(chain, events[0]), events[1..])
  }

  function Run(chain: seq<Record>, events: seq<Event>): seq<Record>
    requires AllFit(chain, events)
    decreases |events|
  {
    if events == [] then chain else Run(Next(chain, events[0]), events[1..])
  }

  function MovedBy(chain: seq<Record>, events: seq<Event>, i: nat): nat
    requires AllFit(chain, events)
    decreases |events|
  {
    if events == [] then i else MovedBy(Next(chain, events[0]), events[1..], Moved(chain, events[0], i))
  }

  // ----- What every history keeps

  /** Only the last promise of a chain may hold an outcome that was not handed on. */
  predicate Stable(chain: seq<Record>) {
    forall i :: 0 <= i < |chain| - 1 ==> !Settled(chain[i])
  }

  /** A chain whose returned promise leaves nothing behind that was not handed on: the chain is stable, and if its last
      promise holds an outcome, that is the one returned. */
  predicate Clean(a: Adoption) {
    a.ret < |a.chain| && Stable(a.chain) && (Settled(a.chain[|a.chain| - 1]) ==> a.ret == |a.chain| - 1)
  }

  predicate AllClean(adopts: seq<Adoption>) {
    forall i :: 0 <= i < |adopts| ==> Clean(adopts[i])
  }

  /** Stable but for position k. */
  predicate StableBut(chain: seq<Record>, k: nat) {
    forall i :: 0 <= i < |chain| - 1 && i != k ==> !Settled(chain[i])
  }

  lemma {:induction false} HopStable(c: Call)
    requires Ready(c) && !Stops(c) && AllClean(c.adopts) && StableBut(c.chain, c.k)
    ensures AllClean(Hop(c).adopts) && StableBut(Hop(c).chain, Hop(c).k)
  {
  }

  lemma {:induction false} TravelStable(c: Call)
    requires Ready(c) && AllClean(c.adopts) && StableBut(c.chain, c.k)
    ensures Stable(Travel(c))
    decreases |c.adopts|, |c.chain| - c.k
  {
    if !Stops(c) {
      HopStable(c);
      TravelStable(Hop(c));
    }
  }

  /** A returned promise that leaves something behind does not travel on, and what it leaves behind is then not last. */
  lemma {:induction false} UncleanStays(chain: seq<Record>, a: Adoption)
    requires a.at + 1 < |chain| && Settled(chain[a.at])
    requires a.ret < |a.chain| && Stable(a.chain) && !Clean(a)
    ensures Travel(Call(chain, a.at, [a])) == JoinedBy(chain, a)
  {
    var c := Call(chain, a.at, [a]);
    assert [a][1..] == [];
    assert Hop(c) == Call(JoinedBy(chain, a), a.at + 2 + a.ret, []);
    assert JoinedBy(chain, a)[a.at + 2 + a.ret] == a.chain[a.ret];
    assert Stops(Hop(c));
  }

  lemma {:induction false} UncleanJoined(chain: seq<Record>, a: Adoption)
    requires a.at + 1 < |chain| && StableBut(chain, a.at)
    requires a.ret < |a.chain| && Stable(a.chain) && !Clean(a)
    ensures Stable(JoinedBy(chain, a)) <==> a.at + 2 == |chain|
  {
    var last := a.at + 2 + |a.chain| - 1;
    assert JoinedBy(chain, a)[last] == a.chain[|a.chain| - 1];
  }

  /** A returned promise of a stable chain keeps stability exactly if it leaves nothing behind or nothing follows. */
  lemma {:induction false} AdoptionStableExactly(chain: seq<Record>, a: Adoption)
    requires a.at + 1 < |chain| && Settled(chain[a.at]) && StableBut(chain, a.at)
    requires a.ret < |a.chain| && Stable(a.chain)
    ensures Stable(Travel(Call(chain, a.at, [a]))) <==> Clean(a) || a.at + 2 == |chain|
  {
    if Clean(a) {
      TravelStable(Call(chain, a.at, [a]));
    } else {
      UncleanStays(chain, a);
      UncleanJoined(chain, a);
    }
  }

  lemma {:induction false} NextStable(chain: seq<Record>, e: Event)
    requires Fits(chain, e) && AllClean(e.adopts) && Stable(chain)
    ensures Stable(Next(chain, e))
  {
    if Calls(chain, e) {
      TravelStable(CallOf(chain, e));
    }
  }

  /** A settled promise keeps its outcome until it is handed on, and is then finished for good; a handler is never
      replaced, at most dropped. */
  ghost predicate Keeps(r: Record, r': Record) {
    && (r.status == Finished ==> r'.status == Finished)
    && (Settled(r) ==> r'.status == Finished || (r'.status == r.status && r'.any == r.any))
    && (r'.step == r.step || r'.step == NO_STEP)
  }

  lemma {:induction false} HopKeeps(c: Call, i: nat)
    requires Ready(c) && !Stops(c) && i < |c.chain|
    ensures Shift(c, i) < |Hop(c).chain| && Keeps(c.chain[i], Hop(c).chain[Shift(c, i)])
  {
  }

  lemma {:induction false} TravelKeeps(c: Call, i: nat)
    requires Ready(c) && i < |c.chain|
    ensures Where(c, i) < |Travel(c)| && Keeps(c.chain[i], Travel(c)[Where(c, i)])
    decreases |c.adopts|, |c.chain| - c.k
  {
    if !Stops(c) {
      HopKeeps(c, i);
      TravelKeeps(Hop(c), Shift(c, i));
    }
  }

  lemma {:induction false} StartedKeeps(chain: seq<Record>, e: Event, i: nat)
    requires Fits(chain, e) && i < |chain|
    ensures StartedAt(e, i) < |Started(chain, e)|
    ensures (e.SettleAt? && e.k == i) || Started(chain, e)[StartedAt(e, i)] == chain[i]
    ensures Keeps(chain[i], Started(chain, e)[StartedAt(e, i)])
  {
  }

  lemma {:induction false} NextKeeps(chain: seq<Record>, e: Event, i: nat)
    requires Fits(chain, e) && i < |chain|
    ensures Moved(chain, e, i) < |Next(chain, e)| && Keeps(chain[i], Next(chain, e)[Moved(chain, e, i)])
  {
    StartedKeeps(chain, e, i);
    if Calls(chain, e) {
      TravelKeeps(CallOf(chain, e), StartedAt(e, i));
    }
  }

  /** In every history, handlers that return promises included: each promise is settled at most once; and if the
      returned promises leave nothing behind, only the last promise of the chain holds an outcome that was not handed
      on. */
  lemma {:induction false} HistoryTheorem(chain: seq<Record>, events: seq<Event>, i: nat)
    requires AllFit(chain, events) && i < |chain|
    ensures var last := Run(chain, events); var j := MovedBy(chain, events, i);
      && j < |last| && Keeps(chain[i], last[j])
      && (Stable(chain) && (forall n :: 0 <= n < |events| ==> AllClean(events[n].adopts)) ==> Stable(last))
    decreases |events|
  {
    if events != [] {
      var e, next := events[0], Next(chain, events[0]);
      NextKeeps(chain, e, i);
      HistoryTheorem(next, events[1..], Moved(chain, e, i));
      if Stable(chain) && forall n :: 0 <= n < |events| ==> AllClean(events[n].adopts) {
        NextStable(chain, e);
        assert forall n :: 0 <= n < |events[1..]| ==> events[1..][n] == events[n + 1];
      }
    }
  }

  /** The promise whose handler returned another one is finished: it has no value and no callbacks, and settling it
      afterwards changes nothing. */
  lemma {:induction false} AdopterIsFinished(chain: seq<Record>, a: Adoption, o: Outcome)
    requires a.at + 1 < |chain| && Settled(chain[a.at]) && a.ret < |a.chain|
    ensures var last, k := Travel(Call(chain, a.at, [a])), a.at + 1;
      && k < |last| && last[k].status == Finished && last[k].step == NO_STEP
      && last[a.at].status == Finished && last[a.at].any == Empty
      && Next(last, SettleAt(k, o, [])) == last
  {
    var c := Call(chain, a.at, [a]);
    assert [a][1..] == [];
    assert Hop(c) == Call(JoinedBy(chain, a), a.at + 2 + a.ret, []);
    TravelLeaves(Hop(c), a.at);
    TravelLeaves(Hop(c), a.at + 1);
  }

  // ----- Which callback runs

  /** The outcome at the end of a chain of pending promises of which the one at k is settled. */
  lemma {:induction false} EndOf(chain: seq<Record>, k: nat, o: Outcome)
    requires k < |chain| && AllInit(chain, k)
    ensures var last := Next(chain, SettleAt(k, o, []));
      |last| == |chain| && Delivered(last, k, Fold(Steps(chain[k + 1..]), o))
  {
    var next := chain[k := Prepared(chain[k], o)];
    PlainEvents(chain, k, o, NO_STEP);
    assert next[k + 1..] == chain[k + 1..];
    PropagateDelivers(next, k);
  }

  lemma {:induction false} FoldFrom(chain: seq<Record>, k: nat, m: nat, o: Outcome)
    requires k < m < |chain| && forall i :: k < i < m ==> React(chain[i].step, o) == o
    ensures Fold(Steps(chain[k + 1..]), o) == Fold(Steps(chain[m + 1..]), React(chain[m].step, o))
    decreases m - k
  {
    assert Steps(chain[k + 1..])[1..] == Steps(chain[k + 2..]);
    if k + 1 < m {
      FoldFrom(chain, k + 1, m, o);
    }
  }

  lemma {:induction false} FoldPasses(chain: seq<Record>, k: nat, o: Outcome)
    requires k < |chain| && forall i :: k < i < |chain| ==> React(chain[i].step, o) == o
    ensures Fold(Steps(chain[k + 1..]), o) == o
  {
    if k + 1 < |chain| {
      FoldFrom(chain, k, |chain| - 1, o);
      assert Steps(chain[|chain|..]) == [];
    }
  }

  /** A value goes past every step without `onResolved`, whatever `onRejected` it has, to the first one with it; from
      there on all is as if that promise had been settled with what its `onResolved` makes of the value. */
  lemma {:induction false} ValueMeetsResolved(chain: seq<Record>, k: nat, m: nat, v: Any, f: Any -> Outcome)
    requires k < m < |chain| && AllInit(chain, k)
    requires forall i :: k < i < m ==> chain[i].step.onResolved.Absent?
    requires chain[m].step.onResolved == Present(f)
    ensures var end := |chain| - 1;
      && var last, short := Next(chain, SettleAt(k, Resolve(v), [])), Next(chain, SettleAt(m, f(v), []));
      && |last| == |short| == |chain| && Settled(last[end]) && Settled(short[end])
      && OutcomeOf(last[end]) == OutcomeOf(short[end])
      && (m == end ==> OutcomeOf(last[end]) == f(v))
  {
    EndOf(chain, k, Resolve(v));
    EndOf(chain, m, f(v));
    FoldFrom(chain, k, m, Resolve(v));
  }

  /** The dual for a reason and `onRejected`. */
  lemma {:induction false} ReasonMeetsRejected(chain: seq<Record>, k: nat, m: nat, v: Any, g: Any -> Outcome)
    requires k < m < |chain| && AllInit(chain, k)
    requires forall i :: k < i < m ==> chain[i].step.onRejected.Absent?
    requires chain[m].step.onRejected == Present(g)
    ensures var end := |chain| - 1;
      && var last, short := Next(chain, SettleAt(k, Reject(v), [])), Next(chain, SettleAt(m, g(v), []));
      && |last| == |short| == |chain| && Settled(last[end]) && Settled(short[end])
      && OutcomeOf(last[end]) == OutcomeOf(short[end])
      && (m == end ==> OutcomeOf(last[end]) == g(v))
  {
    EndOf(chain, k, Reject(v));
    EndOf(chain, m, g(v));
    FoldFrom(chain, k, m, Reject(v));
  }

  /** With no callback of its kind on the way, an outcome arrives at the end as it is. */
  lemma {:induction false} OutcomePasses(chain: seq<Record>, k: nat, v: Any)
    requires k < |chain| && AllInit(chain, k)
    ensures var end := |chain| - 1;
      && var value, reason := Next(chain, SettleAt(k, Resolve(v), [])), Next(chain, SettleAt(k, Reject(v), []));
      && |value| == |reason| == |chain|
      && ((forall i :: k < i < |chain| ==> chain[i].step.onResolved.Absent?) ==>
            value[end].status == Resolved && value[end].any == v)
      && ((forall i :: k < i < |chain| ==> chain[i].step.onRejected.Absent?) ==>
            reason[end].status == Rejected && reason[end].any == v)
  {
    EndOf(chain, k, Resolve(v));
    EndOf(chain, k, Reject(v));
    if forall i :: k < i < |chain| ==> chain[i].step.onResolved.Absent? {
      FoldPasses(chain, k, Resolve(v));
    }
    if forall i :: k < i < |chain| ==> chain[i].step.onRejected.Absent? {
      FoldPasses(chain, k, Reject(v));
    }
  }

  /** `then` on a last promise that holds an outcome runs the callback of that kind at once; without one the new
      promise takes the outcome. */
  lemma {:induction false} ThenRunsCallback(chain: seq<Record>, step: Step)
    requires chain != [] && Settled(chain[|chain| - 1])
    ensures var k := |chain| - 1;
      var v, last := chain[k].any, Next(chain, ThenAt(k, step, []));
      && |last| == |chain| + 1 && Settled(last[k + 1])
      && OutcomeOf(last[k + 1]) ==
         match (chain[k].status, step)
         case (Resolved, Step(Present(f), _)) => f(v)
         case (Resolved, Step(Absent, _)) => Resolve(v)
         case (_, Step(_, Present(g))) => g(v)
         case (_, Step(_, Absent)) => Reject(v)
  {
    var k, longer := |chain| - 1, chain + [Pending(step)];
    PlainEvents(chain, k, Resolve(Empty), step);
    ThenAtEnd(chain, step);
    PropagateDelivers(longer, k);
    assert longer[k + 1..] == [Pending(step)] && Steps(longer[k + 1..]) == [step];
    assert Fold([step], OutcomeOf(chain[k])) == Fold([], React(step, OutcomeOf(chain[k])));
  }

  /** A promise is settled once: settling a finished one changes nothing, nor does settling one that holds an outcome of
      the other kind, nor, in a chain with nothing left to hand on, settling any that is not pending. */
  lemma {:induction false} SecondSettlementIgnored(chain: seq<Record>, k: nat, o: Outcome, adopts: seq<Adoption>)
    requires k < |chain| && AllReturn(adopts) && chain[k].status != Init
    requires chain[k].status == Finished || (chain[k].status == Resolved <==> o.Reject?) || Stable(chain)
    ensures Next(chain, SettleAt(k, o, adopts)) == chain
  {
    assert Prepared(chain[k], o) == chain[k] && chain[k := chain[k]] == chain;
  }

  // ----- When a pending promise is reached

  /** The call hands an outcome on to the promise at p. */
  predicate Reaches(c: Call, p: nat)
    requires Ready(c)
    decreases |c.adopts|, |c.chain| - c.k
  {
    !Stops(c) && (c.k + 1 == p || Reaches(Hop(c), Shift(c, p)))
  }

  /** One step changes a pending promise exactly if it is the next one. */
  lemma {:induction false} HopPending(c: Call, p: nat)
    requires Ready(c) && !Stops(c) && p < |c.chain| && c.chain[p].status == Init
    ensures Shift(c, p) < |Hop(c).chain|
    ensures if c.k + 1 == p then Hop(c).chain[Shift(c, p)].status != Init else Hop(c).chain[Shift(c, p)] == c.chain[p]
  {
  }

  /** A pending promise keeps its record through a call exactly if it is not reached. */
  lemma {:induction false} TravelExactly(c: Call, p: nat)
    requires Ready(c) && p < |c.chain| && c.chain[p].status == Init
    ensures Where(c, p) < |Travel(c)|
    ensures if Reaches(c, p) then Travel(c)[Where(c, p)].status != Init else Travel(c)[Where(c, p)] == c.chain[p]
    decreases |c.adopts|, |c.chain| - c.k
  {
    if !Stops(c) {
      HopPending(c, p);
      if c.k + 1 == p {
        TravelKeeps(Hop(c), Shift(c, p));
      } else {
        TravelExactly(Hop(c), Shift(c, p));
      }
    }
  }

  /** The event settles the promise at p, or its call reaches it. */
  predicate Hits(chain: seq<Record>, e: Event, p: nat)
    requires Fits(chain, e)
  {
    (e.SettleAt? && e.k == p) || (Calls(chain, e) && Reaches(CallOf(chain, e), StartedAt(e, p)))
  }

  /** A pending promise keeps its record through an event exactly if the event does not hit it. */
  lemma {:induction false} NextExactly(chain: seq<Record>, e: Event, p: nat)
    requires Fits(chain, e) && p < |chain| && chain[p].status == Init
    ensures Moved(chain, e, p) < |Next(chain, e)|
    ensures var r := Next(chain, e)[Moved(chain, e, p)]; if Hits(chain, e, p) then r.status != Init else r == chain[p]
  {
    StartedKeeps(chain, e, p);
    var q := StartedAt(e, p);
    if e.SettleAt? && e.k == p {
      assert Started(chain, e)[q].status != Init;
      if Calls(chain, e) {
        TravelKeeps(CallOf(chain, e), q);
      }
    } else if Calls(chain, e) {
      TravelExactly(CallOf(chain, e), q);
    }
  }

  predicate NoneHits(chain: seq<Record>, events: seq<Event>, p: nat)
    requires AllFit(chain, events)
    decreases |events|
  {
    events != [] ==>
      !Hits(chain, events[0], p) && NoneHits(Next(chain, events[0]), events[1..], Moved(chain, events[0], p))
  }

  /** In every history: a pending promise stays pending with its handlers if and only if no event hits it. */
  lemma {:induction false} PendingExactly(chain: seq<Record>, events: seq<Event>, p: nat)
    requires AllFit(chain, events) && p < |chain| && chain[p].status == Init
    ensures var last, q := Run(chain, events), MovedBy(chain, events, p);
      q < |last| && (NoneHits(chain, events, p) <==> last[q] == chain[p])
    decreases |events|
  {
    if events != [] {
      var e := events[0];
      var next, q := Next(chain, e), Moved(chain, e, p);
      NextExactly(chain, e, p);
      if Hits(chain, e, p) {
        HistoryTheorem(next, events[1..], q);
      } else {
        PendingExactly(next, events[1..], q);
      }
    }
  }

  /** Between the two positions no promise is finished. */
  predicate NoneFinished(chain: seq<Record>, from: nat, to: nat) {
    forall i :: from <= i < to && i < |chain| ==> chain[i].status != Finished
  }

  /** Handing on to a promise that is not finished settles it, and leaves the ones behind it. */
  lemma {:induction false} HandOnNoneFinished(chain: seq<Record>, k: nat, to: nat)
    requires k + 1 < to <= |chain| && Settled(chain[k])
    ensures var next := HandOn(chain, k);
      Settled(next[k + 1]) && NoneFinished(next, k + 2, to) <==> NoneFinished(chain, k + 1, to)
  {
    var next := HandOn(chain, k);
    assert forall i :: k + 2 <= i < to ==> next[i] == chain[i];
    assert Settled(next[k + 1]) <==> chain[k + 1].status != Finished;
  }

  /** Without returned promises: a call reaches a later promise exactly if it starts settled and no finished promise
      lies between. */
  lemma {:induction false} ReachesPlain(chain: seq<Record>, k: nat, p: nat)
    requires k < |chain| && p < |chain|
    ensures Reaches(Call(chain, k, []), p) <==> k < p && Settled(chain[k]) && NoneFinished(chain, k + 1, p)
    decreases |chain| - k
  {
    var c := Call(chain, k, []);
    if !Stops(c) && k + 1 != p {
      var next := HandOn(chain, k);
      assert Hop(c) == Call(next, k + 1, []);
      ReachesPlain(next, k + 1, p);
      if k + 1 < p {
        HandOnNoneFinished(chain, k, p);
      }
    }
  }

  /** With a promise returned by the one at `a.at + 1`, on the way: exactly if the call gets there, the returned promise
      is settled, and no finished promise lies behind it in its chain or in the rest. */
  lemma {:induction false} ReachesAdopting(chain: seq<Record>, a: Adoption, p: nat)
    requires a.at + 1 < p < |chain| && a.ret < |a.chain|
    ensures Reaches(Call(chain, a.at, [a]), p) <==>
      && Settled(chain[a.at])
      && Settled(a.chain[a.ret]) && NoneFinished(a.chain, a.ret + 1, |a.chain|) && NoneFinished(chain, a.at + 2, p)
  {
    var c := Call(chain, a.at, [a]);
    if !Stops(c) {
      var joined, n, at := JoinedBy(chain, a), |a.chain|, a.at + 2 + a.ret;
      assert [a][1..] == [];
      assert Hop(c) == Call(joined, at, []) && Shift(c, p) == p + n;
      ReachesPlain(joined, at, p + n);
      JoinedNoneFinished(chain, a, p);
    }
  }

  /** The same from an earlier position: exactly if, besides, no finished promise lies on the way to the adoption. */
  lemma {:induction false} ReachesThrough(chain: seq<Record>, k: nat, a: Adoption, p: nat)
    requires k <= a.at && a.at + 1 < p < |chain| && a.ret < |a.chain|
    ensures Reaches(Call(chain, k, [a]), p) <==>
      && Settled(chain[k]) && NoneFinished(chain, k + 1, a.at + 1)
      && Settled(a.chain[a.ret]) && NoneFinished(a.chain, a.ret + 1, |a.chain|) && NoneFinished(chain, a.at + 2, p)
    decreases a.at - k
  {
    if k == a.at {
      ReachesAdopting(chain, a, p);
    } else if Settled(chain[k]) {
      var next := HandOn(chain, k);
      assert Hop(Call(chain, k, [a])) == Call(next, k + 1, [a]);
      ReachesThrough(next, k + 1, a, p);
      HandOnNoneFinished(chain, k, a.at + 1);
      assert forall i :: a.at + 2 <= i < p ==> next[i] == chain[i];
    }
  }

  lemma {:induction false} JoinedNoneFinished(chain: seq<Record>, a: Adoption, p: nat)
    requires a.at + 1 < p < |chain| && a.ret < |a.chain|
    ensures NoneFinished(JoinedBy(chain, a), a.at + 3 + a.ret, p + |a.chain|) <==>
      NoneFinished(a.chain, a.ret + 1, |a.chain|) && NoneFinished(chain, a.at + 2, p)
  {
    var joined, n, from := JoinedBy(chain, a), |a.chain|, a.at + 3 + a.ret;
    if NoneFinished(joined, from, p + n) {
      forall i | a.ret + 1 <= i < n ensures a.chain[i].status != Finished {
        assert joined[a.at + 2 + i] == a.chain[i];
      }
      forall i | a.at + 2 <= i < p ensures chain[i].status != Finished {
        assert joined[i + n] == chain[i];
      }
    }
    if NoneFinished(a.chain, a.ret + 1, n) && NoneFinished(chain, a.at + 2, p) {
      forall i | from <= i < p + n ensures joined[i].status != Finished {
        assert joined[i] == JoinedAt(chain, a, i);
      }
    }
  }

  // ----- A promise behind a finished one

  /** A further `then` on a promise of a delivered chain is heard by that call exactly when the promise is the last one:
      behind any other the new promise stays pending. */
  lemma {:induction false} ThenIsHeardAtEndOnly(chain: seq<Record>, k: nat, step: Step, o: Outcome)
    requires Delivered(chain, 0, o) && k < |chain|
    ensures Then(chain, k, step)[k + 1].status != Init <==> k == |chain| - 1
    ensures k < |chain| - 1 ==> Waits(Then(chain, k, step), k, k + 1) && Then(chain, k, step)[k + 1] == Pending(step)
  {
    var longer := Inserted(chain, k, step);
    assert longer[k] == chain[k] && longer[k + 1] == Pending(step);
    if k == |chain| - 1 {
      ThenOnDelivered(chain, step, o);
    }
  }

  /** The promise at p is pending, the one at f is finished, and none between holds an outcome. */
  predicate Waits(chain: seq<Record>, f: nat, p: nat) {
    && f < p < |chain| && chain[f].status == Finished && chain[p].status == Init
    && forall i :: f < i < p ==> !Settled(chain[i])
  }

  predicate NoneSettled(chain: seq<Record>) {
    forall i :: 0 <= i < |chain| ==> !Settled(chain[i])
  }

  /** If on its way the promise at f itself returns a promise, no promise of that chain holds an outcome. */
  predicate Spares(c: Call, f: nat)
    requires Ready(c)
    decreases |c.adopts|, |c.chain| - c.k
  {
    !Stops(c) ==>
      (Adopts(c) && c.k + 1 == f ==> NoneSettled(c.adopts[0].chain)) && Spares(Hop(c), Shift(c, f))
  }

  lemma {:induction false} HopWaits(c: Call, f: nat, p: nat)
    requires Ready(c) && !Stops(c) && c.k < f && Waits(c.chain, f, p)
    requires Adopts(c) && c.k + 1 == f ==> NoneSettled(c.adopts[0].chain)
    ensures Waits(Hop(c).chain, Shift(c, f), Shift(c, p))
    ensures Hop(c).k <= Shift(c, f) || Stops(Hop(c))
  {
    if Adopts(c) {
      var a, joined := c.adopts[0], Hop(c).chain;
      assert joined[c.k + 2 + a.ret] == a.chain[a.ret];
    }
  }

  /** A call that starts before the finished promise does not get past it. */
  lemma {:induction false} TravelWaits(c: Call, f: nat, p: nat)
    requires Ready(c) && (c.k <= f || Stops(c)) && Waits(c.chain, f, p) && Spares(c, f)
    ensures !Reaches(c, p) && Waits(Travel(c), Where(c, f), Where(c, p))
    decreases |c.adopts|, |c.chain| - c.k
  {
    if !Stops(c) {
      HopWaits(c, f, p);
      TravelWaits(Hop(c), Shift(c, f), Shift(c, p));
    }
  }

  /** What lies before the call's position stays where and as it is. */
  lemma {:induction false} TravelLeaves(c: Call, i: nat)
    requires Ready(c) && i < c.k
    ensures Where(c, i) == i && Travel(c)[i] == c.chain[i] && !Reaches(c, i)
    decreases |c.adopts|, |c.chain| - c.k
  {
    if !Stops(c) {
      assert Hop(c).chain[i] == c.chain[i] && Shift(c, i) == i;
      TravelLeaves(Hop(c), i);
    }
  }

  /** The event settles neither the promise at p nor one between f and p, and if on the way the promise at f itself
      returns a promise, no promise of that chain holds an outcome. */
  predicate Quiet(chain: seq<Record>, e: Event, f: nat, p: nat)
    requires Fits(chain, e)
  {
    && (e.SettleAt? ==> !(f < e.k <= p))
    && (e.k < f && Calls(chain, e) ==> Spares(CallOf(chain, e), StartedAt(e, f)))
  }

  lemma {:induction false} StartedWaits(chain: seq<Record>, e: Event, f: nat, p: nat)
    requires Fits(chain, e) && Waits(chain, f, p) && Quiet(chain, e, f, p)
    ensures Waits(Started(chain, e), StartedAt(e, f), StartedAt(e, p))
  {
    var started := Started(chain, e);
    if e.ThenAt? {
      forall i | StartedAt(e, f) < i < StartedAt(e, p) ensures !Settled(started[i]) {
        assert started[i] == if i <= e.k then chain[i] else if i == e.k + 1 then Pending(e.step) else chain[i - 1];
      }
    }
  }

  lemma {:induction false} NextWaits(chain: seq<Record>, e: Event, f: nat, p: nat)
    requires Fits(chain, e) && Waits(chain, f, p) && Quiet(chain, e, f, p)
    ensures !Hits(chain, e, p) && Waits(Next(chain, e), Moved(chain, e, f), Moved(chain, e, p))
  {
    StartedWaits(chain, e, f, p);
    if Calls(chain, e) {
      var c, f', p' := CallOf(chain, e), StartedAt(e, f), StartedAt(e, p);
      if e.k < f {
        TravelWaits(c, f', p');
      } else if e.k <= p {
        assert Stops(c);
      } else {
        forall i | f <= i <= p
          ensures Where(c, i) == i && Travel(c)[i] == c.chain[i] && !Reaches(c, i)
        {
          TravelLeaves(c, i);
        }
      }
    }
  }

  predicate AllQuiet(chain: seq<Record>, events: seq<Event>, f: nat, p: nat)
    requires AllFit(chain, events)
    decreases |events|
  {
    events != [] ==>
      && Quiet(chain, events[0], f, p)
      && AllQuiet(Next(chain, events[0]), events[1..], Moved(chain, events[0], f), Moved(chain, events[0], p))
  }

  lemma {:induction false} QuietHitsNone(chain: seq<Record>, events: seq<Event>, f: nat, p: nat)
    requires AllFit(chain, events) && Waits(chain, f, p) && AllQuiet(chain, events, f, p)
    ensures NoneHits(chain, events, p)
    decreases |events|
  {
    if events != [] {
      var e := events[0];
      NextWaits(chain, e, f, p);
      QuietHitsNone(Next(chain, e), events[1..], Moved(chain, e, f), Moved(chain, e, p));
    }
  }

  /** A pending promise behind a finished one stays pending with its handlers, in every history that settles neither it
      nor a promise between the two, and in which no chain that the finished one returns a promise of holds an
      outcome. */
  lemma {:induction false} WaitsForGood(chain: seq<Record>, events: seq<Event>, f: nat, p: nat)
    requires AllFit(chain, events) && Waits(chain, f, p) && AllQuiet(chain, events, f, p)
    ensures MovedBy(chain, events, p) < |Run(chain, events)|
    ensures Run(chain, events)[MovedBy(chain, events, p)] == chain[p]
  {
    QuietHitsNone(chain, events, f, p);
    PendingExactly(chain, events, p);
  }
}
