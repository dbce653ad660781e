/** The SCTP stream ids of a transport's data consumers: a cyclic allocator and the guarded release of ids. */
module SctpStreams {
  /** A data consumer that was ever created: its stream id and its closed flag. */
  datatype DataConsumer = DataConsumer(streamId: nat, closed: bool)

  /** `marks` is one flag per stream (1 in use), empty before the first use; `live` is the transport's map. */
  datatype State = State(
    streams: nat, marks: seq<int>, cursor: nat, live: map<int, nat>, consumers: map<int, DataConsumer>,
    releases: multiset<int>, closed: bool)

  /** `Consume(id)`: `consumeData` for a fresh consumer id. `Close(id)`: the consumer's `close` or its
      "dataproducerclose" notice. `TransportClose`: the transport goes away. */
  datatype Event = Consume(id: int) | Close(id: int) | TransportClose

  function Fresh(streams: nat): State {
    State(streams, [], 1, map[], map[], multiset{}, false)
  }

  function Zeros(n: nat): (s: seq<int>)
    ensures |s| == n && forall i :: 0 <= i < n ==> s[i] == 0
  {
    seq(n, i => 0)
  }

  /** The flags, allocated on first use. */
  function Marks(marks: seq<int>, streams: nat): seq<int> {
    if |marks| == 0 then Zeros(streams) else marks
  }

  /** The position `step` places after the cursor, going round. */
  function Place(cursor: nat, step: nat, size: nat): nat
    requires size > 0
  {
    (cursor + step) % size
  }

  /** The first free step from the cursor on, |marks| when every id is taken. */
  function FirstFree(marks: seq<int>, cursor: nat, step: nat): (r: nat)
    requires step <= |marks|
    ensures step <= r <= |marks|
    ensures r < |marks| ==> marks[Place(cursor, r, |marks|)] == 0
    ensures forall j :: step <= j < r ==> marks[Place(cursor, j, |marks|)] != 0
    decreases |marks| - step
  {
    if step == |marks| || marks[Place(cursor, step, |marks|)] == 0 then step else FirstFree(marks, cursor, step + 1)
  }

  predicate SomeFree(marks: seq<int>) {
    exists i :: 0 <= i < |marks| && marks[i] == 0
  }

  lemma PlaceOf(cursor: nat, i: nat, n: nat)
    requires i < n && cursor <= n
    ensures exists step: nat :: step < n && Place(cursor, step, n) == i
  {
    var step := if i >= cursor then i - cursor else i - cursor + n;
    assert Place(cursor, step, n) == i;
  }

  /** The scan finds a free id whenever there is one. */
  lemma ScanComplete(marks: seq<int>, cursor: nat)
    requires cursor <= |marks|
    ensures FirstFree(marks, cursor, 0) < |marks| <==> SomeFree(marks)
  {
    if i :| 0 <= i < |marks| && marks[i] == 0 {
      var n := |marks|;
      PlaceOf(cursor, i, n);
    }
  }

  /** What `_getNextSctpStreamId` returns: 0 when no id is free, because the failure is only logged. */
  function NextId(marks: seq<int>, cursor: nat): (id: nat)
    ensures |marks| > 0 ==> id < |marks|
    ensures |marks| > 0 && cursor <= |marks| && SomeFree(marks) ==> marks[id] == 0
  {
    var r := FirstFree(marks, cursor, 0);
    if |marks| > 0 && cursor <= |marks| then
      ScanComplete(marks, cursor);
      if r < |marks| then Place(cursor, r, |marks|) else 0
    else if r < |marks| then Place(cursor, r, |marks|)
    else 0
  }

  function NextCursor(marks: seq<int>, cursor: nat): nat {
    var r := FirstFree(marks, cursor, 0);
    if r < |marks| then Place(cursor, r, |marks|) + 1 else cursor
  }

  function Step(s: State, e: Event): State
    requires s.streams > 0 && (|s.marks| == 0 || |s.marks| == s.streams)
  {
    match e
    case Consume(id) =>
      var marks := Marks(s.marks, s.streams);
      var stream := NextId(marks, s.cursor);
      s.(marks := marks[stream := 1], cursor := NextCursor(marks, s.cursor), live := s.live[id := stream],
         consumers := s.consumers[id := DataConsumer(stream, false)])
    case Close(id) =>
      if id !in s.consumers || s.consumers[id].closed then s
      else
        var stream := s.consumers[id].streamId;
        s.(consumers := s.consumers[id := DataConsumer(stream, true)], live := s.live - {id},
           marks := if 0 <= stream < |s.marks| then s.marks[stream := 0] else s.marks,
           releases := s.releases + multiset{id})
    case TransportClose =>
      s.(closed := true, live := map[],
         consumers := map id | id in s.consumers ::
           if id in s.live then s.consumers[id].(closed := true) else s.consumers[id])
  }

  /** The transport's part of the bookkeeping, updated in place. */
  class Transport {
    const streams: nat
    var marks: seq<int>
    var cursor: nat
    var live: map<int, nat>
    var consumers: map<int, DataConsumer>
    /** How often each consumer has given its id back. */
    ghost var releases: multiset<int>
    var closed: bool

    ghost function Now(): State
      reads this
    {
      State(streams, marks, cursor, live, consumers, releases, closed)
    }

    ghost predicate Sized()
      reads this
    {
      streams > 0 && (|marks| == 0 || |marks| == streams)
    }

    constructor (streams: nat)
      requires streams > 0
      ensures Now() == Fresh(streams) && Sized()
    {
      this.streams := streams;
      marks, cursor, live, consumers, closed := [], 1, map[], map[], false;
      releases := multiset{};
    }

    method GetNextSctpStreamId() returns (id: nat)
      requires Sized()
      modifies this`marks, this`cursor
      ensures Sized() && marks == Marks(old(marks), streams)
      ensures id == NextId(marks, old(cursor)) && cursor == NextCursor(marks, old(cursor))
    {
      if |marks| == 0 {
        for i := 0 to streams
          invariant |marks| == i && forall j :: 0 <= j < i ==> marks[j] == 0
          invariant cursor == old(cursor)
        {
          marks := marks + [0];
        }
        assert marks == Zeros(streams);
      }
      for idx := 0 to |marks|
        invariant marks == Marks(old(marks), streams) && |marks| == streams && cursor == old(cursor)
        invariant FirstFree(marks, cursor, 0) == FirstFree(marks, cursor, idx)
      {
        id := (cursor + idx) % |marks|;
        if marks[id] == 0 {
          assert FirstFree(marks, cursor, idx) == idx;
          cursor := id + 1;
          return;
        }
      }
      return 0;
    }

    method ConsumeData(id: int)
      requires Sized()
      modifies this
      ensures Sized() && Now() == Step(old(Now()), Consume(id))
    {
      var stream := GetNextSctpStreamId();
      marks := marks[stream := 1];
      live := live[id := stream];
      consumers := consumers[id := DataConsumer(stream, false)];
    }

    method CloseConsumer(id: int)
      requires Sized() && id in consumers && consumers[id].streamId < streams && |marks| == streams
      modifies this
      ensures Sized() && Now() == Step(old(Now()), Close(id))
    {
      if consumers[id].closed {
        return;
      }
      var stream := consumers[id].streamId;
      consumers := consumers[id := DataConsumer(stream, true)];
      live := live - {id};
      if |marks| != 0 {
        marks := marks[stream := 0];
      }
      releases := releases + multiset{id};
    }

    method CloseTransport()
      requires Sized()
      modifies this
      ensures Sized() && Now() == Step(old(Now()), TransportClose)
    {
      closed := true;
      consumers := map id | id in consumers ::
        if id in live then consumers[id].(closed := true) else consumers[id];
      live := map[];
    }
  }

  // ----- Every run

  /** Distinct live consumers have distinct ids, and the marks are exactly the ids in use. */
  ghost predicate Exact(s: State) {
    && (forall a, b :: a in s.live && b in s.live && a != b ==> s.live[a] != s.live[b])
    && (!s.closed ==> forall i :: 0 <= i < |s.marks| ==> (s.marks[i] != 0 <==> InUse(s.live, i)))
  }

  ghost predicate InUse(live: map<int, nat>, i: nat) {
    exists a :: a in live && live[a] == i
  }

  /** The bookkeeping around it. */
  ghost predicate WellFormed(s: State) {
    && s.streams > 0 && (|s.marks| == 0 || |s.marks| == s.streams) && s.cursor <= s.streams
    && (|s.marks| == 0 ==> s.live == map[])
    && (forall a :: a in s.live ==> a in s.consumers && s.consumers[a] == DataConsumer(s.live[a], false))
    && (forall a :: a in s.consumers ==> s.consumers[a].streamId < |s.marks|)
    && (forall a :: a in s.consumers && !s.consumers[a].closed ==> a in s.live)
    && (forall a :: a in s.releases ==> a in s.consumers && s.consumers[a].closed && s.releases[a] == 1)
  }

  /** An allocation finds a free id. */
  predicate CanAllocate(s: State) {
    SomeFree(Marks(s.marks, s.streams))
  }

  lemma StepWellFormed(s: State, e: Event)
    requires WellFormed(s) && (e.Consume? ==> !s.closed && e.id !in s.consumers)
    ensures WellFormed(Step(s, e))
  {
    if e.Consume? {
      var marks := Marks(s.marks, s.streams);
      assert NextId(marks, s.cursor) < |marks|;
    }
  }

  lemma FlagsAreUses(s: State)
    requires WellFormed(s) && Exact(s) && !s.closed
    ensures var marks := Marks(s.marks, s.streams);
      forall i :: 0 <= i < |marks| ==> (marks[i] != 0 <==> InUse(s.live, i))
  {
  }

  lemma FreeIdKeepsExact(s: State, id: int)
    requires WellFormed(s) && Exact(s) && !s.closed && id !in s.consumers && CanAllocate(s)
    ensures Exact(Step(s, Consume(id)))
  {
    FlagsAreUses(s);
    var s' := Step(s, Consume(id));
    forall i | 0 <= i < |s'.marks| ensures s'.marks[i] != 0 <==> InUse(s'.live, i) {
      if InUse(s.live, i) {
        var a :| a in s.live && s.live[a] == i;
        assert a in s'.live && s'.live[a] == i;
      }
      assert s'.live[id] == NextId(Marks(s.marks, s.streams), s.cursor);
    }
  }

  lemma NoFreeIdClashes(s: State, id: int)
    requires WellFormed(s) && Exact(s) && !s.closed && id !in s.consumers && !CanAllocate(s)
    ensures !Exact(Step(s, Consume(id)))
  {
    FlagsAreUses(s);
    var marks := Marks(s.marks, s.streams);
    ScanComplete(marks, s.cursor);
    var s' := Step(s, Consume(id));
    assert marks[0] != 0 && InUse(s.live, 0);
    var a :| a in s.live && s.live[a] == 0;
    assert a in s'.live && s'.live[a] == 0 && s'.live[id] == 0;
  }

  /** Creating a consumer keeps the ids exact if and only if an id is free: with none free it is given id 0, which
      another consumer holds. */
  lemma ConsumeKeepsExact(s: State, id: int)
    requires WellFormed(s) && Exact(s) && !s.closed && id !in s.consumers
    ensures Exact(Step(s, Consume(id))) <==> CanAllocate(s)
  {
    if CanAllocate(s) {
      FreeIdKeepsExact(s, id);
    } else {
      NoFreeIdClashes(s, id);
    }
  }

  lemma Wraps(x: nat, n: nat)
    requires n <= x < 2 * n
    ensures x % n == x - n
  {
  }

  /** From behind a place, going round, that place comes last. */
  lemma ComesLast(i: nat, step: nat, n: nat)
    requires i < n && step < n
    ensures Place(i + 1, step, n) == i <==> step == n - 1
  {
    if i + 1 + step >= n {
      Wraps(i + 1 + step, n);
    }
  }

  lemma ConsumeThenClose(s: State, a: int)
    requires WellFormed(s) && !s.closed && a !in s.consumers && SomeFree(Marks(s.marks, s.streams))
    ensures var marks, s1 := Marks(s.marks, s.streams), Step(s, Consume(a)); var s2 := Step(s1, Close(a));
      && WellFormed(s1) && WellFormed(s2) && a in s1.live
      && s1.live[a] < |marks| && marks[s1.live[a]] == 0
      && s2.marks == marks && s2.cursor == s1.live[a] + 1 && !s2.closed && s2.streams == s.streams
  {
    ScanComplete(Marks(s.marks, s.streams), s.cursor);
    StepWellFormed(s, Consume(a));
    StepWellFormed(Step(s, Consume(a)), Close(a));
  }

  /** An id given back at once is not the next one handed out, as long as another id is free. */
  lemma IdsRotate(s: State, a: int, b: int)
    requires WellFormed(s) && !s.closed && a !in s.consumers && b !in s.consumers && a != b
    requires var marks := Marks(s.marks, s.streams);
      exists i, j :: 0 <= i < j < |marks| && marks[i] == 0 && marks[j] == 0
    ensures WellFormed(Step(s, Consume(a))) && WellFormed(Step(Step(s, Consume(a)), Close(a)))
    ensures var s1 := Step(s, Consume(a)); var s3 := Step(Step(s1, Close(a)), Consume(b));
      s3.live[b] != s1.live[a]
  {
    var marks := Marks(s.marks, s.streams);
    var i, j :| 0 <= i < j < |marks| && marks[i] == 0 && marks[j] == 0;
    ConsumeThenClose(s, a);
    var id := Step(s, Consume(a)).live[a];
    var other := if i == id then j else i;
    PlaceOf(id + 1, other, |marks|);
    var step: nat :| step < |marks| && Place(id + 1, step, |marks|) == other;
    ComesLast(id, step, |marks|);
    ComesLast(id, FirstFree(marks, id + 1, 0), |marks|);
  }

  lemma CloseKeepsExact(s: State, id: int)
    requires WellFormed(s) && Exact(s)
    ensures Exact(Step(s, Close(id)))
  {
    var s' := Step(s, Close(id));
    if id in s.consumers && !s.consumers[id].closed && !s.closed {
      forall i | 0 <= i < |s'.marks| ensures s'.marks[i] != 0 <==> InUse(s'.live, i) {
        if InUse(s.live, i) && i != s.live[id] {
          var a :| a in s.live && s.live[a] == i;
          assert a in s'.live && s'.live[a] == i;
        }
      }
    }
  }

  function Run(s: State, events: seq<Event>): State
    requires s.streams > 0 && (|s.marks| == 0 || |s.marks| == s.streams)
    decreases |events|
  {
    if events == [] then s else Run(Step(s, events[0]), events[1..])
  }

  /** A run whose consumer ids are fresh and whose allocations all find a free id. */
  predicate Legal(s: State, events: seq<Event>)
    requires s.streams > 0 && (|s.marks| == 0 || |s.marks| == s.streams)
    decreases |events|
  {
    events != [] ==>
      && (events[0].Consume? ==> !s.closed && events[0].id !in s.consumers && CanAllocate(s))
      && Legal(Step(s, events[0]), events[1..])
  }

  lemma {:induction false} RunExact(s: State, events: seq<Event>)
    requires WellFormed(s) && Exact(s) && Legal(s, events)
    ensures WellFormed(Run(s, events)) && Exact(Run(s, events))
    decreases |events|
  {
    if events != [] {
      StepWellFormed(s, events[0]);
      match events[0] {
        case Consume(id) => ConsumeKeepsExact(s, id);
        case Close(id) => CloseKeepsExact(s, id);
        case TransportClose =>
      }
      RunExact(Step(s, events[0]), events[1..]);
    }
  }

  /** In every such run: while the transport is open the marked slots are exactly the ids of its live data consumers;
      no two live consumers share an id; no consumer gives its id back twice. */
  lemma StreamIdTheorem(streams: nat, events: seq<Event>)
    requires streams > 0 && Legal(Fresh(streams), events)
    ensures var s := Run(Fresh(streams), events);
      && (!s.closed ==> forall i :: 0 <= i < |s.marks| ==> (s.marks[i] != 0 <==> InUse(s.live, i)))
      && (forall a, b :: a in s.live && b in s.live && a != b ==> s.live[a] != s.live[b])
      && (forall a :: s.releases[a] <= 1)
  {
    RunExact(Fresh(streams), events);
  }

  /** Once a consumer is closed, by whatever event, later closings change nothing. */
  lemma CloseOnce(s: State, id: int)
    requires WellFormed(s)
    ensures Step(Step(s, Close(id)), Close(id)) == Step(s, Close(id))
    ensures Step(Step(s, TransportClose), Close(id)) == Step(s, TransportClose)
  {
    var s' := Step(s, TransportClose);
    if id in s.consumers && !s.consumers[id].closed {
      assert id in s.live && s'.consumers[id].closed;
    }
  }

  /** When the transport goes away every consumer is closed and forgotten, under its old id; ids are not given back
      then, nor by any close that still comes. */
  lemma TransportCloseTheorem(s: State)
    requires WellFormed(s)
    ensures var s' := Step(s, TransportClose);
      && WellFormed(s') && s'.closed && s'.live == map[] && s'.releases == s.releases
      && s'.consumers.Keys == s.consumers.Keys
      && (forall a :: a in s.consumers ==> s'.consumers[a] == DataConsumer(s.consumers[a].streamId, true))
      && (forall a :: Step(s', Close(a)) == s')
  {
    StepWellFormed(s, TransportClose);
  }
}
