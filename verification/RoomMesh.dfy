/** The room's subscription mesh: which peer holds a consumer for which producer. */
module RoomMesh {
  import opened Sequences

  type PeerId = int
  type ProducerId = int
  type ConsumerId = int

  /** A connected peer. `consuming`: it has a transport for consuming. `hasCodecs`: it joined with non-empty
      capabilities. `ready`: both held when it joined. */
  datatype Peer = Peer(
    joined: bool, consuming: bool, hasCodecs: bool, ready: bool,
    producers: set<ProducerId>, consumers: map<ConsumerId, ProducerId>)

  const NEWCOMER := Peer(false, false, false, false, {}, map[])

  type Peers = map<PeerId, Peer>

  /** `used` are the producer ids ever given out, `closed` those whose producer was closed. */
  datatype State = State(peers: Peers, used: set<ProducerId>, closed: set<ProducerId>)

  datatype Event =
    | Connect(id: PeerId)
    | AddTransport(id: PeerId, consuming: bool)
    | Join(id: PeerId, hasCodecs: bool)
    | Produce(id: PeerId, producer: ProducerId)
    | CloseProducer(id: PeerId, producer: ProducerId)
    | CloseNotice(id: PeerId, consumer: ConsumerId)
    | Leave(id: PeerId)

  function Holders(m: map<ConsumerId, ProducerId>, q: ProducerId): set<ConsumerId> {
    set c | c in m && m[c] == q
  }

  /** How many consumers of `m` consume `q`. */
  function Count(m: map<ConsumerId, ProducerId>, q: ProducerId): nat {
    |Holders(m, q)|
  }

  /** `after` is `before` with exactly one more consumer for each producer of `qs`, and no other. */
  ghost predicate Gains(before: map<ConsumerId, ProducerId>, after: map<ConsumerId, ProducerId>, qs: set<ProducerId>) {
    && (forall c :: c in before ==> c in after && after[c] == before[c])
    && (forall c :: c in after && c !in before ==> after[c] in qs)
    && (forall q :: Count(after, q) == Count(before, q) + if q in qs then 1 else 0)
  }

  /** `createConsumer` goes ahead only for such a peer. */
  predicate Wants(p: Peer) {
    p.hasCodecs && p.consuming
  }

  predicate IsOther(peers: Peers, id: PeerId, r: PeerId) {
    r in peers && r != id && peers[r].joined
  }

  /** The producers of the other joined peers. */
  function OthersProducers(peers: Peers, id: PeerId): set<ProducerId> {
    set r, q | r in peers && IsOther(peers, id, r) && q in peers[r].producers :: q
  }

  /** What each event does. */
  ghost predicate Next(s: State, e: Event, s': State) {
    match e
    case Connect(id) => s' == s.(peers := s.peers[id := NEWCOMER])
    case AddTransport(id, consuming) =>
      id in s.peers && s' == s.(peers := s.peers[id := s.peers[id].(consuming := s.peers[id].consuming || consuming)])
    case Join(id, hasCodecs) =>
      && id in s.peers && id in s'.peers
      && var p := s.peers[id].(joined := true, hasCodecs := hasCodecs);
      && var p' := s'.peers[id];
      && p' == p.(ready := Wants(p), consumers := p'.consumers)
      && Gains(p.consumers, p'.consumers, if Wants(p) then OthersProducers(s.peers, id) else {})
      && s' == s.(peers := s.peers[id := p'])
    case Produce(id, q) =>
      && id in s.peers
      && s'.used == s.used + {q} && s'.closed == s.closed && s'.peers.Keys == s.peers.Keys
      && (forall r :: r in s.peers ==>
            var p, p' := s.peers[r], s'.peers[r];
            && p' == p.(producers := if r == id then p.producers + {q} else p.producers, consumers := p'.consumers)
            && Gains(p.consumers, p'.consumers, if IsOther(s.peers, id, r) && Wants(p) then {q} else {}))
    case CloseProducer(id, q) =>
      && id in s.peers
      && s' == s.(peers := s.peers[id := s.peers[id].(producers := s.peers[id].producers - {q})],
          closed := s.closed + {q})
    case CloseNotice(id, c) =>
      && id in s.peers
      && s' == s.(peers := s.peers[id := s.peers[id].(consumers := s.peers[id].consumers - {c})])
    case Leave(id) => s' == s.(peers := s.peers - {id})
  }

  // ----- The handlers

  lemma HoldersAdd(m: map<ConsumerId, ProducerId>, c: ConsumerId, q: ProducerId, x: ProducerId)
    requires c !in m
    ensures Count(m[c := q], x) == Count(m, x) + if x == q then 1 else 0
  {
    if x == q {
      assert Holders(m[c := q], x) == Holders(m, x) + {c};
      assert c !in Holders(m, x);
    } else {
      assert Holders(m[c := q], x) == Holders(m, x);
    }
  }

  lemma CountAdd(m: map<ConsumerId, ProducerId>, c: ConsumerId, q: ProducerId)
    requires c !in m
    ensures Gains(m, m[c := q], {q})
  {
    forall x ensures Count(m[c := q], x) == Count(m, x) + if x in {q} then 1 else 0 {
      HoldersAdd(m, c, q, x);
    }
  }

  lemma GainsNothing(m: map<ConsumerId, ProducerId>)
    ensures Gains(m, m, {})
  {
  }

  /** `m` with one consumer for each producer of `qs`, under the ids next, next + 1, ... */
  function AddAll(m: map<ConsumerId, ProducerId>, next: int, qs: seq<ProducerId>): map<ConsumerId, ProducerId>
    decreases |qs|
  {
    if qs == [] then m else AddAll(m[next := qs[0]], next + 1, qs[1..])
  }

  lemma {:induction false} AddAllConcat(m: map<ConsumerId, ProducerId>, next: int, a: seq<ProducerId>,
                                        b: seq<ProducerId>)
    ensures AddAll(m, next, a + b) == AddAll(AddAll(m, next, a), next + |a|, b)
    decreases |a|
  {
    if a == [] {
      assert a + b == b;
    } else {
      assert (a + b)[1..] == a[1..] + b;
      AddAllConcat(m[next := a[0]], next + 1, a[1..], b);
    }
  }

  /** What creating consumers for `qs` makes of a peer, and how many ids it takes. */
  function WithConsumers(p: Peer, next: int, qs: seq<ProducerId>): Peer {
    if Wants(p) then p.(consumers := AddAll(p.consumers, next, qs)) else p
  }

  function Taken(p: Peer, qs: seq<ProducerId>): nat {
    if Wants(p) then |qs| else 0
  }

  /** `order` lists the elements of `qs`, each once. */
  ghost predicate Lists(order: seq<ProducerId>, qs: set<ProducerId>) {
    && Distinct(order)
    && qs == set q | q in order
  }

  predicate Below(m: map<ConsumerId, ProducerId>, next: int) {
    forall c :: c in m ==> c < next
  }

  lemma ListsConcat(a: seq<ProducerId>, b: seq<ProducerId>, ps: set<ProducerId>, qs: set<ProducerId>)
    requires Lists(a, ps) && Lists(b, qs) && ps !! qs
    ensures Lists(a + b, ps + qs)
  {
    forall i | 0 <= i < |a| ensures a[i] in ps {
      assert a[i] in a;
    }
    forall i | 0 <= i < |b| ensures b[i] in qs {
      assert b[i] in b;
    }
  }

  lemma {:induction false} AddAllGains(m: map<ConsumerId, ProducerId>, next: int, order: seq<ProducerId>,
                                       qs: set<ProducerId>)
    requires Below(m, next) && Lists(order, qs)
    ensures Gains(m, AddAll(m, next, order), qs) && Below(AddAll(m, next, order), next + |order|)
    decreases |order|
  {
    if order == [] {
      GainsNothing(m);
    } else {
      var q := order[0];
      CountAdd(m, next, q);
      assert order == [q] + order[1..];
      assert Lists(order[1..], qs - {q});
      AddAllGains(m[next := q], next + 1, order[1..], qs - {q});
      GainsBoth(m, m[next := q], AddAll(m, next, order), {q}, qs - {q});
      assert {q} + (qs - {q}) == qs;
    }
  }

  lemma GainsBoth(a: map<ConsumerId, ProducerId>, b: map<ConsumerId, ProducerId>, c: map<ConsumerId, ProducerId>,
                  ps: set<ProducerId>, qs: set<ProducerId>)
    requires Gains(a, b, ps) && Gains(b, c, qs) && ps !! qs
    ensures Gains(a, c, ps + qs)
  {
  }

  /** `p'` is `p`, with one more consumer, for `q`, if it is offered and `p` wants consumers. */
  ghost predicate OneMore(p: Peer, p': Peer, q: ProducerId, offered: bool) {
    if offered && Wants(p) then exists c :: c !in p.consumers && p' == p.(consumers := p.consumers[c := q])
    else p' == p
  }

  lemma OneAdded(p: Peer, next: int, q: ProducerId)
    requires Below(p.consumers, next)
    ensures OneMore(p, WithConsumers(p, next, [q]), q, true)
    ensures Below(WithConsumers(p, next, [q]).consumers, next + Taken(p, [q]))
  {
    assert [q][1..] == [];
    if Wants(p) {
      assert AddAll(p.consumers, next, [q]) == p.consumers[next := q];
      assert next !in p.consumers;
    }
  }

  lemma OneMoreGains(p: Peer, p': Peer, q: ProducerId, offered: bool)
    requires OneMore(p, p', q, offered)
    ensures p' == p.(consumers := p'.consumers)
    ensures Gains(p.consumers, p'.consumers, if offered && Wants(p) then {q} else {})
  {
    if offered && Wants(p) {
      var c :| c !in p.consumers && p' == p.(consumers := p.consumers[c := q]);
      CountAdd(p.consumers, c, q);
    } else {
      GainsNothing(p.consumers);
    }
  }

  predicate FreshIds(peers: Peers, next: int) {
    forall r :: r in peers ==> Below(peers[r].consumers, next)
  }

  predicate DistinctProducers(peers: Peers) {
    forall a, b :: a in peers && b in peers && a != b ==> peers[a].producers !! peers[b].producers
  }

  /** The producers of the peers in `rs`. */
  function ProducersOf(peers: Peers, rs: set<PeerId>): set<ProducerId> {
    set r, q | r in peers && r in rs && q in peers[r].producers :: q
  }

  lemma SameOthers(a: Peers, b: Peers, id: PeerId)
    requires a.Keys == b.Keys && forall r :: r in a && r != id ==> a[r] == b[r]
    ensures OthersProducers(a, id) == OthersProducers(b, id)
  {
    assert forall r :: IsOther(a, id, r) <==> IsOther(b, id, r);
  }

  lemma SameElsewhere(a: Peers, b: Peers, id: PeerId)
    requires a.Keys == b.Keys && id in a && forall r :: r in a && r != id ==> a[r] == b[r]
    ensures b == a[id := b[id]]
  {
  }

  lemma OneMorePeer(peers: Peers, rs: set<PeerId>, r: PeerId)
    requires r in peers && r !in rs && DistinctProducers(peers)
    ensures ProducersOf(peers, rs + {r}) == ProducersOf(peers, rs) + peers[r].producers
    ensures ProducersOf(peers, rs) !! peers[r].producers
  {
    assert r in rs + {r};
    forall q | q in ProducersOf(peers, rs) + peers[r].producers ensures q in ProducersOf(peers, rs + {r}) {
      if q in ProducersOf(peers, rs) {
        var a :| a in peers && a in rs && q in peers[a].producers;
        assert a in rs + {r};
      }
    }
  }

  /** Some element: the maps are iterated in no particular order. */
  method Pick<T>(s: set<T>) returns (x: T)
    requires s != {}
    ensures x in s
  {
    x :| x in s;
  }

  class Room {
    var peers: Peers
    var used: set<ProducerId>
    var closed: set<ProducerId>
    /** Consumer ids are fresh. */
    var nextConsumer: nat

    function Now(): State
      reads this
    {
      State(peers, used, closed)
    }

    /** Ids given out so far, and producer ids of different peers differ. */
    ghost predicate Valid()
      reads this
    {
      FreshIds(peers, nextConsumer) && DistinctProducers(peers)
    }

    constructor ()
      ensures Valid() && Now() == State(map[], {}, {})
    {
      peers, used, closed, nextConsumer := map[], {}, {}, 0;
    }

    method AddPeer(id: PeerId)
      requires Valid()
      modifies this
      ensures Valid() && Next(old(Now()), Connect(id), Now())
    {
      peers := peers[id := NEWCOMER];
    }

    method RemovePeerById(id: PeerId)
      requires Valid()
      modifies this
      ensures Valid() && Next(old(Now()), Leave(id), Now())
    {
      peers := peers - {id};
    }

    method CreateConsumer(id: PeerId, q: ProducerId)
      requires id in peers
      modifies this`peers, this`nextConsumer
      ensures peers.Keys == old(peers).Keys
      ensures forall r :: r in peers && r != id ==> peers[r] == old(peers)[r]
      ensures peers[id] == WithConsumers(old(peers)[id], old(nextConsumer), [q])
      ensures nextConsumer == old(nextConsumer) + Taken(old(peers)[id], [q])
    {
      var p := peers[id];
      if !p.hasCodecs {
        return;
      }
      if !p.consuming {
        return;
      }
      assert AddAll(p.consumers, nextConsumer, [q]) == p.consumers[nextConsumer := q] by {
        assert [q][1..] == [];
      }
      peers := peers[id := p.(consumers := p.consumers[nextConsumer := q])];
      nextConsumer := nextConsumer + 1;
    }

    /** Consumers of peer `id` for the producers `qs`, in some order. */
    method Subscribe(id: PeerId, qs: set<ProducerId>) returns (ghost order: seq<ProducerId>)
      requires id in peers
      modifies this`peers, this`nextConsumer
      ensures Lists(order, qs)
      ensures peers.Keys == old(peers).Keys
      ensures forall r :: r in peers && r != id ==> peers[r] == old(peers)[r]
      ensures peers[id] == WithConsumers(old(peers)[id], old(nextConsumer), order)
      ensures nextConsumer == old(nextConsumer) + Taken(old(peers)[id], order)
    {
      var todo := qs;
      order := [];
      while todo != {}
        invariant todo <= qs && Lists(order, qs - todo)
        invariant peers.Keys == old(peers).Keys
        invariant forall r :: r in peers && r != id ==> peers[r] == old(peers)[r]
        invariant peers[id] == WithConsumers(old(peers)[id], old(nextConsumer), order)
        invariant nextConsumer == old(nextConsumer) + Taken(old(peers)[id], order)
        decreases todo
      {
        var q := Pick(todo);
        CreateConsumer(id, q);
        AddAllConcat(old(peers)[id].consumers, old(nextConsumer), order, [q]);
        ListsConcat(order, [q], qs - todo, {q});
        assert qs - (todo - {q}) == qs - todo + {q};
        todo := todo - {q};
        order := order + [q];
      }
    }

    /** Peer `id` subscribes to the producers of the other joined peers. */
    method SubscribeToOthers(id: PeerId) returns (ghost order: seq<ProducerId>)
      requires id in peers
      requires DistinctProducers(peers)
      modifies this`peers, this`nextConsumer
      ensures Lists(order, OthersProducers(old(peers), id))
      ensures peers.Keys == old(peers).Keys
      ensures forall r :: r in peers && r != id ==> peers[r] == old(peers)[r]
      ensures peers[id] == WithConsumers(old(peers)[id], old(nextConsumer), order)
      ensures nextConsumer == old(nextConsumer) + Taken(old(peers)[id], order)
    {
      ghost var before := peers;
      var todo := set r | r in peers && r != id && peers[r].joined;
      ghost var done: set<PeerId> := {};
      order := [];
      while todo != {}
        invariant forall r :: r in done || r in todo <==> IsOther(before, id, r)
        invariant done !! todo && Lists(order, ProducersOf(before, done))
        invariant peers.Keys == before.Keys
        invariant forall r :: r in peers && r != id ==> peers[r] == before[r]
        invariant peers[id] == WithConsumers(before[id], old(nextConsumer), order)
        invariant nextConsumer == old(nextConsumer) + Taken(before[id], order)
        decreases todo
      {
        var r := Pick(todo);
        ghost var more := Subscribe(id, peers[r].producers);
        AddAllConcat(before[id].consumers, old(nextConsumer), order, more);
        OneMorePeer(before, done, r);
        ListsConcat(order, more, ProducersOf(before, done), before[r].producers);
        order := order + more;
        todo := todo - {r};
        done := done + {r};
      }
      assert ProducersOf(before, done) == OthersProducers(before, id);
    }

    method Join(id: PeerId, hasCodecs: bool)
      requires Valid() && id in peers
      modifies this
      ensures Valid() && Next(old(Now()), Event.Join(id, hasCodecs), Now())
    {
      ghost var before, next := peers, nextConsumer;
      var p := peers[id].(joined := true, hasCodecs := hasCodecs);
      p := p.(ready := Wants(p));
      peers := peers[id := p];
      ghost var joined := peers;
      ghost var order := SubscribeToOthers(id);
      SameOthers(before, joined, id);
      AddAllGains(p.consumers, next, order, OthersProducers(before, id));
      GainsNothing(p.consumers);
      SameElsewhere(before, peers, id);
    }

    /** Every other joined peer gets a consumer for `q`. */
    method OfferToOthers(id: PeerId, q: ProducerId)
      requires id in peers && FreshIds(peers, nextConsumer)
      modifies this`peers, this`nextConsumer
      ensures peers.Keys == old(peers).Keys && FreshIds(peers, nextConsumer)
      ensures forall r :: r in peers ==> OneMore(old(peers)[r], peers[r], q, IsOther(old(peers), id, r))
    {
      ghost var before := peers;
      var todo := set r | r in peers && r != id && peers[r].joined;
      ghost var done: set<PeerId> := {};
      while todo != {}
        invariant forall r :: r in done || r in todo <==> IsOther(before, id, r)
        invariant done !! todo && peers.Keys == before.Keys && FreshIds(peers, nextConsumer)
        invariant forall r :: r in peers ==> OneMore(before[r], peers[r], q, r in done)
        decreases todo
      {
        var r := Pick(todo);
        ghost var p, next := peers[r], nextConsumer;
        assert p == before[r];
        CreateConsumer(r, q);
        OneAdded(p, next, q);
        todo := todo - {r};
        done := done + {r};
      }
    }

    method Produce(id: PeerId, q: ProducerId)
      requires Valid() && id in peers && peers[id].joined
      requires forall r :: r in peers ==> q !in peers[r].producers
      modifies this
      ensures Valid() && Next(old(Now()), Event.Produce(id, q), Now())
    {
      ghost var before := peers;
      used := used + {q};
      peers := peers[id := peers[id].(producers := peers[id].producers + {q})];
      ghost var mid := peers;
      OfferToOthers(id, q);
      forall r | r in before
        ensures Gains(before[r].consumers, peers[r].consumers,
                      if IsOther(before, id, r) && Wants(before[r]) then {q} else {})
      {
        assert OneMore(mid[r], peers[r], q, IsOther(mid, id, r));
        OneMoreGains(mid[r], peers[r], q, IsOther(mid, id, r));
      }
    }

    method CloseProducer(id: PeerId, q: ProducerId)
      requires Valid() && id in peers && peers[id].joined && q in peers[id].producers
      modifies this
      ensures Valid() && Next(old(Now()), Event.CloseProducer(id, q), Now())
    {
      closed := closed + {q};
      peers := peers[id := peers[id].(producers := peers[id].producers - {q})];
    }

    /** The "producerclose" handler of a consumer. */
    method OnProducerClose(id: PeerId, c: ConsumerId)
      requires Valid() && id in peers
      modifies this
      ensures Valid() && Next(old(Now()), CloseNotice(id, c), Now())
    {
      peers := peers[id := peers[id].(consumers := peers[id].consumers - {c})];
    }

    method CreateTransport(id: PeerId, consuming: bool)
      requires Valid() && id in peers
      modifies this
      ensures Valid() && Next(old(Now()), AddTransport(id, consuming), Now())
    {
      if consuming {
        peers := peers[id := peers[id].(consuming := true)];
      } else {
        assert peers == peers[id := peers[id]];
      }
    }
  }

  // ----- Every run

  /** The peers the mesh is promised to: those that were ready when they joined, or those that want consumers now. */
  predicate Covered(p: Peer, now: bool) {
    p.joined && if now then Wants(p) else p.ready
  }

  /** Each covered peer holds one consumer for each live producer of every other joined peer, and none for its own. */
  ghost predicate Meshed(s: State, now: bool) {
    forall p, r, q :: p in s.peers && Covered(s.peers[p], now) && r in s.peers && s.peers[r].joined &&
                      q in s.peers[r].producers ==>
      Count(s.peers[p].consumers, q) == if p == r then 0 else 1
  }

  ghost predicate PeerTidy(p: Peer, used: set<ProducerId>, closed: set<ProducerId>) {
    && (forall q :: q in p.producers ==> q in used && q !in closed && p.joined)
    && (forall c :: c in p.consumers ==> p.consumers[c] in used && p.joined)
    && (p.ready ==> Wants(p))
    && (!p.consuming ==> forall c :: c !in p.consumers)
  }

  ghost predicate Tidy(s: State) {
    && DistinctProducers(s.peers)
    && s.closed <= s.used
    && forall p :: p in s.peers ==> PeerTidy(s.peers[p], s.used, s.closed)
  }

  /** The conditions under which the handlers are called: fresh peers and producer ids, a single join, produce and
      close by a joined peer, close notices only for consumers of closed producers. */
  predicate Allowed(s: State, e: Event) {
    match e
    case Connect(_) => true
    case AddTransport(id, _) => id in s.peers
    case Join(id, _) => id in s.peers && !s.peers[id].joined
    case Produce(id, q) => id in s.peers && s.peers[id].joined && q !in s.used
    case CloseProducer(id, q) => id in s.peers && s.peers[id].joined && q in s.peers[id].producers
    case CloseNotice(id, c) => id in s.peers && c in s.peers[id].consumers && s.peers[id].consumers[c] in s.closed
    case Leave(_) => true
  }

  lemma CountOfUnused(m: map<ConsumerId, ProducerId>, used: set<ProducerId>, q: ProducerId)
    requires forall c :: c in m ==> m[c] in used
    requires q !in used
    ensures Count(m, q) == 0
  {
    assert forall c :: c !in Holders(m, q);
    assert Holders(m, q) * Holders(m, q) == {};
  }

  lemma NotEmpty<T>(s: set<T>)
    requires s != {}
    ensures exists x :: x in s
  {
  }

  lemma CountWithout(m: map<ConsumerId, ProducerId>, c: ConsumerId, q: ProducerId)
    requires c in m && m[c] != q
    ensures Count(m - {c}, q) == Count(m, q)
  {
    assert Holders(m - {c}, q) == Holders(m, q);
  }

  lemma StepTidy(s: State, e: Event, s': State)
    requires Tidy(s) && Allowed(s, e) && Next(s, e, s')
    ensures Tidy(s')
  {
    match e
    case Connect(id) =>
    case AddTransport(id, consuming) =>
    case Join(id, hasCodecs) =>
      JoinTidy(s, id, hasCodecs, s');
    case Produce(id, q) =>
      ProduceTidy(s, id, q, s');
    case CloseProducer(id, q) =>
    case CloseNotice(id, c) =>
    case Leave(id) =>
  }

  lemma JoinTidy(s: State, id: PeerId, hasCodecs: bool, s': State)
    requires Tidy(s) && Allowed(s, Join(id, hasCodecs)) && Next(s, Join(id, hasCodecs), s')
    ensures Tidy(s')
  {
    assert forall q :: q in OthersProducers(s.peers, id) ==> q in s.used;
    assert PeerTidy(s.peers[id], s.used, s.closed) && PeerTidy(s'.peers[id], s.used, s.closed);
  }

  lemma ProduceTidy(s: State, id: PeerId, q: ProducerId, s': State)
    requires Tidy(s) && Allowed(s, Produce(id, q)) && Next(s, Produce(id, q), s')
    ensures Tidy(s')
  {
    forall p | p in s'.peers ensures PeerTidy(s'.peers[p], s'.used, s'.closed) {
      assert PeerTidy(s.peers[p], s.used, s.closed);
    }
    ProduceDistinct(s, id, q, s');
  }

  lemma ProducedOf(s: State, id: PeerId, q: ProducerId, s': State, a: PeerId)
    requires Next(s, Produce(id, q), s') && a in s.peers
    ensures s'.peers[a].producers == if a == id then s.peers[a].producers + {q} else s.peers[a].producers
  {
  }

  lemma ProduceDistinct(s: State, id: PeerId, q: ProducerId, s': State)
    requires Tidy(s) && Allowed(s, Produce(id, q)) && Next(s, Produce(id, q), s')
    ensures DistinctProducers(s'.peers)
  {
    forall a, b | a in s'.peers && b in s'.peers && a != b ensures s'.peers[a].producers !! s'.peers[b].producers {
      ProducedOf(s, id, q, s', a);
      ProducedOf(s, id, q, s', b);
      assert q !in s.peers[a].producers && q !in s.peers[b].producers by {
        assert PeerTidy(s.peers[a], s.used, s.closed) && PeerTidy(s.peers[b], s.used, s.closed);
      }
    }
  }

  /** No consumer for a live producer of the other joined peers or of its own. */
  ghost predicate Unheard(s: State, id: PeerId)
    requires id in s.peers
  {
    forall q :: q in OthersProducers(s.peers, id) + s.peers[id].producers ==> Count(s.peers[id].consumers, q) == 0
  }

  /** A ready peer that joins while it has a consumer for one of these producers has one too many. */
  lemma HeardBreaks(s: State, id: PeerId, hasCodecs: bool, s': State, now: bool)
    requires Tidy(s) && Meshed(s, now) && id in s.peers && Next(s, Join(id, hasCodecs), s')
    requires s'.peers[id].ready && !Unheard(s, id)
    ensures !Meshed(s', now)
  {
    var q :| q in OthersProducers(s.peers, id) + s.peers[id].producers && Count(s.peers[id].consumers, q) != 0;
    if q in OthersProducers(s.peers, id) {
      var r :| r in s.peers && IsOther(s.peers, id, r) && q in s.peers[r].producers;
      assert r in s'.peers && s'.peers[r] == s.peers[r];
    } else {
      assert id in s'.peers && q in s'.peers[id].producers;
    }
  }

  /** Joining, once or again: the mesh is kept exactly if the peer is not ready then, or has no consumer yet for a live
      producer of its own or of the others. */
  lemma JoinKeepsMesh(s: State, id: PeerId, hasCodecs: bool, s': State, now: bool)
    requires Tidy(s) && Meshed(s, now) && id in s.peers && Next(s, Join(id, hasCodecs), s')
    ensures Meshed(s', now) <==> !s'.peers[id].ready || Unheard(s, id)
  {
    if s'.peers[id].ready && !Unheard(s, id) {
      HeardBreaks(s, id, hasCodecs, s', now);
    } else {
      JoinMeshed(s, id, hasCodecs, s', now);
    }
  }

  lemma JoinMeshed(s: State, id: PeerId, hasCodecs: bool, s': State, now: bool)
    requires Tidy(s) && Meshed(s, now) && id in s.peers && Next(s, Join(id, hasCodecs), s')
    requires !s'.peers[id].ready || Unheard(s, id)
    ensures Meshed(s', now)
  {
    forall p, r, x | p in s'.peers && Covered(s'.peers[p], now) && r in s'.peers && s'.peers[r].joined &&
                     x in s'.peers[r].producers
      ensures Count(s'.peers[p].consumers, x) == if p == r then 0 else 1
    {
      assert PeerTidy(s.peers[r], s.used, s.closed);
      assert x in s.peers[r].producers && s.peers[r].joined;
      if p == id {
        assert r != id ==> IsOther(s.peers, id, r);
        if r == id {
          assert x !in OthersProducers(s.peers, id);
        }
      }
    }
  }

  /** Who has joined tidily for the first time has no consumers. */
  lemma NewcomerUnheard(s: State, id: PeerId)
    requires Tidy(s) && id in s.peers && !s.peers[id].joined
    ensures Unheard(s, id)
  {
    assert PeerTidy(s.peers[id], s.used, s.closed);
    forall q ensures Count(s.peers[id].consumers, q) == 0 {
      CountOfUnused(s.peers[id].consumers, {}, q);
    }
  }

  /** The new producer has no consumer yet, and only the others that want it get one. */
  lemma ProduceCounts(s: State, id: PeerId, q: ProducerId, s': State, p: PeerId, x: ProducerId)
    requires Tidy(s) && Allowed(s, Produce(id, q)) && Next(s, Produce(id, q), s') && p in s.peers
    ensures Count(s'.peers[p].consumers, x) ==
            if x != q then Count(s.peers[p].consumers, x)
            else if IsOther(s.peers, id, p) && Wants(s.peers[p]) then 1 else 0
  {
    assert PeerTidy(s.peers[p], s.used, s.closed);
    CountOfUnused(s.peers[p].consumers, s.used, q);
  }

  lemma ProduceMeshed(s: State, id: PeerId, q: ProducerId, s': State, now: bool)
    requires Tidy(s) && Meshed(s, now) && Allowed(s, Produce(id, q)) && Next(s, Produce(id, q), s')
    ensures Meshed(s', now)
  {
    forall p, r, x | p in s'.peers && Covered(s'.peers[p], now) && r in s'.peers && s'.peers[r].joined &&
                     x in s'.peers[r].producers
      ensures Count(s'.peers[p].consumers, x) == if p == r then 0 else 1
    {
      ProduceCounts(s, id, q, s', p, x);
      assert PeerTidy(s.peers[p], s.used, s.closed) && PeerTidy(s.peers[r], s.used, s.closed);
      assert x == q <==> r == id && x !in s.peers[r].producers;
    }
  }

  lemma NoticeMeshed(s: State, id: PeerId, c: ConsumerId, s': State, now: bool)
    requires Tidy(s) && Meshed(s, now) && Allowed(s, CloseNotice(id, c)) && Next(s, CloseNotice(id, c), s')
    ensures Meshed(s', now)
  {
    forall r, q | r in s.peers && q in s.peers[r].producers
      ensures Count(s'.peers[id].consumers, q) == Count(s.peers[id].consumers, q)
    {
      CountWithout(s.peers[id].consumers, c, q);
    }
  }

  /** A transport for consuming that a joined peer with codecs still lacks. */
  predicate Late(s: State, e: Event) {
    e.AddTransport? && e.consuming && e.id in s.peers &&
    s.peers[e.id].joined && s.peers[e.id].hasCodecs && !s.peers[e.id].consuming
  }

  /** A late transport leaves the peers that want consumers now meshed if and only if no other joined peer has a live
      producer: it brings no consumers for the producers that are already there. */
  lemma LateTransportExactly(s: State, e: Event, s': State)
    requires Tidy(s) && Meshed(s, true) && Late(s, e) && Next(s, e, s')
    ensures Meshed(s', true) <==> OthersProducers(s.peers, e.id) == {}
  {
    var id := e.id;
    assert PeerTidy(s.peers[id], s.used, s.closed);
    forall q ensures Count(s'.peers[id].consumers, q) == 0 {
      CountOfUnused(s.peers[id].consumers, {}, q);
    }
    if OthersProducers(s.peers, id) != {} {
      NotEmpty(OthersProducers(s.peers, id));
      var q :| q in OthersProducers(s.peers, id);
      var r :| r in s.peers && IsOther(s.peers, id, r) && q in s.peers[r].producers;
      assert Covered(s'.peers[id], true) && r in s'.peers && s'.peers[r] == s.peers[r];
    }
    if !Meshed(s', true) {
      var p, r, q :| p in s'.peers && Covered(s'.peers[p], true) && r in s'.peers && s'.peers[r].joined &&
                     q in s'.peers[r].producers && Count(s'.peers[p].consumers, q) != if p == r then 0 else 1;
      assert IsOther(s.peers, id, r);
      assert q in OthersProducers(s.peers, id);
    }
  }

  /** Every event keeps the mesh of the peers that were ready when they joined; it keeps that of the peers that want
      consumers now unless it is a late transport while others have live producers. */
  lemma StepMeshed(s: State, e: Event, s': State, now: bool)
    requires Tidy(s) && Meshed(s, now) && Allowed(s, e) && Next(s, e, s')
    ensures Meshed(s', now) <==> !(now && Late(s, e) && OthersProducers(s.peers, e.id) != {})
  {
    match e
    case Connect(id) =>
    case AddTransport(id, consuming) =>
      if now && Late(s, e) {
        LateTransportExactly(s, e, s');
      }
    case Join(id, hasCodecs) =>
      NewcomerUnheard(s, id);
      JoinMeshed(s, id, hasCodecs, s', now);
    case Produce(id, q) => ProduceMeshed(s, id, q, s', now);
    case CloseProducer(id, q) =>
    case CloseNotice(id, c) => NoticeMeshed(s, id, c, s', now);
    case Leave(id) =>
  }

  /** `states` is what a room goes through under `events`. */
  ghost predicate Behaviour(states: seq<State>, events: seq<Event>) {
    && |states| == |events| + 1 && states[0] == State(map[], {}, {})
    && forall i {:trigger events[i]} :: 0 <= i < |events| ==>
         Allowed(states[i], events[i]) && Next(states[i], events[i], states[i + 1])
  }

  /** No transport comes late while other joined peers have live producers, among the first n events. */
  ghost predicate Timely(states: seq<State>, events: seq<Event>, n: nat)
    requires n <= |events| < |states|
  {
    forall i :: 0 <= i < n ==> !Late(states[i], events[i]) || OthersProducers(states[i].peers, events[i].id) == {}
  }

  /** Under every interleaving of the events the mesh is complete and exact at every moment: for the peers that were
      ready when they joined always, and for all that want consumers as long as no transport comes late. */
  lemma {:induction false} MeshTheorem(states: seq<State>, events: seq<Event>, n: nat)
    requires Behaviour(states, events) && n < |states|
    ensures Tidy(states[n]) && Meshed(states[n], false)
    ensures Timely(states, events, n) ==> Meshed(states[n], true)
  {
    if n > 0 {
      MeshTheorem(states, events, n - 1);
      StepTidy(states[n - 1], events[n - 1], states[n]);
      StepMeshed(states[n - 1], events[n - 1], states[n], false);
      if Timely(states, events, n) {
        StepMeshed(states[n - 1], events[n - 1], states[n], true);
      }
    }
  }

  /** The repeated join, which is only logged: for a peer that had not joined, or was ready when it did, the mesh is
      kept if and only if it is not ready now, had not joined, or no other joined peer has a live producer. */
  lemma RepeatedJoinExactly(s: State, id: PeerId, hasCodecs: bool, s': State)
    requires Tidy(s) && Meshed(s, false) && id in s.peers && (s.peers[id].joined ==> s.peers[id].ready)
    requires Next(s, Join(id, hasCodecs), s')
    ensures Meshed(s', false) <==>
            !s'.peers[id].ready || !s.peers[id].joined || OthersProducers(s.peers, id) == {}
  {
    JoinKeepsMesh(s, id, hasCodecs, s', false);
    if !s.peers[id].joined {
      NewcomerUnheard(s, id);
    } else if OthersProducers(s.peers, id) != {} {
      NotEmpty(OthersProducers(s.peers, id));
      var q :| q in OthersProducers(s.peers, id);
      var r :| r in s.peers && IsOther(s.peers, id, r) && q in s.peers[r].producers;
      assert Count(s.peers[id].consumers, q) == 1;
    }
  }

  /** Where it is not kept, every live producer of the others is consumed twice. */
  lemma SecondJoinDuplicates(s: State, id: PeerId, s': State, r: PeerId, q: ProducerId)
    requires Meshed(s, false) && id in s.peers && s.peers[id].joined && s.peers[id].ready && Wants(s.peers[id])
    requires Next(s, Join(id, true), s') && IsOther(s.peers, id, r) && q in s.peers[r].producers
    ensures Count(s'.peers[id].consumers, q) == 2
  {
    assert q in OthersProducers(s.peers, id);
    assert Count(s.peers[id].consumers, q) == 1;
  }

  // ----- Who comes, and who produces

  /** The peer has joined and holds exactly one consumer for each live producer of the joined peers, and no other. */
  ghost predicate Arrived(s: State, s': State, id: PeerId) {
    && id in s'.peers && s'.peers[id].joined && s'.peers[id].ready && s'.peers[id].producers == {}
    && (forall r :: r in s.peers ==> r in s'.peers && s'.peers[r] == s.peers[r])
    && (forall r, q :: r in s.peers && s.peers[r].joined && q in s.peers[r].producers ==>
          Count(s'.peers[id].consumers, q) == 1)
    && (forall c :: c in s'.peers[id].consumers ==> FromJoined(s, s'.peers[id].consumers[c]))
  }

  ghost predicate FromJoined(s: State, q: ProducerId) {
    exists r :: r in s.peers && s.peers[r].joined && q in s.peers[r].producers
  }

  /** A peer that connects is there, and once it gets a transport for consuming and joins with its codecs it has
      arrived; nobody else is touched. */
  lemma ArrivalTheorem(s: State, id: PeerId, s1: State)
    requires id !in s.peers && Next(s, Connect(id), s1)
    ensures id in s1.peers && s1.peers.Keys == s.peers.Keys + {id}
    ensures forall s2, s3 :: Next(s1, AddTransport(id, true), s2) && Next(s2, Join(id, true), s3) ==> Arrived(s, s3, id)
  {
    forall s2, s3 | Next(s1, AddTransport(id, true), s2) && Next(s2, Join(id, true), s3) ensures Arrived(s, s3, id) {
      JoinArrives(s, id, s2, s3);
    }
  }

  lemma JoinArrives(s: State, id: PeerId, s2: State, s3: State)
    requires id !in s.peers && s2.peers == s.peers[id := NEWCOMER.(consuming := true)]
    requires Next(s2, Join(id, true), s3)
    ensures Arrived(s, s3, id)
  {
    forall r, q | r in s.peers && s.peers[r].joined && q in s.peers[r].producers
      ensures Count(s3.peers[id].consumers, q) == 1
    {
      NoneHeld(q);
      assert IsOther(s2.peers, id, r);
      assert q in OthersProducers(s2.peers, id);
    }
    forall c | c in s3.peers[id].consumers ensures FromJoined(s, s3.peers[id].consumers[c]) {
      var r :| r in s2.peers && IsOther(s2.peers, id, r) && s3.peers[id].consumers[c] in s2.peers[r].producers;
      assert s.peers[r] == s2.peers[r];
    }
  }

  /** A producer goes to its peer; every other joined peer that wants consumers gets exactly one for it, and nobody else
      gets any. */
  lemma ProduceTheorem(s: State, id: PeerId, q: ProducerId, s': State)
    requires Tidy(s) && Allowed(s, Produce(id, q)) && Next(s, Produce(id, q), s')
    ensures s'.peers.Keys == s.peers.Keys && q in s'.peers[id].producers
    ensures forall p :: p in s.peers ==>
      Count(s'.peers[p].consumers, q) == if p != id && s.peers[p].joined && Wants(s.peers[p]) then 1 else 0
    ensures forall p, x :: p in s.peers && x != q ==>
      (x in s'.peers[p].producers <==> x in s.peers[p].producers) &&
      Count(s'.peers[p].consumers, x) == Count(s.peers[p].consumers, x)
  {
    forall p, x | p in s.peers
      ensures Count(s'.peers[p].consumers, x) ==
              if x != q then Count(s.peers[p].consumers, x)
              else if IsOther(s.peers, id, p) && Wants(s.peers[p]) then 1 else 0
    {
      ProduceCounts(s, id, q, s', p, x);
    }
  }

  // ----- Producers that are gone

  /** `q` was given out and no peer holds it any more. */
  ghost predicate Retired(s: State, q: ProducerId) {
    q in s.used && forall p :: p in s.peers ==> q !in s.peers[p].producers
  }

  /** Closing a producer retires it, and so does the leaving of its peer. */
  lemma GoneIsRetired(s: State, e: Event, s': State, q: ProducerId)
    requires Tidy(s) && Allowed(s, e) && Next(s, e, s')
    requires (e.CloseProducer? && e.producer == q) || (e.Leave? && e.id in s.peers && q in s.peers[e.id].producers)
    ensures Retired(s', q) && (e.CloseProducer? ==> q in s'.closed) && (e.Leave? ==> e.id !in s'.peers)
  {
    assert PeerTidy(s.peers[e.id], s.used, s.closed);
    forall p | p in s'.peers ensures q !in s'.peers[p].producers {
      if p != e.id {
        assert s.peers[p].producers !! s.peers[e.id].producers;
      }
    }
  }

  /** No consumer of the peer, if it is there, consumes `q`. */
  predicate Without(s: State, p: PeerId, q: ProducerId) {
    p in s.peers ==> Count(s.peers[p].consumers, q) == 0
  }

  /** A retired producer stays so, nobody starts to consume it, and who joins has no consumer for it. */
  lemma StepRetired(s: State, e: Event, s': State, q: ProducerId, p: PeerId)
    requires Tidy(s) && Allowed(s, e) && Next(s, e, s') && Retired(s, q)
    ensures Retired(s', q)
    ensures Without(s, p, q) || e == Join(p, true) || e == Join(p, false) ==> Without(s', p, q)
  {
    match e
    case Connect(id) => NoneHeld(q);
    case AddTransport(id, consuming) =>
    case Join(id, hasCodecs) =>
      assert PeerTidy(s.peers[id], s.used, s.closed);
      CountOfUnused(s.peers[id].consumers, s.used - {q}, q);
      assert q !in OthersProducers(s.peers, id);
    case Produce(id, x) =>
      if p in s.peers {
        ProduceCounts(s, id, x, s', p, q);
      }
    case CloseProducer(id, x) =>
    case CloseNotice(id, c) =>
      if p == id {
        NoticeCounts(s.peers[id].consumers, c, q);
      }
    case Leave(id) =>
  }

  lemma NoneHeld(q: ProducerId)
    ensures Count(map[], q) == 0
  {
    CountOfUnused(map[], {}, q);
  }

  lemma NoticeCounts(m: map<ConsumerId, ProducerId>, c: ConsumerId, q: ProducerId)
    requires c in m
    ensures Count(m - {c}, q) == Count(m, q) - if m[c] == q then 1 else 0
  {
    if m[c] == q {
      assert Holders(m, q) == Holders(m - {c}, q) + {c};
    } else {
      CountWithout(m, c, q);
    }
  }

  /** Once its producer is closed, a consumer's close notice takes that consumer away and nothing else. */
  lemma NoticeTheorem(s: State, id: PeerId, c: ConsumerId, s': State)
    requires Allowed(s, CloseNotice(id, c)) && Next(s, CloseNotice(id, c), s')
    ensures s'.peers.Keys == s.peers.Keys && forall p :: p in s.peers && p != id ==> s'.peers[p] == s.peers[p]
    ensures s'.peers[id].producers == s.peers[id].producers
    ensures forall x :: x in s'.peers[id].consumers <==> x in s.peers[id].consumers && x != c
    ensures forall q ::
      Count(s'.peers[id].consumers, q) ==
      Count(s.peers[id].consumers, q) - if s.peers[id].consumers[c] == q then 1 else 0
  {
    forall q ensures Count(s'.peers[id].consumers, q) ==
                     Count(s.peers[id].consumers, q) - if s.peers[id].consumers[c] == q then 1 else 0
    {
      NoticeCounts(s.peers[id].consumers, c, q);
    }
  }

  lemma RetiredNext(states: seq<State>, events: seq<Event>, n: nat, q: ProducerId, p: PeerId)
    requires Behaviour(states, events) && n < |events| && Retired(states[n], q)
    ensures Retired(states[n + 1], q)
    ensures Without(states[n], p, q) || (events[n].Join? && events[n].id == p) ==> Without(states[n + 1], p, q)
  {
    MeshTheorem(states, events, n);
    StepRetired(states[n], events[n], states[n + 1], q, p);
  }

  lemma GoneNext(states: seq<State>, events: seq<Event>, n: nat, q: ProducerId)
    requires Behaviour(states, events) && n < |events|
    requires var e := events[n];
      (e.CloseProducer? && e.producer == q) ||
      (e.Leave? && e.id in states[n].peers && q in states[n].peers[e.id].producers)
    ensures Retired(states[n + 1], q)
  {
    MeshTheorem(states, events, n);
    GoneIsRetired(states[n], events[n], states[n + 1], q);
  }

  lemma {:induction false} RetiredForGood(states: seq<State>, events: seq<Event>, i: nat, n: nat, q: ProducerId)
    requires Behaviour(states, events) && i <= n < |states| && Retired(states[i], q)
    ensures Retired(states[n], q)
    decreases n - i
  {
    if i < n {
      RetiredForGood(states, events, i, n - 1, q);
      RetiredNext(states, events, n - 1, q, 0);
    }
  }

  /** Under every interleaving: after a producer is closed or its peer has left, whoever joins never has a consumer for
      it. */
  lemma {:induction false} GoneTheorem(states: seq<State>, events: seq<Event>, i: nat, j: nat, n: nat, q: ProducerId)
    requires Behaviour(states, events) && i < j < n < |states|
    requires var e := events[i];
      (e.CloseProducer? && e.producer == q) ||
      (e.Leave? && e.id in states[i].peers && q in states[i].peers[e.id].producers)
    requires events[j].Join?
    ensures Retired(states[n], q) && Without(states[n], events[j].id, q)
    decreases n
  {
    GoneNext(states, events, i, q);
    RetiredForGood(states, events, i + 1, n - 1, q);
    if j < n - 1 {
      GoneTheorem(states, events, i, j, n - 1, q);
    }
    RetiredNext(states, events, n - 1, q, events[j].id);
  }
}
