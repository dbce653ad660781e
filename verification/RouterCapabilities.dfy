/** `generateRouterRtpCapabilities`: payload types come from a finite pool and each video codec is paired with an
    RTX codec. */
module RouterCapabilities {
  import opened Rtp
  import opened Sequences

  /** 100, 101, ..., 127, 96, 97, 98, 99. */
  function DynamicPayloadTypes(): (pool: seq<int>)
    ensures |pool| == 32
  {
    seq(32, i => if i < 28 then 100 + i else 68 + i)
  }

  predicate Dynamic(pt: int) {
    96 <= pt <= 127
  }

  /** The list under construction and the dynamic payload types still free. */
  datatype Allocation = Allocation(codecs: seq<Codec>, pool: seq<int>)

  const START := Allocation([], DynamicPayloadTypes())

  /** `std::find` then `erase`: drops the first occurrence. */
  function Without(pool: seq<int>, pt: int): (r: seq<int>)
    ensures pt !in pool ==> r == pool
    ensures pt in pool ==> |r| == |pool| - 1
  {
    if pool == [] then []
    else if pool[0] == pt then pool[1..]
    else [pool[0]] + Without(pool[1..], pt)
  }

  function RtxFor(codec: Codec, pt: int): Codec {
    Codec(codec.kind, codec.kind + "/rtx", pt, codec.clockRate, 0, map["apt" := Number(codec.pt)], [])
  }

  predicate Taken(codecs: seq<Codec>, pt: int) {
    exists k :: 0 <= k < |codecs| && codecs[k].pt == pt
  }

  /** Appends `codec` with the parameters of the media codec merged in, and its RTX codec if it is video. */
  function Append(codec: Codec, extra: Parameters, st: Allocation): Outcome<Allocation> {
    if Taken(st.codecs, codec.pt) then Err(DuplicatedPayloadType)
    else
      var merged := codec.(parameters := codec.parameters + extra);
      if merged.kind != "video" then Ok(Allocation(st.codecs + [merged], st.pool))
      else if st.pool == [] then Err(CannotAllocate)
      else Ok(Allocation(st.codecs + [merged, RtxFor(merged, st.pool[0])], st.pool[1..]))
  }

  /** One media codec: skipped when unsupported, otherwise given a payload type and appended. */
  function AllocateOne(media: Codec, st: Allocation, table: seq<Codec>, same: ProfileRelation): Outcome<Allocation> {
    if !ValidCapability(media) then Err(InvalidCodec)
    else
      var i := FirstMatch(Normalize(media), table, false, same);
      if i == |table| then Ok(st)
      else if media.pt != 0 then
        Append(table[i].(pt := media.pt), media.parameters, st.(pool := Without(st.pool, media.pt)))
      else if table[i].pt != 0 then Append(table[i], media.parameters, st)
      else if st.pool == [] then Err(CannotAllocate)
      else Append(table[i].(pt := st.pool[0]), media.parameters, st.(pool := st.pool[1..]))
  }

  function Allocate(media: seq<Codec>, st: Allocation, table: seq<Codec>, same: ProfileRelation): Outcome<Allocation> {
    if media == [] then Ok(st)
    else
      var st' :- AllocateOne(media[0], st, table, same);
      Allocate(media[1..], st', table, same)
  }

  function RouterCodecs(media: seq<Codec>, table: seq<Codec>, same: ProfileRelation): Outcome<seq<Codec>> {
    var st :- Allocate(media, START, table, same);
    Ok(st.codecs)
  }

  /** The body of the loop over the media codecs. */
  method PlaceMediaCodec(mediaCodec: Codec, st: Allocation, table: seq<Codec>, same: ProfileRelation)
    returns (r: Outcome<Allocation>)
    ensures r == AllocateOne(mediaCodec, st, table, same)
  {
    if !ValidCapability(mediaCodec) {
      return Err(InvalidCodec);
    }
    var k := FindMatch(Normalize(mediaCodec), table, false, same);
    if k == |table| {
      return Ok(st);
    }
    var codec, pool := table[k], st.pool;
    if mediaCodec.pt != 0 {
      codec := codec.(pt := mediaCodec.pt);
      pool := Without(pool, codec.pt);
    } else if codec.pt == 0 {
      if pool == [] {
        return Err(CannotAllocate);
      }
      codec := codec.(pt := pool[0]);
      pool := pool[1..];
    }
    for j := 0 to |st.codecs|
      invariant forall k :: 0 <= k < j ==> st.codecs[k].pt != codec.pt
    {
      if st.codecs[j].pt == codec.pt {
        return Err(DuplicatedPayloadType);
      }
    }
    codec := codec.(parameters := codec.parameters + mediaCodec.parameters);
    if codec.kind != "video" {
      return Ok(Allocation(st.codecs + [codec], pool));
    }
    if pool == [] {
      return Err(CannotAllocate);
    }
    return Ok(Allocation(st.codecs + [codec, RtxFor(codec, pool[0])], pool[1..]));
  }

  method GenerateRouterRtpCapabilities(media: seq<Codec>, table: seq<Codec>, same: ProfileRelation)
    returns (r: Outcome<seq<Codec>>)
    ensures r == RouterCodecs(media, table, same)
  {
    var st := START;
    for i := 0 to |media|
      invariant Allocate(media[i..], st, table, same) == Allocate(media, START, table, same)
    {
      assert media[i..][0] == media[i] && media[i..][1..] == media[i + 1..];
      var next := PlaceMediaCodec(media[i], st, table, same);
      if next.Err? {
        return Err(next.error);
      }
      st := next.value;
    }
    return Ok(st.codecs);
  }

  // ----- What holds throughout the allocation

  /** What the stages need of the table of supported codecs: no RTX entry, no entry in the dynamic range. */
  predicate TableOk(table: seq<Codec>) {
    forall k :: 0 <= k < |table| ==> !IsRtx(table[k]) && !Dynamic(table[k].pt)
  }

  predicate DistinctPts(codecs: seq<Codec>) {
    forall i, j :: 0 <= i < j < |codecs| ==> codecs[i].pt != codecs[j].pt
  }

  /** At position i: an RTX codec directly follows the video codec its apt names, and a video codec has one. */
  predicate PairedAt(codecs: seq<Codec>, i: nat)
    requires i < |codecs|
  {
    if IsRtx(codecs[i])
    then i > 0 && !IsRtx(codecs[i - 1]) && codecs[i - 1].kind == "video" && Apt(codecs[i]) == codecs[i - 1].pt
    else codecs[i].kind == "video" ==> i + 1 < |codecs| && IsRtx(codecs[i + 1])
  }

  /** The shape every later stage relies on. */
  predicate RouterShape(codecs: seq<Codec>) {
    && DistinctPts(codecs)
    && (forall i :: 0 <= i < |codecs| ==> PairedAt(codecs, i))
    && (forall i :: 0 <= i < |codecs| ==> codecs[i].pt != 0)
  }

  /** The free dynamic payload types and the ones in use partition the initial 32. */
  ghost predicate Partition(st: Allocation) {
    && Distinct(st.pool)
    && (forall p :: p in st.pool ==> Dynamic(p) && !Taken(st.codecs, p))
    && (forall p :: Dynamic(p) ==> p in st.pool || Taken(st.codecs, p))
  }

  ghost predicate Consistent(st: Allocation) {
    RouterShape(st.codecs) && Partition(st)
  }

  lemma InitialPool()
    ensures Distinct(DynamicPayloadTypes())
    ensures forall p :: p in DynamicPayloadTypes() <==> Dynamic(p)
  {
    forall p | Dynamic(p) ensures p in DynamicPayloadTypes() {
      assert DynamicPayloadTypes()[if p >= 100 then p - 100 else p - 68] == p;
    }
  }

  lemma {:induction false} MemberOfWithout(pool: seq<int>, pt: int)
    requires Distinct(pool)
    ensures Distinct(Without(pool, pt))
    ensures forall p :: p in Without(pool, pt) <==> p in pool && p != pt
  {
    if pool != [] {
      assert pool == [pool[0]] + pool[1..];
      assert pool[0] !in pool[1..];
      MemberOfWithout(pool[1..], pt);
    }
  }

  /** Appending one plain codec keeps the shape. */
  lemma ShapeOfSnoc(codecs: seq<Codec>, codec: Codec)
    requires RouterShape(codecs) && !Taken(codecs, codec.pt)
    requires !IsRtx(codec) && codec.pt != 0 && codec.kind != "video"
    ensures RouterShape(codecs + [codec])
  {
    var all := codecs + [codec];
    forall i | 0 <= i < |all| ensures PairedAt(all, i) {
      if i < |codecs| {
        assert PairedAt(codecs, i);
      }
    }
  }

  lemma ShapeOfPair(codecs: seq<Codec>, codec: Codec, pt: int)
    requires RouterShape(codecs) && !Taken(codecs, codec.pt) && !Taken(codecs, pt)
    requires !IsRtx(codec) && codec.pt != 0 && codec.kind == "video" && pt != 0 && pt != codec.pt
    ensures RouterShape(codecs + [codec, RtxFor(codec, pt)])
  {
    var all := codecs + [codec, RtxFor(codec, pt)];
    assert IsRtx(RtxFor(codec, pt));
    forall i | 0 <= i < |all| ensures PairedAt(all, i) {
      if i < |codecs| {
        assert PairedAt(codecs, i);
      }
    }
  }

  lemma TakenInConcat(a: seq<Codec>, b: seq<Codec>, p: int)
    ensures Taken(a + b, p) <==> Taken(a, p) || Taken(b, p)
  {
    if Taken(a, p) {
      var k :| 0 <= k < |a| && a[k].pt == p;
      assert (a + b)[k].pt == p;
    }
    if Taken(b, p) {
      var k :| 0 <= k < |b| && b[k].pt == p;
      assert (a + b)[|a| + k].pt == p;
    }
  }

  /** Appending keeps the shape and the partition, when the payload type came out of the pool or is not dynamic. */
  lemma AppendConsistent(codec: Codec, extra: Parameters, st: Allocation)
    requires !IsRtx(codec) && codec.pt != 0
    requires RouterShape(st.codecs) && Distinct(st.pool)
    requires codec.pt !in st.pool
    requires forall p :: p in st.pool ==> Dynamic(p) && !Taken(st.codecs, p)
    requires forall p :: Dynamic(p) ==> p in st.pool || Taken(st.codecs, p) || p == codec.pt
    ensures Append(codec, extra, st).Ok? ==> Consistent(Append(codec, extra, st).value)
  {
    var r := Append(codec, extra, st);
    if r.Ok? {
      var merged := codec.(parameters := codec.parameters + extra);
      if codec.kind == "video" {
        var rtx := RtxFor(merged, st.pool[0]);
        ShapeOfPair(st.codecs, merged, st.pool[0]);
        assert forall p :: Taken([merged, rtx], p) <==> p == codec.pt || p == st.pool[0] by {
          assert [merged, rtx][0] == merged && [merged, rtx][1] == rtx;
        }
        forall p ensures Taken(r.value.codecs, p) <==> Taken(st.codecs, p) || p == codec.pt || p == st.pool[0] {
          TakenInConcat(st.codecs, [merged, rtx], p);
        }
        assert st.pool == [st.pool[0]] + st.pool[1..];
      } else {
        ShapeOfSnoc(st.codecs, merged);
        assert forall p :: Taken([merged], p) <==> p == codec.pt by {
          assert [merged][0] == merged;
        }
        forall p ensures Taken(r.value.codecs, p) <==> Taken(st.codecs, p) || p == codec.pt {
          TakenInConcat(st.codecs, [merged], p);
        }
      }
    }
  }

  lemma AllocateOneConsistent(media: Codec, st: Allocation, table: seq<Codec>, same: ProfileRelation)
    requires TableOk(table) && Consistent(st)
    ensures var r := AllocateOne(media, st, table, same); r.Ok? ==> Consistent(r.value)
  {
    var i := FirstMatch(Normalize(media), table, false, same);
    if ValidCapability(media) && i < |table| {
      if media.pt != 0 {
        MemberOfWithout(st.pool, media.pt);
        AppendConsistent(table[i].(pt := media.pt), media.parameters, st.(pool := Without(st.pool, media.pt)));
      } else if table[i].pt != 0 {
        AppendConsistent(table[i], media.parameters, st);
      } else if st.pool != [] {
        assert st.pool == [st.pool[0]] + st.pool[1..];
        AppendConsistent(table[i].(pt := st.pool[0]), media.parameters, st.(pool := st.pool[1..]));
      }
    }
  }

  /** At every point of the run the list has the router shape, and free and used payload types partition the pool. */
  lemma {:induction false} AllocateConsistent(media: seq<Codec>, st: Allocation, table: seq<Codec>,
                                              same: ProfileRelation)
    requires TableOk(table) && Consistent(st)
    ensures var r := Allocate(media, st, table, same); r.Ok? ==> Consistent(r.value)
  {
    if media != [] {
      AllocateOneConsistent(media[0], st, table, same);
      var one := AllocateOne(media[0], st, table, same);
      if one.Ok? {
        AllocateConsistent(media[1..], one.value, table, same);
      }
    }
  }

  // ----- Demand and supply

  /** How many dynamic payload types one media codec needs. */
  function DemandOne(media: Codec, table: seq<Codec>, same: ProfileRelation): nat {
    var i := FirstMatch(Normalize(media), table, false, same);
    if !ValidCapability(media) || i == |table| then 0
    else
      (if Dynamic(media.pt) || (media.pt == 0 && table[i].pt == 0) then 1 else 0) +
      (if table[i].kind == "video" then 1 else 0)
  }

  function Demand(media: seq<Codec>, table: seq<Codec>, same: ProfileRelation): nat {
    if media == [] then 0 else DemandOne(media[0], table, same) + Demand(media[1..], table, same)
  }

  lemma AppendDemand(codec: Codec, extra: Parameters, st: Allocation)
    ensures var r := Append(codec, extra, st);
      && (r.Ok? ==>
            !Taken(st.codecs, codec.pt) && |r.value.pool| + (if codec.kind == "video" then 1 else 0) == |st.pool|)
      && (r == Err(CannotAllocate) ==> !Taken(st.codecs, codec.pt) && codec.kind == "video" && st.pool == [])
  {
  }

  lemma AllocateOneDemand(media: Codec, st: Allocation, table: seq<Codec>, same: ProfileRelation)
    requires TableOk(table) && Consistent(st)
    ensures var r := AllocateOne(media, st, table, same);
      && (r.Ok? ==> |r.value.pool| + DemandOne(media, table, same) == |st.pool|)
      && (r == Err(CannotAllocate) ==> DemandOne(media, table, same) > |st.pool|)
  {
    var i := FirstMatch(Normalize(media), table, false, same);
    if ValidCapability(media) && i < |table| {
      if media.pt != 0 {
        AppendDemand(table[i].(pt := media.pt), media.parameters, st.(pool := Without(st.pool, media.pt)));
      } else if table[i].pt != 0 {
        AppendDemand(table[i], media.parameters, st);
      } else if st.pool != [] {
        AppendDemand(table[i].(pt := st.pool[0]), media.parameters, st.(pool := st.pool[1..]));
      }
    }
  }

  /** A successful run takes exactly the demanded number of payload types out of the pool; running out means the
      demand was larger than the pool. */
  lemma {:induction false} AllocateDemand(media: seq<Codec>, st: Allocation, table: seq<Codec>, same: ProfileRelation)
    requires TableOk(table) && Consistent(st)
    ensures var r := Allocate(media, st, table, same);
      && (r.Ok? ==> |r.value.pool| + Demand(media, table, same) == |st.pool|)
      && (r == Err(CannotAllocate) ==> Demand(media, table, same) > |st.pool|)
  {
    if media != [] {
      AllocateOneDemand(media[0], st, table, same);
      AllocateOneConsistent(media[0], st, table, same);
      var one := AllocateOne(media[0], st, table, same);
      if one.Ok? {
        AllocateDemand(media[1..], one.value, table, same);
      }
    }
  }

  /** The router's list: distinct non-zero payload types, every video codec directly followed by its RTX codec.
      Success needs a demand of at most 32, and with such a demand the pool is never exhausted. */
  lemma RouterCapabilitiesTheorem(media: seq<Codec>, table: seq<Codec>, same: ProfileRelation)
    requires TableOk(table)
    ensures var r := RouterCodecs(media, table, same);
      && (r.Ok? ==> RouterShape(r.value) && Demand(media, table, same) <= 32)
      && (r == Err(CannotAllocate) ==> Demand(media, table, same) > 32)
  {
    InitialPool();
    AllocateConsistent(media, START, table, same);
    AllocateDemand(media, START, table, same);
  }

  // ----- When the allocation succeeds

  /** The payload types one media codec would get, duplicates or not, and the pool it leaves. */
  datatype Choice = Choice(pts: seq<int>, pool: seq<int>)

  /** The media codec's own payload type; none when the pool is empty. */
  function ChosenOwn(media: Codec, supported: Codec, pool: seq<int>): (c: Choice)
    ensures |c.pts| <= 1
  {
    if media.pt != 0 then Choice([media.pt], Without(pool, media.pt))
    else if supported.pt != 0 then Choice([supported.pt], pool)
    else if pool == [] then Choice([], [])
    else Choice([pool[0]], pool[1..])
  }

  /** A video codec takes a second one for its RTX codec. */
  function Chosen(media: Codec, supported: Codec, pool: seq<int>): (c: Choice)
    ensures ChosenOwn(media, supported, pool).pts <= c.pts
  {
    var own := ChosenOwn(media, supported, pool);
    if supported.kind != "video" || own.pool == [] then own
    else Choice(own.pts + [own.pool[0]], own.pool[1..])
  }

  /** The payload types all media codecs would get, in order. */
  function ChosenPts(media: seq<Codec>, pool: seq<int>, table: seq<Codec>, same: ProfileRelation): seq<int> {
    if media == [] then []
    else
      var i := FirstMatch(Normalize(media[0]), table, false, same);
      if i == |table| then ChosenPts(media[1..], pool, table, same)
      else
        var c := Chosen(media[0], table[i], pool);
        c.pts + ChosenPts(media[1..], c.pool, table, same)
  }

  predicate AllValid(media: seq<Codec>) {
    forall i :: 0 <= i < |media| ==> ValidCapability(media[i])
  }

  /** No payload type twice among `pts`, and none that `codecs` already uses. */
  predicate Unused(codecs: seq<Codec>, pts: seq<int>) {
    Distinct(pts) && forall i :: 0 <= i < |pts| ==> !Taken(codecs, pts[i])
  }

  lemma UnusedConcat(codecs: seq<Codec>, more: seq<Codec>, a: seq<int>, b: seq<int>)
    requires Unused(codecs, a)
    requires |more| == |a| && forall i :: 0 <= i < |a| ==> more[i].pt == a[i]
    ensures Unused(codecs, a + b) <==> Unused(codecs + more, b)
  {
    var all := a + b;
    forall p ensures Taken(codecs + more, p) <==> Taken(codecs, p) || p in a {
      TakenInConcat(codecs, more, p);
      if p in a {
        var i :| 0 <= i < |a| && a[i] == p;
        assert more[i].pt == p;
      }
    }
    if Unused(codecs, all) {
      forall i | 0 <= i < |b| ensures !Taken(codecs + more, b[i]) {
        assert all[|a| + i] == b[i];
        assert forall k :: 0 <= k < |a| ==> all[k] == a[k];
      }
      assert forall i, j :: 0 <= i < j < |b| ==> all[|a| + i] == b[i] && all[|a| + j] == b[j];
    }
    if Unused(codecs + more, b) {
      assert forall i :: 0 <= i < |b| ==> b[i] !in a;
    }
  }

  lemma AllocateOneIsAppend(media: Codec, st: Allocation, table: seq<Codec>, same: ProfileRelation)
    requires ValidCapability(media)
    requires FirstMatch(Normalize(media), table, false, same) < |table|
    ensures var supported := table[FirstMatch(Normalize(media), table, false, same)];
      var own := ChosenOwn(media, supported, st.pool);
      AllocateOne(media, st, table, same) ==
        if own.pts == [] then Err(CannotAllocate)
        else Append(supported.(pt := own.pts[0]), media.parameters, st.(pool := own.pool))
  {
    var supported := table[FirstMatch(Normalize(media), table, false, same)];
    if media.pt != 0 {
      assert ChosenOwn(media, supported, st.pool) == Choice([media.pt], Without(st.pool, media.pt));
    } else if supported.pt != 0 {
      assert supported.(pt := supported.pt) == supported && st.(pool := st.pool) == st;
    } else if st.pool != [] {
      assert ChosenOwn(media, supported, st.pool) == Choice([st.pool[0]], st.pool[1..]);
    }
  }

  lemma AppendOutcome(codec: Codec, extra: Parameters, st: Allocation)
    ensures var r := Append(codec, extra, st);
      && (r == Err(DuplicatedPayloadType) <==> Taken(st.codecs, codec.pt))
      && (r.Ok? ==>
            var rtx := codec.kind == "video";
            var pts := if rtx then [codec.pt, st.pool[0]] else [codec.pt];
            && (rtx ==> st.pool != []) && r.value.pool == (if rtx then st.pool[1..] else st.pool)
            && |r.value.codecs| == |st.codecs| + |pts| && r.value.codecs[..|st.codecs|] == st.codecs
            && forall k :: 0 <= k < |pts| ==> r.value.codecs[|st.codecs|..][k].pt == pts[k])
  {
  }

  /** One media codec that goes in: it took the chosen payload types. */
  lemma PlacedAsChosen(media: Codec, st: Allocation, table: seq<Codec>, same: ProfileRelation)
    requires TableOk(table) && Consistent(st) && AllocateOne(media, st, table, same).Ok?
    ensures var i := FirstMatch(Normalize(media), table, false, same);
      var st' := AllocateOne(media, st, table, same).value;
      if i == |table| then st' == st
      else
        var c := Chosen(media, table[i], st.pool);
        && st'.pool == c.pool && Unused(st.codecs, c.pts) && |st'.codecs| == |st.codecs| + |c.pts|
        && st'.codecs[..|st.codecs|] == st.codecs
        && forall k :: 0 <= k < |c.pts| ==> st'.codecs[|st.codecs|..][k].pt == c.pts[k]
  {
    var i := FirstMatch(Normalize(media), table, false, same);
    if i < |table| {
      var own := ChosenOwn(media, table[i], st.pool);
      AllocateOneIsAppend(media, st, table, same);
      AppendOutcome(table[i].(pt := own.pts[0]), media.parameters, st.(pool := own.pool));
      OwnLeaves(media, table[i], st);
    }
  }

  /** What is left in the pool is free, and not the payload type just chosen. */
  lemma OwnLeaves(media: Codec, supported: Codec, st: Allocation)
    requires Consistent(st) && !Dynamic(supported.pt)
    ensures var own := ChosenOwn(media, supported, st.pool);
      forall p :: p in own.pool ==> p in st.pool && !Taken(st.codecs, p) && p !in own.pts
  {
    if media.pt != 0 {
      MemberOfWithout(st.pool, media.pt);
    } else if supported.pt == 0 && st.pool != [] {
      assert st.pool == [st.pool[0]] + st.pool[1..];
    }
  }

  lemma DuplicateIsChosen(media: Codec, st: Allocation, table: seq<Codec>, same: ProfileRelation)
    requires AllocateOne(media, st, table, same) == Err(DuplicatedPayloadType)
    ensures var i := FirstMatch(Normalize(media), table, false, same);
      i < |table| && var pts := Chosen(media, table[i], st.pool).pts; pts != [] && Taken(st.codecs, pts[0])
  {
    var i := FirstMatch(Normalize(media), table, false, same);
    AllocateOneIsAppend(media, st, table, same);
    var own := ChosenOwn(media, table[i], st.pool);
    AppendOutcome(table[i].(pt := own.pts[0]), media.parameters, st.(pool := own.pool));
  }

  /** Allocation succeeds if and only if every media codec is valid, the demand is within the pool, and no payload type
      chosen on the way is chosen twice or in use already. */
  lemma {:induction false} AllocateExactly(media: seq<Codec>, st: Allocation, table: seq<Codec>, same: ProfileRelation)
    requires TableOk(table) && Consistent(st)
    ensures Allocate(media, st, table, same).Ok? <==>
      && AllValid(media) && Demand(media, table, same) <= |st.pool|
      && Unused(st.codecs, ChosenPts(media, st.pool, table, same))
  {
    if media != [] {
      var one, rest := AllocateOne(media[0], st, table, same), media[1..];
      var i := FirstMatch(Normalize(media[0]), table, false, same);
      AllocateOneDemand(media[0], st, table, same);
      assert AllValid(media) <==> ValidCapability(media[0]) && AllValid(rest);
      if one.Ok? {
        AllocateOneConsistent(media[0], st, table, same);
        AllocateExactly(rest, one.value, table, same);
        PlacedAsChosen(media[0], st, table, same);
        if i < |table| {
          var c := Chosen(media[0], table[i], st.pool);
          var more := one.value.codecs[|st.codecs|..];
          assert one.value.codecs == st.codecs + more;
          UnusedConcat(st.codecs, more, c.pts, ChosenPts(rest, c.pool, table, same));
        }
      } else if one == Err(DuplicatedPayloadType) {
        DuplicateIsChosen(media[0], st, table, same);
        assert ChosenPts(media, st.pool, table, same)[0] == Chosen(media[0], table[i], st.pool).pts[0];
      }
    }
  }

  /** The router's list exists if and only if every media codec is valid, at most 32 dynamic payload types are
      needed, and no payload type is chosen twice. */
  lemma RouterExactly(media: seq<Codec>, table: seq<Codec>, same: ProfileRelation)
    requires TableOk(table)
    ensures RouterCodecs(media, table, same).Ok? <==>
      && AllValid(media) && Demand(media, table, same) <= 32
      && Distinct(ChosenPts(media, DynamicPayloadTypes(), table, same))
  {
    InitialPool();
    AllocateExactly(media, START, table, same);
  }

  /** In such a list each video codec has exactly one RTX codec: the one right behind it. */
  lemma ExactlyOneRtx(codecs: seq<Codec>, i: nat, j: nat)
    requires RouterShape(codecs)
    requires i < |codecs| && j < |codecs| && !IsRtx(codecs[i]) && codecs[i].kind == "video"
    ensures IsRtx(codecs[j]) && Apt(codecs[j]) == codecs[i].pt <==> j == i + 1
  {
    assert PairedAt(codecs, i) && PairedAt(codecs, j) && PairedAt(codecs, i + 1);
  }

  // ----- What the list says of each media codec

  /** `c` is the supported codec `t` with the parameters of the media codec `m` laid over its own, under the requested,
      the fixed or a dynamic payload type. */
  predicate Lists(c: Codec, m: Codec, t: Codec) {
    && c.kind == t.kind && c.mime == t.mime && c.clockRate == t.clockRate
    && c.channels == t.channels && c.feedback == t.feedback
    && c.parameters.Keys == m.parameters.Keys + t.parameters.Keys
    && (forall key :: key in m.parameters ==> c.parameters[key] == m.parameters[key])
    && (forall key :: key in t.parameters && key !in m.parameters ==> c.parameters[key] == t.parameters[key])
    && (if m.pt != 0 then c.pt == m.pt else if t.pt != 0 then c.pt == t.pt else Dynamic(c.pt))
  }

  /** `r` is the RTX codec of `c`. */
  predicate Retransmits(r: Codec, c: Codec) {
    && r.kind == c.kind && r.mime == c.kind + "/rtx" && r.clockRate == c.clockRate
    && r.channels == 0 && r.feedback == []
    && r.parameters == map["apt" := Number(c.pt)] && Dynamic(r.pt)
  }

  /** `g` is what one supported media codec contributes. */
  predicate Places(g: seq<Codec>, m: Codec, t: Codec) {
    && |g| == (if t.kind == "video" then 2 else 1)
    && Lists(g[0], m, t) && (|g| == 2 ==> Retransmits(g[1], g[0]))
  }

  /** The list consists, in order, of the contributions of the supported media codecs. */
  predicate LaidOut(list: seq<Codec>, media: seq<Codec>, table: seq<Codec>, same: ProfileRelation)
    decreases |media|
  {
    if media == [] then list == []
    else
      var i := FirstMatch(Normalize(media[0]), table, false, same);
      if i == |table| then LaidOut(list, media[1..], table, same)
      else
        var n := if table[i].kind == "video" then 2 else 1;
        n <= |list| && Places(list[..n], media[0], table[i]) && LaidOut(list[n..], media[1..], table, same)
  }

  lemma AppendPlaces(own: int, m: Codec, t: Codec, st: Allocation)
    requires if m.pt != 0 then own == m.pt else if t.pt != 0 then own == t.pt else Dynamic(own)
    requires forall p :: p in st.pool ==> Dynamic(p)
    requires Append(t.(pt := own), m.parameters, st).Ok?
    ensures var next := Append(t.(pt := own), m.parameters, st).value.codecs;
      |st.codecs| <= |next| && next[..|st.codecs|] == st.codecs && Places(next[|st.codecs|..], m, t)
  {
  }

  lemma OnePlaces(m: Codec, st: Allocation, table: seq<Codec>, same: ProfileRelation)
    requires TableOk(table) && Consistent(st) && AllocateOne(m, st, table, same).Ok?
    ensures var i := FirstMatch(Normalize(m), table, false, same);
      var next := AllocateOne(m, st, table, same).value.codecs;
      && |st.codecs| <= |next| && next[..|st.codecs|] == st.codecs
      && if i == |table| then next == st.codecs else Places(next[|st.codecs|..], m, table[i])
  {
    var i := FirstMatch(Normalize(m), table, false, same);
    if i < |table| {
      var own := ChosenOwn(m, table[i], st.pool);
      AllocateOneIsAppend(m, st, table, same);
      OwnLeaves(m, table[i], st);
      AppendPlaces(own.pts[0], m, table[i], st.(pool := own.pool));
    }
  }

  lemma {:induction false} AllocateLaysOut(media: seq<Codec>, st: Allocation, table: seq<Codec>, same: ProfileRelation)
    requires TableOk(table) && Consistent(st) && Allocate(media, st, table, same).Ok?
    ensures var list := Allocate(media, st, table, same).value.codecs;
      |st.codecs| <= |list| && list[..|st.codecs|] == st.codecs && LaidOut(list[|st.codecs|..], media, table, same)
  {
    if media != [] {
      var one := AllocateOne(media[0], st, table, same).value;
      AllocateOneConsistent(media[0], st, table, same);
      OnePlaces(media[0], st, table, same);
      AllocateLaysOut(media[1..], one, table, same);
      var list, k, n := Allocate(media, st, table, same).value.codecs, |st.codecs|, |one.codecs| - |st.codecs|;
      assert list[k..][n..] == list[|one.codecs|..];
      assert list[k..][..n] == one.codecs[k..] by {
        assert list[..|one.codecs|][k..] == list[k..][..n];
      }
      assert list[..k] == list[..|one.codecs|][..k];
    }
  }

  /** The router's list is, in order and nothing else: for each supported media codec, audio or video, the codec of the
      table with the media codec's parameters laid over it, and right behind each video codec its RTX codec. */
  lemma RouterListTheorem(media: seq<Codec>, table: seq<Codec>, same: ProfileRelation)
    requires TableOk(table) && RouterCodecs(media, table, same).Ok?
    ensures LaidOut(RouterCodecs(media, table, same).value, media, table, same)
  {
    InitialPool();
    AllocateLaysOut(media, START, table, same);
    assert RouterCodecs(media, table, same).value[0..] == RouterCodecs(media, table, same).value;
  }

  /** `c` lists the media codec `m` by the first supported codec it matches. */
  predicate ListsMatch(c: Codec, m: Codec, table: seq<Codec>, same: ProfileRelation) {
    var i := FirstMatch(Normalize(m), table, false, same);
    i < |table| && Lists(c, m, table[i])
  }

  lemma RtxIsRtx(g: seq<Codec>, m: Codec, t: Codec)
    requires Places(g, m, t)
    ensures |g| == 2 ==> IsRtx(g[1])
  {
    if |g| == 2 {
      assert g[1].mime == "video" + "/rtx";
      assert Lower("video/rtx") == "video/rtx";
    }
  }

  lemma LaidOutSplits(list: seq<Codec>, media: seq<Codec>, table: seq<Codec>, same: ProfileRelation) returns (n: nat)
    requires media != [] && LaidOut(list, media, table, same)
    ensures n <= |list| && LaidOut(list[n..], media[1..], table, same)
    ensures n == 0 <==> FirstMatch(Normalize(media[0]), table, false, same) == |table|
    ensures n > 0 ==> ListsMatch(list[0], media[0], table, same)
    ensures forall p :: 0 < p < n ==> IsRtx(list[p])
  {
    var k := FirstMatch(Normalize(media[0]), table, false, same);
    if k == |table| {
      n := 0;
      assert list[0..] == list;
    } else {
      n := if table[k].kind == "video" then 2 else 1;
      RtxIsRtx(list[..n], media[0], table[k]);
      assert list[..n][0] == list[0] && (n == 2 ==> list[..n][1] == list[1]);
    }
  }

  /** Each media codec with a match in the table is listed ... */
  lemma {:induction false} EachIsListed(list: seq<Codec>, media: seq<Codec>, i: nat, table: seq<Codec>,
                                        same: ProfileRelation) returns (p: nat)
    requires TableOk(table) && LaidOut(list, media, table, same)
    requires i < |media| && FirstMatch(Normalize(media[i]), table, false, same) < |table|
    ensures p < |list| && !IsRtx(list[p]) && ListsMatch(list[p], media[i], table, same)
    decreases |media|
  {
    var n := LaidOutSplits(list, media, table, same);
    if i == 0 {
      p := 0;
    } else {
      p := EachIsListed(list[n..], media[1..], i - 1, table, same);
      p := p + n;
    }
  }

  /** ... and each listed codec that is not RTX lists one. */
  lemma {:induction false} NothingElseListed(list: seq<Codec>, media: seq<Codec>, p: nat, table: seq<Codec>,
                                             same: ProfileRelation) returns (i: nat)
    requires LaidOut(list, media, table, same) && p < |list| && !IsRtx(list[p])
    ensures i < |media| && ListsMatch(list[p], media[i], table, same)
    decreases |media|
  {
    var n := LaidOutSplits(list, media, table, same);
    if p < n {
      i := 0;
    } else {
      i := NothingElseListed(list[n..], media[1..], p - n, table, same);
      i := i + 1;
    }
  }
}
