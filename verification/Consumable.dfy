/** `getConsumableRtpParameters`: the producer's codecs in the router's terms, each with the router's RTX codec. */
module Consumable {
  import opened Rtp
  import opened RouterCapabilities
  import opened ProducerMapping
  import opened Sequences

  function FirstRtxFor(caps: seq<Codec>, pt: int): (r: nat)
    ensures r <= |caps|
    ensures r < |caps| ==> IsRtx(caps[r]) && Apt(caps[r]) == pt
    ensures forall j :: 0 <= j < r ==> !(IsRtx(caps[j]) && Apt(caps[j]) == pt)
  {
    if caps == [] || (IsRtx(caps[0]) && Apt(caps[0]) == pt) then 0 else 1 + FirstRtxFor(caps[1..], pt)
  }

  /** The router codec's identity with the producer's parameters. */
  function MediaOf(codec: Codec, cap: Codec): Codec {
    Codec("", cap.mime, cap.pt, cap.clockRate, cap.channels, codec.parameters, cap.feedback)
  }

  function RtxOf(cap: Codec): Codec {
    Codec("", cap.mime, cap.pt, cap.clockRate, 0, cap.parameters, cap.feedback)
  }

  function CapWithPt(caps: seq<Codec>, pt: int): Codec {
    var k := FirstWithPt(caps, pt);
    if k < |caps| then caps[k] else DEFAULT_CODEC
  }

  function MappedPt(mapping: Mapping, pt: int): int {
    if pt in mapping then mapping[pt] else 0
  }

  /** What one media codec contributes. */
  function Group(codec: Codec, caps: seq<Codec>, mapping: Mapping): seq<Codec> {
    var media := MediaOf(codec, CapWithPt(caps, MappedPt(mapping, codec.pt)));
    var j := FirstRtxFor(caps, media.pt);
    [media] + if j < |caps| then [RtxOf(caps[j])] else []
  }

  /** What `codec` contributes to the list. */
  function Contribution(codec: Codec, caps: seq<Codec>, mapping: Mapping): seq<Codec> {
    if IsRtx(codec) then [] else Group(codec, caps, mapping)
  }

  function ConsumableOf(codecs: seq<Codec>, caps: seq<Codec>, mapping: Mapping): seq<Codec> {
    if codecs == [] then []
    else Contribution(codecs[0], caps, mapping) + ConsumableOf(codecs[1..], caps, mapping)
  }

  lemma {:induction false} ConsumableSnoc(codecs: seq<Codec>, codec: Codec, caps: seq<Codec>, mapping: Mapping)
    ensures ConsumableOf(codecs + [codec], caps, mapping) ==
            ConsumableOf(codecs, caps, mapping) + Contribution(codec, caps, mapping)
  {
    var all, last := codecs + [codec], Contribution(codec, caps, mapping);
    if codecs == [] {
      assert all[1..] == [];
      assert ConsumableOf(all, caps, mapping) == last;
    } else {
      var first, rest := Contribution(codecs[0], caps, mapping), ConsumableOf(codecs[1..], caps, mapping);
      assert all[0] == codecs[0] && all[1..] == codecs[1..] + [codec];
      ConsumableSnoc(codecs[1..], codec, caps, mapping);
      Associates(first, rest, last);
    }
  }

  method FindFirstRtx(caps: seq<Codec>, pt: int) returns (r: nat)
    ensures r == FirstRtxFor(caps, pt)
  {
    r := 0;
    while r < |caps| && !(IsRtx(caps[r]) && Apt(caps[r]) == pt)
      invariant r <= |caps|
      invariant forall l :: 0 <= l < r ==> !(IsRtx(caps[l]) && Apt(caps[l]) == pt)
    {
      r := r + 1;
    }
  }

  /** The body of the loop, for a media codec. */
  method AppendGroup(list: seq<Codec>, codec: Codec, caps: seq<Codec>, mapping: Mapping) returns (r: seq<Codec>)
    ensures r == list + Group(codec, caps, mapping)
  {
    var k := FindByPt(caps, MappedPt(mapping, codec.pt));
    var media := MediaOf(codec, if k < |caps| then caps[k] else DEFAULT_CODEC);
    r := list + [media];
    var j := FindFirstRtx(caps, media.pt);
    if j < |caps| {
      r := r + [RtxOf(caps[j])];
    }
  }

  method GetConsumableRtpParameters(codecs: seq<Codec>, caps: seq<Codec>, mapping: Mapping) returns (r: seq<Codec>)
    ensures r == ConsumableOf(codecs, caps, mapping)
  {
    r := [];
    for i := 0 to |codecs|
      invariant r == ConsumableOf(codecs[..i], caps, mapping)
    {
      ConsumableSnoc(codecs[..i], codecs[i], caps, mapping);
      assert codecs[..i + 1] == codecs[..i] + [codecs[i]];
      if !IsRtx(codecs[i]) {
        r := AppendGroup(r, codecs[i], caps, mapping);
      }
    }
    assert codecs[..|codecs|] == codecs;
  }

  // ----- The shape of the consumable codecs

  /** A media codec of the list: a producer codec in the terms of the router codec it was matched with. */
  ghost predicate MediaOrigin(c: Codec, codecs: seq<Codec>, caps: seq<Codec>, same: ProfileRelation) {
    exists d :: 0 <= d < |codecs| && !IsRtx(codecs[d]) && ComesFrom(c, codecs[d], caps, same)
  }

  predicate ComesFrom(c: Codec, codec: Codec, caps: seq<Codec>, same: ProfileRelation) {
    var k := FirstMatch(codec, caps, true, same);
    k < |caps| && c == MediaOf(codec, caps[k])
  }

  ghost predicate RtxOrigin(c: Codec, caps: seq<Codec>) {
    exists k :: 0 <= k < |caps| && IsRtx(caps[k]) && c == RtxOf(caps[k])
  }

  /** At position i: an RTX codec directly follows the media codec its apt names. */
  predicate FollowsMedia(list: seq<Codec>, i: nat)
    requires i < |list|
  {
    IsRtx(list[i]) ==> i > 0 && !IsRtx(list[i - 1]) && Apt(list[i]) == list[i - 1].pt
  }

  predicate Grouped(list: seq<Codec>) {
    forall i :: 0 <= i < |list| ==> FollowsMedia(list, i)
  }

  ghost predicate ConsumableShape(list: seq<Codec>, codecs: seq<Codec>, caps: seq<Codec>, same: ProfileRelation) {
    && Grouped(list)
    && forall i :: 0 <= i < |list| ==> Origin(list[i], codecs, caps, same)
  }

  /** The mapping agrees with the matching on every media codec of `codecs`. */
  ghost predicate MapsMatches(codecs: seq<Codec>, caps: seq<Codec>, mapping: Mapping, same: ProfileRelation) {
    forall i :: 0 <= i < |codecs| && !IsRtx(codecs[i]) ==>
      FirstMatch(codecs[i], caps, true, same) < |caps| && codecs[i].pt in mapping &&
      mapping[codecs[i].pt] == caps[FirstMatch(codecs[i], caps, true, same)].pt
  }

  lemma GroupShape(codec: Codec, caps: seq<Codec>, mapping: Mapping, same: ProfileRelation)
    requires RouterShape(caps) && !IsRtx(codec) && MapsMatches([codec], caps, mapping, same)
    ensures var g := Group(codec, caps, mapping);
      && !IsRtx(g[0]) && ComesFrom(g[0], codec, caps, same) && g[0].pt == mapping[codec.pt]
      && (|g| == 2 ==> IsRtx(g[1]) && RtxOrigin(g[1], caps) && Apt(g[1]) == g[0].pt)
  {
    assert [codec][0] == codec;
    var k := FirstMatch(codec, caps, true, same);
    assert FirstWithPt(caps, mapping[codec.pt]) == k;
    var j := FirstRtxFor(caps, caps[k].pt);
    if j < |caps| {
      assert RtxOrigin(RtxOf(caps[j]), caps);
    }
  }

  lemma PrependGroup(g: seq<Codec>, tail: seq<Codec>)
    requires |g| == 1 || |g| == 2
    requires !IsRtx(g[0]) && (|g| == 2 ==> IsRtx(g[1]) && Apt(g[1]) == g[0].pt)
    requires Grouped(tail)
    ensures Grouped(g + tail)
  {
    var list := g + tail;
    forall i | 0 <= i < |list| ensures FollowsMedia(list, i) {
      if i >= |g| {
        assert FollowsMedia(tail, i - |g|);
        assert list[i] == tail[i - |g|];
      }
    }
  }

  lemma {:induction false} ConsumableGrouped(codecs: seq<Codec>, caps: seq<Codec>, mapping: Mapping,
                                             same: ProfileRelation)
    requires RouterShape(caps) && MapsMatches(codecs, caps, mapping, same)
    ensures Grouped(ConsumableOf(codecs, caps, mapping))
  {
    if codecs != [] {
      assert forall i :: 0 <= i < |codecs[1..]| ==> codecs[1..][i] == codecs[i + 1];
      ConsumableGrouped(codecs[1..], caps, mapping, same);
      if !IsRtx(codecs[0]) {
        GroupShape(codecs[0], caps, mapping, same);
        PrependGroup(Group(codecs[0], caps, mapping), ConsumableOf(codecs[1..], caps, mapping));
      } else {
        assert ConsumableOf(codecs, caps, mapping) == ConsumableOf(codecs[1..], caps, mapping);
      }
    }
  }

  ghost predicate Origin(c: Codec, codecs: seq<Codec>, caps: seq<Codec>, same: ProfileRelation) {
    if IsRtx(c) then RtxOrigin(c, caps) else MediaOrigin(c, codecs, caps, same)
  }

  lemma OriginInLonger(c: Codec, codecs: seq<Codec>, caps: seq<Codec>, same: ProfileRelation)
    requires codecs != [] && Origin(c, codecs[1..], caps, same)
    ensures Origin(c, codecs, caps, same)
  {
    if !IsRtx(c) {
      var d :| 0 <= d < |codecs[1..]| && !IsRtx(codecs[1..][d]) && ComesFrom(c, codecs[1..][d], caps, same);
      assert codecs[d + 1] == codecs[1..][d];
    }
  }

  lemma {:induction false} ConsumableOrigins(codecs: seq<Codec>, caps: seq<Codec>, mapping: Mapping,
                                             same: ProfileRelation)
    requires RouterShape(caps) && MapsMatches(codecs, caps, mapping, same)
    ensures forall c :: c in ConsumableOf(codecs, caps, mapping) ==> Origin(c, codecs, caps, same)
  {
    if codecs != [] {
      var tail := ConsumableOf(codecs[1..], caps, mapping);
      assert forall i :: 0 <= i < |codecs[1..]| ==> codecs[1..][i] == codecs[i + 1];
      ConsumableOrigins(codecs[1..], caps, mapping, same);
      if !IsRtx(codecs[0]) {
        GroupShape(codecs[0], caps, mapping, same);
      }
      forall c | c in ConsumableOf(codecs, caps, mapping) ensures Origin(c, codecs, caps, same) {
        if c in tail {
          OriginInLonger(c, codecs, caps, same);
        }
      }
    }
  }

  /** Consumable lists built from a router's list through a faithful mapping are grouped, and every codec in them
      comes from the router. */
  lemma ConsumableShaped(codecs: seq<Codec>, caps: seq<Codec>, mapping: Mapping, same: ProfileRelation)
    requires RouterShape(caps) && MapsMatches(codecs, caps, mapping, same)
    ensures ConsumableShape(ConsumableOf(codecs, caps, mapping), codecs, caps, same)
  {
    ConsumableGrouped(codecs, caps, mapping, same);
    ConsumableOrigins(codecs, caps, mapping, same);
    var list := ConsumableOf(codecs, caps, mapping);
    forall i | 0 <= i < |list| ensures Origin(list[i], codecs, caps, same) {
      assert list[i] in list;
    }
  }

  /** No media codec has the payload type of an RTX codec. */
  predicate RtxApart(list: seq<Codec>) {
    forall i, j :: 0 <= i < |list| && 0 <= j < |list| && IsRtx(list[i]) && !IsRtx(list[j]) ==> list[i].pt != list[j].pt
  }

  lemma ShapeIsApart(list: seq<Codec>, codecs: seq<Codec>, caps: seq<Codec>, same: ProfileRelation)
    requires RouterShape(caps) && ConsumableShape(list, codecs, caps, same)
    ensures RtxApart(list)
  {
    forall i, j | 0 <= i < |list| && 0 <= j < |list| && IsRtx(list[i]) && !IsRtx(list[j])
      ensures list[i].pt != list[j].pt
    {
      assert Origin(list[i], codecs, caps, same) && Origin(list[j], codecs, caps, same);
      var k :| 0 <= k < |caps| && IsRtx(caps[k]) && list[i] == RtxOf(caps[k]);
      var d :| 0 <= d < |codecs| && !IsRtx(codecs[d]) && ComesFrom(list[j], codecs[d], caps, same);
      var l := FirstMatch(codecs[d], caps, true, same);
      assert !IsRtx(caps[l]);
    }
  }

  /** The producer's media codecs are mapped to distinct router codecs. */
  predicate DistinctlyMapped(codecs: seq<Codec>, mapping: Mapping) {
    forall i, j :: 0 <= i < j < |codecs| && !IsRtx(codecs[i]) && !IsRtx(codecs[j]) ==>
      MappedPt(mapping, codecs[i].pt) != MappedPt(mapping, codecs[j].pt)
  }

  predicate MediaDistinct(list: seq<Codec>) {
    forall i, j :: 0 <= i < j < |list| && !IsRtx(list[i]) && !IsRtx(list[j]) ==> list[i].pt != list[j].pt
  }

  lemma PrependDistinct(g: seq<Codec>, tail: seq<Codec>)
    requires |g| == 1 || (|g| == 2 && IsRtx(g[1]))
    requires MediaDistinct(tail)
    requires forall c :: c in tail && !IsRtx(c) ==> c.pt != g[0].pt
    ensures MediaDistinct(g + tail)
  {
    var list := g + tail;
    assert forall i :: |g| <= i < |list| ==> list[i] == tail[i - |g|] && list[i] in tail;
  }

  /** The payload type of a consumable media codec is the mapped payload type of some media codec. */
  lemma ConsumablePt(c: Codec, codecs: seq<Codec>, caps: seq<Codec>, mapping: Mapping, same: ProfileRelation)
    requires MapsMatches(codecs, caps, mapping, same) && !IsRtx(c) && Origin(c, codecs, caps, same)
    ensures exists d :: 0 <= d < |codecs| && !IsRtx(codecs[d]) && c.pt == MappedPt(mapping, codecs[d].pt)
  {
  }

  lemma {:induction false} DistinctMappingGivesDistinctMedia(
      codecs: seq<Codec>, caps: seq<Codec>, mapping: Mapping, same: ProfileRelation)
    requires RouterShape(caps) && MapsMatches(codecs, caps, mapping, same) && DistinctlyMapped(codecs, mapping)
    ensures MediaDistinct(ConsumableOf(codecs, caps, mapping))
  {
    if codecs != [] {
      var rest := codecs[1..];
      var tail := ConsumableOf(rest, caps, mapping);
      assert forall i :: 0 <= i < |rest| ==> rest[i] == codecs[i + 1];
      DistinctMappingGivesDistinctMedia(rest, caps, mapping, same);
      if IsRtx(codecs[0]) {
        assert ConsumableOf(codecs, caps, mapping) == tail;
      } else {
        GroupShape(codecs[0], caps, mapping, same);
        ConsumableOrigins(rest, caps, mapping, same);
        var g := Group(codecs[0], caps, mapping);
        forall c | c in tail && !IsRtx(c) ensures c.pt != g[0].pt {
          ConsumablePt(c, rest, caps, mapping, same);
        }
        PrependDistinct(g, tail);
      }
    }
  }

  // ----- What the list says of each producer codec

  /** `c` is the router codec `cap` with the producer codec's parameters. */
  predicate Restates(c: Codec, codec: Codec, cap: Codec) {
    && c.kind == "" && c.mime == cap.mime && c.pt == cap.pt && c.clockRate == cap.clockRate
    && c.channels == cap.channels && c.feedback == cap.feedback && c.parameters == codec.parameters
  }

  /** `c` is the router's RTX codec `cap`. */
  predicate RestatesRtx(c: Codec, cap: Codec) {
    && c.kind == "" && c.mime == cap.mime && c.pt == cap.pt && c.clockRate == cap.clockRate
    && c.channels == 0 && c.feedback == cap.feedback && c.parameters == cap.parameters
  }

  /** The list consists, in order, of each media codec of the producer in the terms of its router codec, and right
      behind it, if that is video, of the router's RTX codec for it. */
  predicate Restated(list: seq<Codec>, codecs: seq<Codec>, caps: seq<Codec>, same: ProfileRelation)
    decreases |codecs|
  {
    if codecs == [] then list == []
    else if IsRtx(codecs[0]) then Restated(list, codecs[1..], caps, same)
    else
      var k := FirstMatch(codecs[0], caps, true, same);
      k < |caps| &&
      var n := if caps[k].kind == "video" then 2 else 1;
      && n <= |list| && Restates(list[0], codecs[0], caps[k])
      && (n == 2 ==> k + 1 < |caps| && RestatesRtx(list[1], caps[k + 1]))
      && Restated(list[n..], codecs[1..], caps, same)
  }

  lemma RtxOfRouter(caps: seq<Codec>, k: nat)
    requires RouterShape(caps) && k < |caps| && !IsRtx(caps[k])
    ensures FirstRtxFor(caps, caps[k].pt) == if caps[k].kind == "video" then k + 1 else |caps|
  {
    var j := FirstRtxFor(caps, caps[k].pt);
    if j < |caps| {
      RtxNames(caps, j, k);
    }
    if caps[k].kind == "video" {
      VideoIsNamed(caps, k);
    }
  }

  lemma GroupRestates(codec: Codec, caps: seq<Codec>, mapping: Mapping, same: ProfileRelation)
    requires RouterShape(caps) && !IsRtx(codec) && MapsMatches([codec], caps, mapping, same)
    ensures var g, k := Group(codec, caps, mapping), FirstMatch(codec, caps, true, same);
      && k < |caps| && |g| == (if caps[k].kind == "video" then 2 else 1) && Restates(g[0], codec, caps[k])
      && (|g| == 2 ==> k + 1 < |caps| && RestatesRtx(g[1], caps[k + 1]))
  {
    assert [codec][0] == codec;
    var k := FirstMatch(codec, caps, true, same);
    assert FirstWithPt(caps, mapping[codec.pt]) == k;
    RtxOfRouter(caps, k);
    assert PairedAt(caps, k);
  }

  /** Field by field and in order, what a producer's consumable codecs are. */
  lemma {:induction false} ConsumableRestated(codecs: seq<Codec>, caps: seq<Codec>, mapping: Mapping,
                                              same: ProfileRelation)
    requires RouterShape(caps) && MapsMatches(codecs, caps, mapping, same)
    ensures Restated(ConsumableOf(codecs, caps, mapping), codecs, caps, same)
  {
    if codecs != [] {
      var list, tail := ConsumableOf(codecs, caps, mapping), ConsumableOf(codecs[1..], caps, mapping);
      assert forall i :: 0 <= i < |codecs[1..]| ==> codecs[1..][i] == codecs[i + 1];
      ConsumableRestated(codecs[1..], caps, mapping, same);
      if IsRtx(codecs[0]) {
        assert list == tail;
      } else {
        GroupRestates(codecs[0], caps, mapping, same);
        var g := Group(codecs[0], caps, mapping);
        assert list == g + tail && list[|g|..] == tail;
      }
    }
  }

  /** The counterpart of a given media codec of the producer. */
  lemma {:induction false} Counterpart(list: seq<Codec>, codecs: seq<Codec>, d: nat, caps: seq<Codec>,
                                       same: ProfileRelation) returns (p: nat)
    requires Restated(list, codecs, caps, same) && d < |codecs| && !IsRtx(codecs[d])
    ensures var k := FirstMatch(codecs[d], caps, true, same);
      k < |caps| && p < |list| && Restates(list[p], codecs[d], caps[k])
    decreases |codecs|
  {
    if d == 0 {
      p := 0;
    } else if IsRtx(codecs[0]) {
      p := Counterpart(list, codecs[1..], d - 1, caps, same);
    } else {
      var n := if caps[FirstMatch(codecs[0], caps, true, same)].kind == "video" then 2 else 1;
      p := Counterpart(list[n..], codecs[1..], d - 1, caps, same);
      p := p + n;
    }
  }
}
