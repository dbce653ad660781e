/** `getProducerRtpParametersMapping`: the router payload type of each of a producer's payload types. */
module ProducerMapping {
  import opened Rtp
  import opened RouterCapabilities

  /** The router codec each producer payload type has been matched with. */
  type CapOf = map<int, Codec>

  type Mapping = map<int, int>

  /** The first codec with payload type `pt`, |codecs| when there is none. */
  function FirstWithPt(codecs: seq<Codec>, pt: int): (r: nat)
    ensures r <= |codecs|
    ensures r < |codecs| ==> codecs[r].pt == pt
    ensures forall j :: 0 <= j < r ==> codecs[j].pt != pt
  {
    if codecs == [] || codecs[0].pt == pt then 0 else 1 + FirstWithPt(codecs[1..], pt)
  }

  /** The last RTX codec with that apt, |caps| when there is none: the search does not stop at the first one. */
  function LastRtxFor(caps: seq<Codec>, pt: int): (r: nat)
    ensures r <= |caps|
    ensures r < |caps| ==> IsRtx(caps[r]) && Apt(caps[r]) == pt
    ensures r == |caps| ==> forall j :: 0 <= j < |caps| ==> !(IsRtx(caps[j]) && Apt(caps[j]) == pt)
    ensures forall j :: r < j < |caps| ==> !(IsRtx(caps[j]) && Apt(caps[j]) == pt)
  {
    if caps == [] then 0
    else
      var rest := LastRtxFor(caps[1..], pt);
      if rest < |caps| - 1 then 1 + rest
      else if IsRtx(caps[0]) && Apt(caps[0]) == pt then 0
      else |caps|
  }

  function MapMedia(codecs: seq<Codec>, caps: seq<Codec>, acc: CapOf, same: ProfileRelation): Outcome<CapOf> {
    if codecs == [] then Ok(acc)
    else if IsRtx(codecs[0]) then MapMedia(codecs[1..], caps, acc, same)
    else
      var k := FirstMatch(codecs[0], caps, true, same);
      if k == |caps| then Err(UnsupportedCodec)
      else MapMedia(codecs[1..], caps, acc[codecs[0].pt := caps[k]], same)
  }

  /** The payload type of the capability recorded for `pt`; reading a missing entry gives a default codec. */
  function RecordedPt(acc: CapOf, pt: int): int {
    if pt in acc then acc[pt].pt else DEFAULT_CODEC.pt
  }

  function MapRtxOne(rtx: Codec, all: seq<Codec>, caps: seq<Codec>, acc: CapOf): Outcome<CapOf> {
    var a := FirstWithPt(all, Apt(rtx));
    if a == |all| then Err(MissingMediaCodec)
    else
      var k := LastRtxFor(caps, RecordedPt(acc, all[a].pt));
      if k == |caps| then Err(NoRtxCapability) else Ok(acc[rtx.pt := caps[k]])
  }

  function MapRtx(codecs: seq<Codec>, all: seq<Codec>, caps: seq<Codec>, acc: CapOf): Outcome<CapOf> {
    if codecs == [] then Ok(acc)
    else if !IsRtx(codecs[0]) then MapRtx(codecs[1..], all, caps, acc)
    else
      var acc' :- MapRtxOne(codecs[0], all, caps, acc);
      MapRtx(codecs[1..], all, caps, acc')
  }

  function MapCodecs(codecs: seq<Codec>, caps: seq<Codec>, same: ProfileRelation): Outcome<CapOf> {
    var acc :- MapMedia(codecs, caps, map[], same);
    MapRtx(codecs, codecs, caps, acc)
  }

  function Payloads(acc: CapOf): Mapping {
    map pt | pt in acc :: acc[pt].pt
  }

  function ProducerMappingOf(codecs: seq<Codec>, caps: seq<Codec>, same: ProfileRelation): Outcome<Mapping> {
    var acc :- MapCodecs(codecs, caps, same);
    Ok(Payloads(acc))
  }

  /** The loop over the media codecs. */
  method MatchMediaCodecs(codecs: seq<Codec>, caps: seq<Codec>, same: ProfileRelation) returns (r: Outcome<CapOf>)
    ensures r == MapMedia(codecs, caps, map[], same)
  {
    var capOf: CapOf := map[];
    for i := 0 to |codecs|
      invariant MapMedia(codecs[i..], caps, capOf, same) == MapMedia(codecs, caps, map[], same)
    {
      assert codecs[i..][0] == codecs[i] && codecs[i..][1..] == codecs[i + 1..];
      if !IsRtx(codecs[i]) {
        var k := FindMatch(codecs[i], caps, true, same);
        if k == |caps| {
          return Err(UnsupportedCodec);
        }
        capOf := capOf[codecs[i].pt := caps[k]];
      }
    }
    return Ok(capOf);
  }

  /** The search for the associated media codec: it stops at the first codec with that payload type. */
  method FindByPt(codecs: seq<Codec>, pt: int) returns (r: nat)
    ensures r == FirstWithPt(codecs, pt)
  {
    r := 0;
    while r < |codecs| && codecs[r].pt != pt
      invariant r <= |codecs|
      invariant forall j :: 0 <= j < r ==> codecs[j].pt != pt
    {
      r := r + 1;
    }
  }

  /** The search for the router's RTX codec: it runs to the end of the list. */
  method FindRtxFor(caps: seq<Codec>, pt: int) returns (r: nat)
    ensures r == LastRtxFor(caps, pt)
  {
    r := |caps|;
    for k := 0 to |caps|
      invariant r == |caps| || (r < k && IsRtx(caps[r]) && Apt(caps[r]) == pt)
      invariant forall j :: 0 <= j < k && (r == |caps| || r < j) ==> !(IsRtx(caps[j]) && Apt(caps[j]) == pt)
    {
      if IsRtx(caps[k]) && Apt(caps[k]) == pt {
        r := k;
      }
    }
  }

  /** The loop over the RTX codecs. */
  method MatchRtxCodecs(codecs: seq<Codec>, caps: seq<Codec>, media: CapOf) returns (r: Outcome<CapOf>)
    ensures r == MapRtx(codecs, codecs, caps, media)
  {
    var capOf := media;
    for i := 0 to |codecs|
      invariant MapRtx(codecs[i..], codecs, caps, capOf) == MapRtx(codecs, codecs, caps, media)
    {
      assert codecs[i..][0] == codecs[i] && codecs[i..][1..] == codecs[i + 1..];
      if IsRtx(codecs[i]) {
        var a := FindByPt(codecs, Apt(codecs[i]));
        if a == |codecs| {
          return Err(MissingMediaCodec);
        }
        var k := FindRtxFor(caps, RecordedPt(capOf, codecs[a].pt));
        if k == |caps| {
          return Err(NoRtxCapability);
        }
        capOf := capOf[codecs[i].pt := caps[k]];
      }
    }
    return Ok(capOf);
  }

  method GetProducerRtpParametersMapping(codecs: seq<Codec>, caps: seq<Codec>, same: ProfileRelation)
    returns (r: Outcome<Mapping>)
    ensures r == ProducerMappingOf(codecs, caps, same)
  {
    var media := MatchMediaCodecs(codecs, caps, same);
    if media.Err? {
      return Err(media.error);
    }
    var all := MatchRtxCodecs(codecs, caps, media.value);
    if all.Err? {
      return Err(all.error);
    }
    var capOf := all.value;
    return Ok(map pt | pt in capOf :: capOf[pt].pt);
  }

  // ----- What the mapping says

  /** Position of the router codec a media codec is matched with. */
  ghost predicate MediaEntry(acc: CapOf, codec: Codec, caps: seq<Codec>, same: ProfileRelation) {
    var k := FirstMatch(codec, caps, true, same);
    codec.pt in acc && k < |caps| && acc[codec.pt] == caps[k]
  }

  /** The media pass succeeds exactly when every media codec is matched, and records each match. */
  lemma {:induction false} MapMediaMeaning(codecs: seq<Codec>, caps: seq<Codec>, acc: CapOf, same: ProfileRelation)
    requires DistinctPts(codecs)
    ensures var r := MapMedia(codecs, caps, acc, same);
      && (r.Ok? <==> forall i :: 0 <= i < |codecs| && !IsRtx(codecs[i]) ==>
          FirstMatch(codecs[i], caps, true, same) < |caps|)
      && (r.Ok? ==>
        && (forall i :: 0 <= i < |codecs| && !IsRtx(codecs[i]) ==> MediaEntry(r.value, codecs[i], caps, same))
        && (forall p :: p in acc && !Taken(codecs, p) ==> p in r.value && r.value[p] == acc[p])
        && (forall p :: p in r.value ==>
              p in acc || exists i :: 0 <= i < |codecs| && !IsRtx(codecs[i]) && codecs[i].pt == p))
  {
    if codecs != [] {
      var rest := codecs[1..];
      assert forall i :: 0 <= i < |rest| ==> rest[i] == codecs[i + 1];
      assert forall i :: 1 <= i < |codecs| ==> codecs[i] == rest[i - 1];
      var k := FirstMatch(codecs[0], caps, true, same);
      if IsRtx(codecs[0]) {
        MapMediaMeaning(rest, caps, acc, same);
      } else if k < |caps| {
        MapMediaMeaning(rest, caps, acc[codecs[0].pt := caps[k]], same);
        assert !Taken(rest, codecs[0].pt);
      }
    }
  }

  /** What the RTX pass keeps: media entries stay, every other entry is an RTX codec of the router. */
  ghost predicate RtxPass(acc: CapOf, acc0: CapOf, all: seq<Codec>, caps: seq<Codec>) {
    && (forall p :: p in acc0 ==> p in acc && acc[p] == acc0[p])
    && (forall p :: p in acc && p !in acc0 ==> IsRtx(acc[p]) && acc[p] in caps && Taken(all, p))
  }

  /** The media entries: one for each media codec of the producer, none for its RTX codecs. */
  ghost predicate MediaEntries(acc0: CapOf, all: seq<Codec>, caps: seq<Codec>) {
    && (forall i :: 0 <= i < |all| ==> (all[i].pt in acc0 <==> !IsRtx(all[i])))
    && (forall p :: p in acc0 ==> !IsRtx(acc0[p]) && acc0[p] in caps)
  }

  /** The apt of `rtx` names a media codec that was matched with a video codec of the router. */
  ghost predicate Served(rtx: Codec, acc0: CapOf) {
    Apt(rtx) in acc0 && acc0[Apt(rtx)].kind == "video"
  }

  ghost predicate RtxEntry(acc: CapOf, rtx: Codec, acc0: CapOf, caps: seq<Codec>) {
    && rtx.pt in acc && acc[rtx.pt] in caps && IsRtx(acc[rtx.pt])
    && Apt(rtx) in acc0 && Apt(acc[rtx.pt]) == acc0[Apt(rtx)].pt
  }

  /** Whom an apt of the router's list names: the video codec right before. */
  lemma RtxNames(caps: seq<Codec>, j: nat, k: nat)
    requires RouterShape(caps) && j < |caps| && k < |caps| && IsRtx(caps[j]) && Apt(caps[j]) == caps[k].pt
    ensures j == k + 1 && !IsRtx(caps[k]) && caps[k].kind == "video"
  {
    assert PairedAt(caps, j);
  }

  lemma VideoIsNamed(caps: seq<Codec>, k: nat)
    requires RouterShape(caps) && k < |caps| && !IsRtx(caps[k]) && caps[k].kind == "video"
    ensures k + 1 < |caps| && IsRtx(caps[k + 1]) && Apt(caps[k + 1]) == caps[k].pt
  {
    assert PairedAt(caps, k) && PairedAt(caps, k + 1);
  }

  /** In a router's list only video media codecs are named by an apt. */
  lemma WhoHasRtx(caps: seq<Codec>, k: nat)
    requires RouterShape(caps) && k < |caps|
    ensures LastRtxFor(caps, caps[k].pt) < |caps| <==> !IsRtx(caps[k]) && caps[k].kind == "video"
  {
    var j := LastRtxFor(caps, caps[k].pt);
    if j < |caps| {
      RtxNames(caps, j, k);
    }
    if !IsRtx(caps[k]) && caps[k].kind == "video" {
      VideoIsNamed(caps, k);
    }
  }

  lemma NoRtxForZero(caps: seq<Codec>)
    requires RouterShape(caps)
    ensures LastRtxFor(caps, 0) == |caps|
  {
    var j := LastRtxFor(caps, 0);
    assert j < |caps| ==> PairedAt(caps, j);
  }

  lemma MapRtxOneMeaning(rtx: Codec, all: seq<Codec>, caps: seq<Codec>, acc: CapOf, acc0: CapOf)
    requires RouterShape(caps) && MediaEntries(acc0, all, caps) && RtxPass(acc, acc0, all, caps)
    requires forall p :: p in acc0 ==> Taken(all, p)
    requires IsRtx(rtx) && rtx in all
    ensures var r := MapRtxOne(rtx, all, caps, acc);
      && (r.Ok? <==> Served(rtx, acc0))
      && (r.Ok? ==> RtxPass(r.value, acc0, all, caps) && RtxEntry(r.value, rtx, acc0, caps) &&
                    r.value == acc[rtx.pt := r.value[rtx.pt]])
  {
    var a := FirstWithPt(all, Apt(rtx));
    if a < |all| {
      var pt := RecordedPt(acc, all[a].pt);
      if all[a].pt in acc {
        var k :| 0 <= k < |caps| && caps[k] == acc[all[a].pt];
        WhoHasRtx(caps, k);
      } else {
        NoRtxForZero(caps);
      }
      var i :| 0 <= i < |all| && all[i] == rtx;
      assert rtx.pt !in acc0;
      assert Taken(all, rtx.pt);
    }
  }

  lemma MapRtxStep(i: nat, all: seq<Codec>, caps: seq<Codec>, acc: CapOf)
    requires i < |all|
    ensures var rest := all[i + 1..];
      MapRtx(all[i..], all, caps, acc) ==
      if !IsRtx(all[i]) then MapRtx(rest, all, caps, acc)
      else if MapRtxOne(all[i], all, caps, acc).Err? then MapRtxOne(all[i], all, caps, acc)
      else MapRtx(rest, all, caps, MapRtxOne(all[i], all, caps, acc).value)
  {
    assert all[i..][0] == all[i] && all[i..][1..] == all[i + 1..];
  }

  lemma MapRtxEnd(all: seq<Codec>, caps: seq<Codec>, acc: CapOf)
    ensures MapRtx(all[|all|..], all, caps, acc) == Ok(acc)
  {
  }

  /** Every RTX codec from position i on is served. */
  ghost predicate AllServed(i: nat, all: seq<Codec>, acc0: CapOf) {
    forall j :: i <= j < |all| && IsRtx(all[j]) ==> Served(all[j], acc0)
  }

  /** `m` is `acc` with an entry for each RTX codec from position i on; the earlier codecs keep theirs. */
  ghost predicate RtxFrom(m: CapOf, i: nat, all: seq<Codec>, caps: seq<Codec>, acc: CapOf, acc0: CapOf) {
    && RtxPass(m, acc0, all, caps)
    && (forall j :: i <= j < |all| && IsRtx(all[j]) ==> RtxEntry(m, all[j], acc0, caps))
    && (forall j :: 0 <= j < i && j < |all| && all[j].pt in acc ==>
          all[j].pt in m && m[all[j].pt] == acc[all[j].pt])
  }

  lemma RtxFromNext(m: CapOf, i: nat, all: seq<Codec>, caps: seq<Codec>, acc: CapOf, one: CapOf, acc0: CapOf)
    requires i < |all| && DistinctPts(all) && IsRtx(all[i]) && RtxEntry(one, all[i], acc0, caps)
    requires one == acc[all[i].pt := one[all[i].pt]] && RtxFrom(m, i + 1, all, caps, one, acc0)
    ensures RtxFrom(m, i, all, caps, acc, acc0)
  {
    assert m[all[i].pt] == one[all[i].pt];
    forall j | 0 <= j < i && all[j].pt in acc
      ensures all[j].pt in m && m[all[j].pt] == acc[all[j].pt]
    {
      assert all[j].pt != all[i].pt && one[all[j].pt] == acc[all[j].pt];
    }
  }

  /** The RTX pass over the producer's codecs from position i on. */
  lemma {:induction false} MapRtxMeaning(i: nat, all: seq<Codec>, caps: seq<Codec>, acc: CapOf, acc0: CapOf)
    requires i <= |all| && DistinctPts(all)
    requires RouterShape(caps) && MediaEntries(acc0, all, caps) && RtxPass(acc, acc0, all, caps)
    requires forall p :: p in acc0 ==> Taken(all, p)
    ensures var r := MapRtx(all[i..], all, caps, acc);
      && (r.Ok? <==> AllServed(i, all, acc0))
      && (r.Ok? ==> RtxFrom(r.value, i, all, caps, acc, acc0))
    decreases |all| - i
  {
    if i == |all| {
      MapRtxEnd(all, caps, acc);
    } else {
      MapRtxStep(i, all, caps, acc);
      if IsRtx(all[i]) {
        MapRtxOneMeaning(all[i], all, caps, acc, acc0);
        var one := MapRtxOne(all[i], all, caps, acc);
        if one.Ok? {
          MapRtxMeaning(i + 1, all, caps, one.value, acc0);
          var r := MapRtx(all[i + 1..], all, caps, one.value);
          if r.Ok? {
            RtxFromNext(r.value, i, all, caps, acc, one.value, acc0);
          }
        }
      } else {
        MapRtxMeaning(i + 1, all, caps, acc, acc0);
      }
    }
  }

  /** When the router can map a producer: each media codec is matched, and each RTX codec's apt names a media codec
      of the producer matched with a video codec. */
  ghost predicate Mappable(codecs: seq<Codec>, caps: seq<Codec>, same: ProfileRelation) {
    forall i :: 0 <= i < |codecs| ==>
      if IsRtx(codecs[i]) then NamesVideo(codecs[i], codecs, caps, same)
      else FirstMatch(codecs[i], caps, true, same) < |caps|
  }

  ghost predicate NamesVideo(rtx: Codec, codecs: seq<Codec>, caps: seq<Codec>, same: ProfileRelation) {
    exists d :: 0 <= d < |codecs| && !IsRtx(codecs[d]) && codecs[d].pt == Apt(rtx) &&
                MatchedWithVideo(codecs[d], caps, same)
  }

  predicate MatchedWithVideo(codec: Codec, caps: seq<Codec>, same: ProfileRelation) {
    var k := FirstMatch(codec, caps, true, same);
    k < |caps| && caps[k].kind == "video"
  }

  /** A router RTX codec with payload type `pt` whose apt is `apt`. */
  ghost predicate RouterRtx(caps: seq<Codec>, pt: int, apt: int) {
    exists k :: 0 <= k < |caps| && IsRtx(caps[k]) && caps[k].pt == pt && Apt(caps[k]) == apt
  }

  /** Total on the producer's payload types, into the router's, and commuting with RTX association. */
  ghost predicate FaithfulMapping(m: Mapping, codecs: seq<Codec>, caps: seq<Codec>, same: ProfileRelation) {
    && (forall p :: p in m <==> Taken(codecs, p))
    && (forall p :: p in m ==> Taken(caps, m[p]))
    && (forall i :: 0 <= i < |codecs| && !IsRtx(codecs[i]) ==>
          FirstMatch(codecs[i], caps, true, same) < |caps| &&
          m[codecs[i].pt] == caps[FirstMatch(codecs[i], caps, true, same)].pt)
    && (forall i :: 0 <= i < |codecs| && IsRtx(codecs[i]) ==>
          Apt(codecs[i]) in m && RouterRtx(caps, m[codecs[i].pt], m[Apt(codecs[i])]))
  }

  lemma MediaPass(codecs: seq<Codec>, caps: seq<Codec>, same: ProfileRelation)
    requires RouterShape(caps) && DistinctPts(codecs)
    ensures var r := MapMedia(codecs, caps, map[], same);
      r.Ok? ==> MediaEntries(r.value, codecs, caps) && forall p :: p in r.value ==> Taken(codecs, p)
  {
    MapMediaMeaning(codecs, caps, map[], same);
    var r := MapMedia(codecs, caps, map[], same);
    if r.Ok? {
      forall p | p in r.value ensures !IsRtx(r.value[p]) && r.value[p] in caps && Taken(codecs, p) {
        var i :| 0 <= i < |codecs| && !IsRtx(codecs[i]) && codecs[i].pt == p;
        assert MediaEntry(r.value, codecs[i], caps, same);
      }
      forall i | 0 <= i < |codecs| ensures codecs[i].pt in r.value <==> !IsRtx(codecs[i]) {
        if !IsRtx(codecs[i]) {
          assert MediaEntry(r.value, codecs[i], caps, same);
        }
      }
    }
  }

  lemma ServedIsMatched(i: nat, codecs: seq<Codec>, caps: seq<Codec>, acc0: CapOf, same: ProfileRelation)
    requires RouterShape(caps) && DistinctPts(codecs) && i < |codecs|
    requires MapMedia(codecs, caps, map[], same) == Ok(acc0)
    ensures Served(codecs[i], acc0) <==> NamesVideo(codecs[i], codecs, caps, same)
  {
    MapMediaMeaning(codecs, caps, map[], same);
    if Served(codecs[i], acc0) {
      var d :| 0 <= d < |codecs| && !IsRtx(codecs[d]) && codecs[d].pt == Apt(codecs[i]);
      assert MediaEntry(acc0, codecs[d], caps, same);
    }
    if d :| 0 <= d < |codecs| && !IsRtx(codecs[d]) && codecs[d].pt == Apt(codecs[i]) &&
            MatchedWithVideo(codecs[d], caps, same) {
      assert MediaEntry(acc0, codecs[d], caps, same);
    }
  }

  lemma FaithfulPayloads(acc: CapOf, acc0: CapOf, codecs: seq<Codec>, caps: seq<Codec>, same: ProfileRelation)
    requires MediaEntries(acc0, codecs, caps) && RtxPass(acc, acc0, codecs, caps)
    requires forall p :: p in acc0 ==> Taken(codecs, p)
    requires forall i :: 0 <= i < |codecs| && !IsRtx(codecs[i]) ==> MediaEntry(acc0, codecs[i], caps, same)
    requires forall i :: 0 <= i < |codecs| && IsRtx(codecs[i]) ==> RtxEntry(acc, codecs[i], acc0, caps)
    ensures FaithfulMapping(Payloads(acc), codecs, caps, same)
  {
    var m := Payloads(acc);
    forall i | 0 <= i < |codecs| ensures codecs[i].pt in m {
      if IsRtx(codecs[i]) {
        assert RtxEntry(acc, codecs[i], acc0, caps);
      } else {
        assert MediaEntry(acc0, codecs[i], caps, same);
      }
    }
    forall p | p in m ensures Taken(caps, m[p]) {
      assert acc[p] in caps;
      var k :| 0 <= k < |caps| && caps[k] == acc[p];
    }
    forall i | 0 <= i < |codecs| && IsRtx(codecs[i])
      ensures Apt(codecs[i]) in m && RouterRtx(caps, m[codecs[i].pt], m[Apt(codecs[i])])
    {
      assert RtxEntry(acc, codecs[i], acc0, caps);
      var k :| 0 <= k < |caps| && caps[k] == acc[codecs[i].pt];
    }
    forall i | 0 <= i < |codecs| && !IsRtx(codecs[i])
      ensures FirstMatch(codecs[i], caps, true, same) < |caps|
      ensures m[codecs[i].pt] == caps[FirstMatch(codecs[i], caps, true, same)].pt
    {
      assert MediaEntry(acc0, codecs[i], caps, same);
    }
  }

  lemma MappableProducers(codecs: seq<Codec>, caps: seq<Codec>, same: ProfileRelation)
    requires RouterShape(caps) && DistinctPts(codecs)
    ensures MapCodecs(codecs, caps, same).Ok? <==> Mappable(codecs, caps, same)
  {
    MapMediaMeaning(codecs, caps, map[], same);
    MediaPass(codecs, caps, same);
    var media := MapMedia(codecs, caps, map[], same);
    if media.Ok? {
      assert codecs[0..] == codecs;
      MapRtxMeaning(0, codecs, caps, media.value, media.value);
      forall i | 0 <= i < |codecs|
        ensures Served(codecs[i], media.value) <==> NamesVideo(codecs[i], codecs, caps, same)
      {
        ServedIsMatched(i, codecs, caps, media.value, same);
      }
    }
  }

  lemma MappingIsFaithful(codecs: seq<Codec>, caps: seq<Codec>, same: ProfileRelation)
    requires RouterShape(caps) && DistinctPts(codecs)
    requires MapCodecs(codecs, caps, same).Ok?
    ensures FaithfulMapping(Payloads(MapCodecs(codecs, caps, same).value), codecs, caps, same)
  {
    MapMediaMeaning(codecs, caps, map[], same);
    MediaPass(codecs, caps, same);
    var acc0 := MapMedia(codecs, caps, map[], same).value;
    assert codecs[0..] == codecs;
    MapRtxMeaning(0, codecs, caps, acc0, acc0);
    FaithfulPayloads(MapRtx(codecs, codecs, caps, acc0).value, acc0, codecs, caps, same);
  }

  /** For a router's list and a producer with distinct payload types: the mapping succeeds exactly for mappable
      producers, and then it is faithful. */
  lemma ProducerMappingTheorem(codecs: seq<Codec>, caps: seq<Codec>, same: ProfileRelation)
    requires RouterShape(caps) && DistinctPts(codecs)
    ensures var r := ProducerMappingOf(codecs, caps, same);
      && (r.Ok? <==> Mappable(codecs, caps, same))
      && (r.Ok? ==> FaithfulMapping(r.value, codecs, caps, same))
  {
    MappableProducers(codecs, caps, same);
    if MapCodecs(codecs, caps, same).Ok? {
      MappingIsFaithful(codecs, caps, same);
    }
  }

  /** Position j, from i on, has the first RTX codec that is not served; the error tells whether its apt names any codec
      of the producer. */
  ghost predicate FailsAt(j: nat, i: nat, all: seq<Codec>, acc0: CapOf, error: Error) {
    && i <= j < |all| && IsRtx(all[j]) && !Served(all[j], acc0)
    && (forall k :: i <= k < j && IsRtx(all[k]) ==> Served(all[k], acc0))
    && error == if Taken(all, Apt(all[j])) then NoRtxCapability else MissingMediaCodec
  }

  lemma FailsEarlier(j: nat, i: nat, all: seq<Codec>, acc0: CapOf, error: Error)
    requires i < |all| && FailsAt(j, i + 1, all, acc0, error) && (IsRtx(all[i]) ==> Served(all[i], acc0))
    ensures FailsAt(j, i, all, acc0, error)
  {
  }

  lemma OneFailure(rtx: Codec, all: seq<Codec>, caps: seq<Codec>, acc: CapOf)
    requires MapRtxOne(rtx, all, caps, acc).Err?
    ensures MapRtxOne(rtx, all, caps, acc).error ==
            if Taken(all, Apt(rtx)) then NoRtxCapability else MissingMediaCodec
  {
  }

  lemma {:induction false} RtxFailure(i: nat, all: seq<Codec>, caps: seq<Codec>, acc: CapOf, acc0: CapOf)
    returns (j: nat)
    requires i <= |all| && DistinctPts(all)
    requires RouterShape(caps) && MediaEntries(acc0, all, caps) && RtxPass(acc, acc0, all, caps)
    requires forall p :: p in acc0 ==> Taken(all, p)
    requires MapRtx(all[i..], all, caps, acc).Err?
    ensures FailsAt(j, i, all, acc0, MapRtx(all[i..], all, caps, acc).error)
    decreases |all| - i
  {
    j := i;
    if i < |all| {
      MapRtxStep(i, all, caps, acc);
      if IsRtx(all[i]) {
        MapRtxOneMeaning(all[i], all, caps, acc, acc0);
        var one := MapRtxOne(all[i], all, caps, acc);
        if one.Ok? {
          j := RtxFailure(i + 1, all, caps, one.value, acc0);
          FailsEarlier(j, i, all, acc0, MapRtx(all[i + 1..], all, caps, one.value).error);
        } else {
          OneFailure(all[i], all, caps, acc);
        }
      } else {
        j := RtxFailure(i + 1, all, caps, acc, acc0);
        FailsEarlier(j, i, all, acc0, MapRtx(all[i + 1..], all, caps, acc).error);
      }
    } else {
      MapRtxEnd(all, caps, acc);
    }
  }

  /** Position j has the first RTX codec whose apt names no media codec matched with a video codec; the error tells
      whether it names any codec of the producer. */
  ghost predicate Blames(error: Error, j: nat, codecs: seq<Codec>, caps: seq<Codec>, same: ProfileRelation) {
    && j < |codecs| && IsRtx(codecs[j]) && !NamesVideo(codecs[j], codecs, caps, same)
    && (forall k :: 0 <= k < j && IsRtx(codecs[k]) ==> NamesVideo(codecs[k], codecs, caps, same))
    && error == if Taken(codecs, Apt(codecs[j])) then NoRtxCapability else MissingMediaCodec
  }

  /** Which error: a media codec without a match comes first; otherwise it is the first RTX codec that names no media
      codec matched with a video codec. */
  lemma MappingErrors(codecs: seq<Codec>, caps: seq<Codec>, same: ProfileRelation)
    requires RouterShape(caps) && DistinctPts(codecs) && ProducerMappingOf(codecs, caps, same).Err?
    ensures var error := ProducerMappingOf(codecs, caps, same).error;
      if exists i :: 0 <= i < |codecs| && !IsRtx(codecs[i]) && FirstMatch(codecs[i], caps, true, same) == |caps|
      then error == UnsupportedCodec
      else exists j: nat :: Blames(error, j, codecs, caps, same)
  {
    MapMediaMeaning(codecs, caps, map[], same);
    MapMediaError(codecs, caps, map[], same);
    var media := MapMedia(codecs, caps, map[], same);
    if media.Ok? {
      var j := BlamedRtx(codecs, caps, media.value, same);
    }
  }

  lemma BlamedRtx(codecs: seq<Codec>, caps: seq<Codec>, acc0: CapOf, same: ProfileRelation) returns (j: nat)
    requires RouterShape(caps) && DistinctPts(codecs)
    requires MapMedia(codecs, caps, map[], same) == Ok(acc0) && MapRtx(codecs, codecs, caps, acc0).Err?
    ensures Blames(MapRtx(codecs, codecs, caps, acc0).error, j, codecs, caps, same)
  {
    MapMediaMeaning(codecs, caps, map[], same);
    MediaPass(codecs, caps, same);
    assert codecs[0..] == codecs;
    j := RtxFailure(0, codecs, caps, acc0, acc0);
    forall k | 0 <= k < |codecs|
      ensures Served(codecs[k], acc0) <==> NamesVideo(codecs[k], codecs, caps, same)
    {
      ServedIsMatched(k, codecs, caps, acc0, same);
    }
  }

  lemma {:induction false} MapMediaError(codecs: seq<Codec>, caps: seq<Codec>, acc: CapOf, same: ProfileRelation)
    ensures var r := MapMedia(codecs, caps, acc, same); r.Err? ==> r.error == UnsupportedCodec
  {
    if codecs != [] {
      var k := FirstMatch(codecs[0], caps, true, same);
      if IsRtx(codecs[0]) {
        MapMediaError(codecs[1..], caps, acc, same);
      } else if k < |caps| {
        MapMediaError(codecs[1..], caps, acc[codecs[0].pt := caps[k]], same);
      }
    }
  }

  /** An apt that names another RTX codec of the producer, or the codec itself, is always rejected. */
  lemma AptOfRtxRejected(codecs: seq<Codec>, caps: seq<Codec>, same: ProfileRelation, i: nat, j: nat)
    requires RouterShape(caps) && DistinctPts(codecs)
    requires i < |codecs| && j < |codecs| && IsRtx(codecs[i]) && IsRtx(codecs[j]) && codecs[j].pt == Apt(codecs[i])
    ensures ProducerMappingOf(codecs, caps, same).Err?
  {
    ProducerMappingTheorem(codecs, caps, same);
  }
}
