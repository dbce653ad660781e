/** The four negotiation stages together. */
module Negotiation {
  import opened Rtp
  import opened RouterCapabilities
  import opened ProducerMapping
  import opened Consumable
  import opened FeedbackReduction
  import opened Consumer

  function ConsumableFor(media: seq<Codec>, table: seq<Codec>, producer: seq<Codec>, same: ProfileRelation)
    : Outcome<seq<Codec>>
  {
    var caps :- RouterCodecs(media, table, same);
    var mapping :- ProducerMappingOf(producer, caps, same);
    Ok(ConsumableOf(producer, caps, mapping))
  }

  /** Media codecs with one payload type are accepted or refused together. */
  predicate Alike(list: seq<Codec>, caps: seq<Codec>, same: ProfileRelation) {
    forall i, j ::
      0 <= i < |list| && 0 <= j < |list| && !IsRtx(list[i]) && !IsRtx(list[j]) && list[i].pt == list[j].pt ==>
      Accepts(list[i], caps, same) == Accepts(list[j], caps, same)
  }

  predicate SomeMediaAccepted(list: seq<Codec>, caps: seq<Codec>, same: ProfileRelation) {
    exists i :: 0 <= i < |list| && !IsRtx(list[i]) && Accepts(list[i], caps, same)
  }

  predicate SomeRtx(list: seq<Codec>) {
    exists i :: 0 <= i < |list| && IsRtx(list[i])
  }

  /** Every RTX codec names a media codec of the same list, and the list starts with a media codec. */
  predicate RtxResolved(list: seq<Codec>) {
    && list != [] && !IsRtx(list[0])
    && forall i :: 0 <= i < |list| && IsRtx(list[i]) ==>
         exists m :: 0 <= m < |list| && !IsRtx(list[m]) && list[m].pt == Apt(list[i])
  }

  // ----- From consumable codecs to the sanitised list

  lemma MatchedAptsNameMedia(list: seq<Codec>, caps: seq<Codec>, same: ProfileRelation)
    requires Grouped(list) && RtxApart(list)
    ensures AptsNameMedia(Matched(list, caps, same))
  {
    var matched := Matched(list, caps, same);
    forall i, j | 0 <= i < |matched| && 0 <= j < |matched| && IsRtx(matched[i]) && IsRtx(matched[j])
      ensures Apt(matched[i]) != matched[j].pt
    {
      MatchedIsAccepted(matched[i], list, caps, same);
      MatchedIsAccepted(matched[j], list, caps, same);
      var a :| 0 <= a < |list| && SameIdentity(matched[i], list[a]) && Accepts(list[a], caps, same);
      var b :| 0 <= b < |list| && SameIdentity(matched[j], list[b]) && Accepts(list[b], caps, same);
      assert FollowsMedia(list, a);
    }
  }

  lemma GroupedSnoc(list: seq<Codec>, c: Codec)
    requires Grouped(list)
    requires IsRtx(c) ==> list != [] && !IsRtx(list[|list| - 1]) && Apt(c) == list[|list| - 1].pt
    ensures Grouped(list + [c])
  {
    var all := list + [c];
    forall i | 0 <= i < |all| ensures FollowsMedia(all, i) {
      if i < |list| {
        assert FollowsMedia(list, i);
      }
    }
  }

  /** A kept RTX codec's media codec, the one right before it, was accepted too. */
  lemma KeptHasNeighbour(list: seq<Codec>, n: nat, caps: seq<Codec>, same: ProfileRelation)
    requires Grouped(list) && Alike(list, caps, same)
    requires n < |list| && IsRtx(list[n])
    requires Keeps(list[n], Matched(list, caps, same))
    ensures n > 0 && !IsRtx(list[n - 1]) && Accepts(list[n - 1], caps, same) && Apt(list[n]) == list[n - 1].pt
  {
    assert FollowsMedia(list, n);
    var matched := Matched(list, caps, same);
    var m :| 0 <= m < |matched| && !IsRtx(matched[m]) && matched[m].pt == Apt(list[n]);
    MatchedIsAccepted(matched[m], list, caps, same);
    var a :| 0 <= a < |list| && SameIdentity(matched[m], list[a]) && Accepts(list[a], caps, same);
  }

  /** The list kept of the first n consumable codecs. */
  function KeptOf(list: seq<Codec>, n: nat, caps: seq<Codec>, same: ProfileRelation): seq<Codec>
    requires n <= |list|
  {
    Sanitized(Matched(list[..n], caps, same), Matched(list, caps, same))
  }

  lemma MatchedStep(list: seq<Codec>, n: nat, caps: seq<Codec>, same: ProfileRelation)
    requires n < |list|
    ensures Matched(list[..n + 1], caps, same) == Matched(list[..n], caps, same) + MatchedOne(list[n], caps, same)
  {
    assert list[..n + 1][..n] == list[..n];
  }

  lemma SanitizedSnoc(list: seq<Codec>, c: Codec, ref: seq<Codec>)
    ensures Sanitized(list + [c], ref) == Sanitized(list, ref) + if Keeps(c, ref) then [c] else []
  {
    assert (list + [c])[..|list|] == list;
  }

  lemma SanitizedOne(front: seq<Codec>, c: Codec, ref: seq<Codec>, caps: seq<Codec>, same: ProfileRelation)
    ensures var before := Sanitized(front, ref);
      Sanitized(front + MatchedOne(c, caps, same), ref) ==
        if Accepts(c, caps, same) && Keeps(c, ref) then before + MatchedOne(c, caps, same) else before
  {
    var one := MatchedOne(c, caps, same);
    if Accepts(c, caps, same) {
      assert one == [one[0]] && Keeps(one[0], ref) == Keeps(c, ref);
      SanitizedSnoc(front, one[0], ref);
    } else {
      assert front + one == front;
    }
  }

  lemma KeptStep(list: seq<Codec>, n: nat, caps: seq<Codec>, same: ProfileRelation)
    requires n < |list|
    ensures var before := KeptOf(list, n, caps, same);
      KeptOf(list, n + 1, caps, same) ==
        if Accepts(list[n], caps, same) && Keeps(list[n], Matched(list, caps, same))
        then before + MatchedOne(list[n], caps, same) else before
  {
    MatchedStep(list, n, caps, same);
    SanitizedOne(Matched(list[..n], caps, same), list[n], Matched(list, caps, same), caps, same);
  }

  /** Sanitising keeps the grouping: an RTX codec stays only directly behind its media codec. */
  lemma {:induction false} SanitizedGrouped(list: seq<Codec>, n: nat, caps: seq<Codec>, same: ProfileRelation)
    requires Grouped(list) && Alike(list, caps, same) && n <= |list|
    ensures Grouped(KeptOf(list, n, caps, same)) && EndsWithMedia(list, n, caps, same)
  {
    if n > 0 {
      SanitizedGrouped(list, n - 1, caps, same);
      KeptStep(list, n - 1, caps, same);
      if Accepts(list[n - 1], caps, same) && Keeps(list[n - 1], Matched(list, caps, same)) {
        GroupedStep(list, n - 1, caps, same);
      }
    }
  }

  /** When the n-th consumable codec is an accepted media codec, it is the last one kept so far. */
  predicate EndsWithMedia(list: seq<Codec>, n: nat, caps: seq<Codec>, same: ProfileRelation)
    requires n <= |list|
  {
    n > 0 && !IsRtx(list[n - 1]) && Accepts(list[n - 1], caps, same) ==>
      var kept := KeptOf(list, n, caps, same);
      kept != [] && SameIdentity(kept[|kept| - 1], list[n - 1])
  }

  lemma GroupedStep(list: seq<Codec>, n: nat, caps: seq<Codec>, same: ProfileRelation)
    requires Grouped(list) && Alike(list, caps, same) && n < |list|
    requires Accepts(list[n], caps, same) && Keeps(list[n], Matched(list, caps, same))
    requires Grouped(KeptOf(list, n, caps, same)) && EndsWithMedia(list, n, caps, same)
    ensures Grouped(KeptOf(list, n, caps, same) + MatchedOne(list[n], caps, same))
  {
    var c := MatchedOne(list[n], caps, same)[0];
    if IsRtx(list[n]) {
      KeptHasNeighbour(list, n, caps, same);
    }
    GroupedSnoc(KeptOf(list, n, caps, same), c);
  }

  /** For grouped consumable codecs, the check for compatible media codecs passes exactly when the endpoint accepts
      some media codec. */
  lemma AcceptedIffMedia(list: seq<Codec>, caps: seq<Codec>, same: ProfileRelation)
    requires Grouped(list) && RtxApart(list) && Alike(list, caps, same)
    ensures var matched := Matched(list, caps, same); var kept := Sweep(matched, |matched|).0;
      && (kept != [] && !IsRtx(kept[0]) <==> SomeMediaAccepted(list, caps, same))
      && Grouped(kept)
  {
    var matched := Matched(list, caps, same);
    MatchedAptsNameMedia(list, caps, same);
    SweepIsSanitized(matched);
    assert list[..|list|] == list;
    SanitizedGrouped(list, |list|, caps, same);
    var kept := Sanitized(matched, matched);
    SanitizedMembers(matched, matched);
    if kept != [] && !IsRtx(kept[0]) {
      assert kept[0] in matched;
      MatchedIsAccepted(kept[0], list, caps, same);
    }
    if SomeMediaAccepted(list, caps, same) {
      var i :| 0 <= i < |list| && !IsRtx(list[i]) && Accepts(list[i], caps, same);
      AcceptedIsMatched(i, list, caps, same);
      assert MatchedOne(list[i], caps, same)[0] in kept;
      assert FollowsMedia(kept, 0);
    }
  }

  // ----- The exact condition, for codecs of any kind

  /** An accepted codec worth keeping: media, or RTX whose apt names an accepted media codec. */
  predicate Useful(list: seq<Codec>, i: nat, caps: seq<Codec>, same: ProfileRelation)
    requires i < |list|
  {
    Accepts(list[i], caps, same) && (IsRtx(list[i]) ==> Resolves(list, Apt(list[i]), caps, same))
  }

  /** Some accepted media codec has payload type `pt`. */
  predicate Resolves(list: seq<Codec>, pt: int, caps: seq<Codec>, same: ProfileRelation) {
    exists m :: 0 <= m < |list| && !IsRtx(list[m]) && list[m].pt == pt && Accepts(list[m], caps, same)
  }

  /** Position i is the first accepted one. */
  predicate FirstAccepted(list: seq<Codec>, i: nat, caps: seq<Codec>, same: ProfileRelation) {
    i < |list| && Accepts(list[i], caps, same) && forall j :: 0 <= j < i ==> !Accepts(list[j], caps, same)
  }

  /** Position i is the first useful one. */
  predicate FirstUseful(list: seq<Codec>, i: nat, caps: seq<Codec>, same: ProfileRelation) {
    i < |list| && Useful(list, i, caps, same) && forall j :: 0 <= j < i ==> !Useful(list, j, caps, same)
  }

  /** The first useful codec is media. */
  predicate LeadsWithMedia(list: seq<Codec>, caps: seq<Codec>, same: ProfileRelation) {
    exists i: nat :: i < |list| && FirstUseful(list, i, caps, same) && !IsRtx(list[i])
  }

  /** The first accepted codec is RTX. */
  predicate LeadsWithRtx(list: seq<Codec>, caps: seq<Codec>, same: ProfileRelation) {
    exists i: nat :: i < |list| && FirstAccepted(list, i, caps, same) && IsRtx(list[i])
  }

  lemma KeepsIsResolves(list: seq<Codec>, c: Codec, caps: seq<Codec>, same: ProfileRelation)
    ensures Keeps(c, Matched(list, caps, same)) <==> (IsRtx(c) ==> Resolves(list, Apt(c), caps, same))
  {
    var matched := Matched(list, caps, same);
    if IsRtx(c) && Keeps(c, matched) {
      var m :| 0 <= m < |matched| && !IsRtx(matched[m]) && matched[m].pt == Apt(c);
      MatchedIsAccepted(matched[m], list, caps, same);
    }
    if Resolves(list, Apt(c), caps, same) {
      var m :| 0 <= m < |list| && !IsRtx(list[m]) && list[m].pt == Apt(c) && Accepts(list[m], caps, same);
      AcceptedIsMatched(m, list, caps, same);
      var k :| 0 <= k < |matched| && matched[k] == MatchedOne(list[m], caps, same)[0];
    }
  }

  /** `kept` starts with the first useful one of the first n codecs; it is empty if none of them is. */
  predicate StartsUseful(kept: seq<Codec>, list: seq<Codec>, n: nat, caps: seq<Codec>, same: ProfileRelation)
    requires n <= |list|
  {
    if kept == [] then forall j :: 0 <= j < n ==> !Useful(list, j, caps, same)
    else exists i: nat :: i < n && FirstUseful(list, i, caps, same) && SameIdentity(kept[0], list[i])
  }

  lemma StartsLater(before: seq<Codec>, c: Codec, list: seq<Codec>, n: nat, caps: seq<Codec>, same: ProfileRelation)
    requires n < |list| && StartsUseful(before, list, n, caps, same)
    requires Useful(list, n, caps, same) && SameIdentity(c, list[n])
    ensures StartsUseful(before + [c], list, n + 1, caps, same)
  {
    if before == [] {
      assert FirstUseful(list, n, caps, same);
    } else {
      var i: nat :| i < n && FirstUseful(list, i, caps, same) && SameIdentity(before[0], list[i]);
      assert (before + [c])[0] == before[0];
    }
  }

  lemma StartsStill(before: seq<Codec>, list: seq<Codec>, n: nat, caps: seq<Codec>, same: ProfileRelation)
    requires n < |list| && StartsUseful(before, list, n, caps, same) && !Useful(list, n, caps, same)
    ensures StartsUseful(before, list, n + 1, caps, same)
  {
  }

  lemma {:induction false} KeptStarts(list: seq<Codec>, n: nat, caps: seq<Codec>, same: ProfileRelation)
    requires n <= |list|
    ensures StartsUseful(KeptOf(list, n, caps, same), list, n, caps, same)
  {
    if n > 0 {
      KeptStarts(list, n - 1, caps, same);
      KeptStep(list, n - 1, caps, same);
      KeepsIsResolves(list, list[n - 1], caps, same);
      var before := KeptOf(list, n - 1, caps, same);
      if Useful(list, n - 1, caps, same) {
        var c := MatchedOne(list[n - 1], caps, same)[0];
        assert KeptOf(list, n, caps, same) == before + [c];
        StartsLater(before, c, list, n - 1, caps, same);
      } else {
        assert KeptOf(list, n, caps, same) == before;
        StartsStill(before, list, n - 1, caps, same);
      }
    }
  }

  /** For grouped codecs, the check for compatible media codecs passes exactly when the first useful codec is media. */
  lemma PassesIffLeads(list: seq<Codec>, caps: seq<Codec>, same: ProfileRelation)
    requires Grouped(list) && RtxApart(list)
    ensures var matched := Matched(list, caps, same); var kept := Sweep(matched, |matched|).0;
      kept != [] && !IsRtx(kept[0]) <==> LeadsWithMedia(list, caps, same)
  {
    MatchedAptsNameMedia(list, caps, same);
    SweepIsSanitized(Matched(list, caps, same));
    assert list[..|list|] == list;
    KeptStarts(list, |list|, caps, same);
    var kept := KeptOf(list, |list|, caps, same);
    if kept != [] {
      var i: nat :| i < |list| && FirstUseful(list, i, caps, same) && SameIdentity(kept[0], list[i]);
      FirstUsefulUnique(list, i, caps, same);
    }
  }

  lemma FirstUsefulUnique(list: seq<Codec>, i: nat, caps: seq<Codec>, same: ProfileRelation)
    requires FirstUseful(list, i, caps, same)
    ensures LeadsWithMedia(list, caps, same) <==> !IsRtx(list[i])
  {
    if LeadsWithMedia(list, caps, same) {
      var j: nat :| j < |list| && FirstUseful(list, j, caps, same) && !IsRtx(list[j]);
      assert i == j;
    }
  }

  /** The matched list starts with the first accepted codec. */
  lemma FirstAcceptedInFront(list: seq<Codec>, i: nat, caps: seq<Codec>, same: ProfileRelation)
    requires i + 1 < |list| && FirstAccepted(list[..|list| - 1], i, caps, same)
    ensures FirstAccepted(list, i, caps, same)
  {
    forall j | 0 <= j < i ensures !Accepts(list[j], caps, same) {
      assert list[j] == list[..|list| - 1][j];
    }
  }

  lemma {:induction false} MatchedStarts(list: seq<Codec>, caps: seq<Codec>, same: ProfileRelation)
    ensures var matched := Matched(list, caps, same);
      && (matched == [] <==> forall j :: 0 <= j < |list| ==> !Accepts(list[j], caps, same))
      && (matched != [] ==>
            exists i: nat :: i < |list| && FirstAccepted(list, i, caps, same) && SameIdentity(matched[0], list[i]))
  {
    if list != [] {
      var front, n := list[..|list| - 1], |list| - 1;
      MatchedStarts(front, caps, same);
      var before := Matched(front, caps, same);
      assert forall j :: 0 <= j < n ==> front[j] == list[j];
      if before != [] {
        var i: nat :| i < |front| && FirstAccepted(front, i, caps, same) && SameIdentity(before[0], front[i]);
        FirstAcceptedInFront(list, i, caps, same);
        assert Matched(list, caps, same)[0] == before[0];
      } else if Accepts(list[n], caps, same) {
        assert FirstAccepted(list, n, caps, same);
        assert Matched(list, caps, same)[0] == MatchedOne(list[n], caps, same)[0];
      }
    }
  }

  lemma MatchedLead(list: seq<Codec>, caps: seq<Codec>, same: ProfileRelation)
    ensures var matched := Matched(list, caps, same);
      matched != [] && IsRtx(matched[0]) <==> LeadsWithRtx(list, caps, same)
  {
    MatchedStarts(list, caps, same);
    var matched := Matched(list, caps, same);
    if matched != [] {
      var i: nat :| i < |list| && FirstAccepted(list, i, caps, same) && SameIdentity(matched[0], list[i]);
      if LeadsWithRtx(list, caps, same) {
        var j: nat :| j < |list| && FirstAccepted(list, j, caps, same) && IsRtx(list[j]);
        assert i == j;
      }
    }
  }

  // ----- When codecs with one payload type are accepted alike

  lemma MatchAlike(e: Codec, c1: Codec, c2: Codec, cap: Codec, same: ProfileRelation)
    requires PartialEquivalence(same)
    requires Match(c1, cap, true, same) && Match(c2, cap, true, same)
    ensures Match(e, MediaOf(c1, cap), true, same) == Match(e, MediaOf(c2, cap), true, same)
  {
    var p1, p2 := c1.parameters, c2.parameters;
    if Lower(cap.mime) == "video/h264" {
      assert same(cap.parameters, p2) && same(cap.parameters, p1);
      assert same(p1, p2) && same(p2, p1);
      assert same(e.parameters, p1) == same(e.parameters, p2);
    }
  }

  lemma SameCapAlike(c1: Codec, c2: Codec, cap: Codec, caps: seq<Codec>, same: ProfileRelation)
    requires PartialEquivalence(same)
    requires Match(c1, cap, true, same) && Match(c2, cap, true, same)
    ensures Accepts(MediaOf(c1, cap), caps, same) == Accepts(MediaOf(c2, cap), caps, same)
  {
    forall k | 0 <= k < |caps|
      ensures Match(caps[k], MediaOf(c1, cap), true, same) == Match(caps[k], MediaOf(c2, cap), true, same)
    {
      MatchAlike(caps[k], c1, c2, cap, same);
    }
  }

  lemma SamePtAlike(m1: Codec, m2: Codec, producer: seq<Codec>, router: seq<Codec>, caps: seq<Codec>,
                    same: ProfileRelation)
    requires PartialEquivalence(same) && DistinctPts(router) && m1.pt == m2.pt
    requires MediaOrigin(m1, producer, router, same) && MediaOrigin(m2, producer, router, same)
    ensures Accepts(m1, caps, same) == Accepts(m2, caps, same)
  {
    var a :| 0 <= a < |producer| && !IsRtx(producer[a]) && ComesFrom(m1, producer[a], router, same);
    var b :| 0 <= b < |producer| && !IsRtx(producer[b]) && ComesFrom(m2, producer[b], router, same);
    var k := FirstMatch(producer[a], router, true, same);
    assert k == FirstMatch(producer[b], router, true, same);
    SameCapAlike(producer[a], producer[b], router[k], caps, same);
  }

  /** With a symmetric and transitive profile relation, producer codecs mapped to one router codec are accepted
      alike. */
  lemma EquivalenceIsAlike(list: seq<Codec>, producer: seq<Codec>, router: seq<Codec>, caps: seq<Codec>,
                           same: ProfileRelation)
    requires PartialEquivalence(same) && RouterShape(router) && ConsumableShape(list, producer, router, same)
    ensures Alike(list, caps, same)
  {
    forall i, j | 0 <= i < |list| && 0 <= j < |list| && !IsRtx(list[i]) && !IsRtx(list[j]) && list[i].pt == list[j].pt
      ensures Accepts(list[i], caps, same) == Accepts(list[j], caps, same)
    {
      assert Origin(list[i], producer, router, same) && Origin(list[j], producer, router, same);
      SamePtAlike(list[i], list[j], producer, router, caps, same);
    }
  }

  /** What the first three stages hand over. */
  lemma ConsumableForShape(media: seq<Codec>, table: seq<Codec>, producer: seq<Codec>, same: ProfileRelation)
    requires TableOk(table) && DistinctPts(producer)
    requires ConsumableFor(media, table, producer, same).Ok?
    ensures var router := RouterCodecs(media, table, same).value;
      var list := ConsumableFor(media, table, producer, same).value;
      RouterShape(router) && ConsumableShape(list, producer, router, same) && RtxApart(list)
  {
    RouterCapabilitiesTheorem(media, table, same);
    var router := RouterCodecs(media, table, same).value;
    ProducerMappingTheorem(producer, router, same);
    var mapping := ProducerMappingOf(producer, router, same).value;
    MapsTaken(producer, router, mapping, same);
    ConsumableShaped(producer, router, mapping, same);
    ShapeIsApart(ConsumableOf(producer, router, mapping), producer, router, same);
  }

  lemma MapsTaken(producer: seq<Codec>, router: seq<Codec>, mapping: Mapping, same: ProfileRelation)
    requires FaithfulMapping(mapping, producer, router, same)
    ensures MapsMatches(producer, router, mapping, same)
  {
    forall i | 0 <= i < |producer| ensures producer[i].pt in mapping {
      assert Taken(producer, producer[i].pt);
    }
  }

  // ----- The results

  /** Acceptance: with a symmetric, transitive profile relation, or with media codecs mapped to distinct router
      codecs, an endpoint with valid capabilities is granted a consumer exactly when it accepts some media codec. */
  lemma AcceptanceTheorem(media: seq<Codec>, table: seq<Codec>, producer: seq<Codec>, exts: seq<Extension>,
                          encodings: nat, endpoint: Endpoint, pipe: bool, ssrcs: Ssrcs, same: ProfileRelation)
    requires TableOk(table) && DistinctPts(producer)
    requires ConsumableFor(media, table, producer, same).Ok?
    requires PartialEquivalence(same) ||
      var router := RouterCodecs(media, table, same).value;
      DistinctlyMapped(producer, ProducerMappingOf(producer, router, same).value)
    ensures var list := ConsumableFor(media, table, producer, same).value;
      && var r := ConsumerOf(list, exts, encodings, endpoint, pipe, ssrcs, same);
      && (r.Ok? <==> ValidCaps(endpoint.codecs) && SomeMediaAccepted(list, endpoint.codecs, same))
      && (r.Ok? ==> Grouped(r.value.codecs))
  {
    ConsumableForShape(media, table, producer, same);
    var router := RouterCodecs(media, table, same).value;
    var list := ConsumableFor(media, table, producer, same).value;
    if PartialEquivalence(same) {
      EquivalenceIsAlike(list, producer, router, endpoint.codecs, same);
    } else {
      ProducerMappingTheorem(producer, router, same);
      var mapping := ProducerMappingOf(producer, router, same).value;
      MapsTaken(producer, router, mapping, same);
      DistinctMappingGivesDistinctMedia(producer, router, mapping, same);
    }
    AcceptedIffMedia(list, endpoint.codecs, same);
    var matched := Matched(list, endpoint.codecs, same);
    GroupedReduced(Sweep(matched, |matched|).0);
  }

  /** Acceptance for the comparison the code makes, whatever profiles the texts stand for: no further condition. */
  lemma AcceptanceOfParsedProfiles(media: seq<Codec>, table: seq<Codec>, producer: seq<Codec>, exts: seq<Extension>,
                                   encodings: nat, endpoint: Endpoint, pipe: bool, ssrcs: Ssrcs,
                                   profile: Rtp.Parameters -> int)
    requires TableOk(table) && DistinctPts(producer)
    requires ConsumableFor(media, table, producer, SameParsed(profile)).Ok?
    ensures var same := SameParsed(profile);
      var list := ConsumableFor(media, table, producer, same).value;
      && var r := ConsumerOf(list, exts, encodings, endpoint, pipe, ssrcs, same);
      && (r.Ok? <==> ValidCaps(endpoint.codecs) && SomeMediaAccepted(list, endpoint.codecs, same))
      && (r.Ok? ==> Grouped(r.value.codecs))
  {
    ParsedIsEquivalence(profile);
    AcceptanceTheorem(media, table, producer, exts, encodings, endpoint, pipe, ssrcs, SameParsed(profile));
  }

  lemma GroupedReduced(list: seq<Codec>)
    requires Grouped(list)
    ensures forall w, a :: Grouped(ReduceAll(list, w, a))
  {
    forall w, a ensures Grouped(ReduceAll(list, w, a)) {
      var r := ReduceAll(list, w, a);
      forall i | 0 <= i < |r| ensures FollowsMedia(r, i) {
        assert FollowsMedia(list, i);
      }
    }
  }

  /** Through the four stages and for any profile relation: a consumer is granted exactly to endpoints with valid
      capabilities whose first useful codec is media. */
  lemma ExactAcceptance(media: seq<Codec>, table: seq<Codec>, producer: seq<Codec>, exts: seq<Extension>,
                        encodings: nat, endpoint: Endpoint, pipe: bool, ssrcs: Ssrcs, same: ProfileRelation)
    requires TableOk(table) && DistinctPts(producer)
    requires ConsumableFor(media, table, producer, same).Ok?
    ensures var list := ConsumableFor(media, table, producer, same).value;
      ConsumerOf(list, exts, encodings, endpoint, pipe, ssrcs, same).Ok? <==>
        ValidCaps(endpoint.codecs) && LeadsWithMedia(list, endpoint.codecs, same)
  {
    ConsumableForShape(media, table, producer, same);
    PassesIffLeads(ConsumableFor(media, table, producer, same).value, endpoint.codecs, same);
  }

  /** When the granted ones are those that accept some media codec: exactly if not every useful codec waits behind a
      useful RTX codec. */
  lemma AcceptingOneExactly(list: seq<Codec>, caps: seq<Codec>, same: ProfileRelation)
    ensures (LeadsWithMedia(list, caps, same) <==> SomeMediaAccepted(list, caps, same)) <==>
      !exists i: nat :: i < |list| && FirstUseful(list, i, caps, same) && IsRtx(list[i])
  {
    if i: nat :| i < |list| && FirstUseful(list, i, caps, same) && IsRtx(list[i]) {
      FirstUsefulUnique(list, i, caps, same);
      var m :| 0 <= m < |list| && !IsRtx(list[m]) && list[m].pt == Apt(list[i]) && Accepts(list[m], caps, same);
      assert SomeMediaAccepted(list, caps, same);
    } else if SomeMediaAccepted(list, caps, same) {
      var m :| 0 <= m < |list| && !IsRtx(list[m]) && Accepts(list[m], caps, same);
      FirstUsefulExists(list, m, caps, same);
    }
  }

  lemma {:induction false} FirstUsefulExists(list: seq<Codec>, m: nat, caps: seq<Codec>, same: ProfileRelation)
    requires m < |list| && Useful(list, m, caps, same)
    ensures exists i: nat :: i <= m && FirstUseful(list, i, caps, same)
  {
    if !FirstUseful(list, m, caps, same) {
      var j: nat :| j < m && Useful(list, j, caps, same);
      FirstUsefulExists(list, j, caps, same);
    }
  }

  /** Where `canConsume` and the negotiation disagree, through the stages and for any profile relation: exactly when the
      first accepted codec is RTX and the first useful one is media. */
  lemma AgreementTheorem(media: seq<Codec>, table: seq<Codec>, producer: seq<Codec>, exts: seq<Extension>,
                         encodings: nat, endpoint: Endpoint, pipe: bool, ssrcs: Ssrcs, same: ProfileRelation)
    requires TableOk(table) && DistinctPts(producer)
    requires ConsumableFor(media, table, producer, same).Ok?
    requires CanConsume(ConsumableFor(media, table, producer, same).value, endpoint, same).Ok?
    ensures var list := ConsumableFor(media, table, producer, same).value;
      var granted := ConsumerOf(list, exts, encodings, endpoint, pipe, ssrcs, same).Ok?;
      CanConsume(list, endpoint, same).value == granted <==>
        !(LeadsWithRtx(list, endpoint.codecs, same) && LeadsWithMedia(list, endpoint.codecs, same))
  {
    var list := ConsumableFor(media, table, producer, same).value;
    ConsumableForShape(media, table, producer, same);
    PassesIffLeads(list, endpoint.codecs, same);
    MatchedLead(list, endpoint.codecs, same);
    var matched := Matched(list, endpoint.codecs, same);
    if matched != [] && !IsRtx(matched[0]) {
      SweepKeepsFirst(matched, |matched|);
    }
    if matched == [] {
      MatchedStarts(list, endpoint.codecs, same);
    }
  }

  /** For the comparison the code makes: they disagree exactly when the first accepted codec is RTX and some media codec
      is accepted. */
  lemma AgreementOfParsedProfiles(media: seq<Codec>, table: seq<Codec>, producer: seq<Codec>, exts: seq<Extension>,
                                  encodings: nat, endpoint: Endpoint, pipe: bool, ssrcs: Ssrcs,
                                  profile: Rtp.Parameters -> int)
    requires TableOk(table) && DistinctPts(producer)
    requires ConsumableFor(media, table, producer, SameParsed(profile)).Ok?
    requires CanConsume(ConsumableFor(media, table, producer, SameParsed(profile)).value, endpoint,
                        SameParsed(profile)).Ok?
    ensures var same := SameParsed(profile);
      var list := ConsumableFor(media, table, producer, same).value;
      var granted := ConsumerOf(list, exts, encodings, endpoint, pipe, ssrcs, same).Ok?;
      CanConsume(list, endpoint, same).value == granted <==>
        !(LeadsWithRtx(list, endpoint.codecs, same) && SomeMediaAccepted(list, endpoint.codecs, same))
  {
    var same := SameParsed(profile);
    AgreementTheorem(media, table, producer, exts, encodings, endpoint, pipe, ssrcs, same);
    ExactAcceptance(media, table, producer, exts, encodings, endpoint, pipe, ssrcs, same);
    AcceptanceOfParsedProfiles(media, table, producer, exts, encodings, endpoint, pipe, ssrcs, profile);
  }

  /** Exactly one codec of the producer is media. */
  predicate SingleMedia(producer: seq<Codec>, d: nat) {
    d < |producer| && forall i :: 0 <= i < |producer| ==> (IsRtx(producer[i]) <==> i != d)
  }

  lemma {:induction false} NoMediaNothing(producer: seq<Codec>, caps: seq<Codec>, mapping: Mapping)
    requires forall i :: 0 <= i < |producer| ==> IsRtx(producer[i])
    ensures ConsumableOf(producer, caps, mapping) == []
  {
    if producer != [] {
      assert forall i :: 0 <= i < |producer[1..]| ==> producer[1..][i] == producer[i + 1];
      NoMediaNothing(producer[1..], caps, mapping);
    }
  }

  lemma {:induction false} SingleGroup(producer: seq<Codec>, d: nat, caps: seq<Codec>, mapping: Mapping)
    requires SingleMedia(producer, d)
    ensures ConsumableOf(producer, caps, mapping) == Group(producer[d], caps, mapping)
  {
    var rest := producer[1..];
    assert forall i :: 0 <= i < |rest| ==> rest[i] == producer[i + 1];
    if d == 0 {
      NoMediaNothing(rest, caps, mapping);
    } else {
      SingleGroup(rest, d - 1, caps, mapping);
    }
  }

  /** For a producer with a single media codec, and any number of RTX codecs, `canConsume` and the negotiation always
      agree. */
  lemma SingleMediaAgreement(media: seq<Codec>, table: seq<Codec>, producer: seq<Codec>, d: nat, exts: seq<Extension>,
                             encodings: nat, endpoint: Endpoint, pipe: bool, ssrcs: Ssrcs, same: ProfileRelation)
    requires TableOk(table) && DistinctPts(producer) && SingleMedia(producer, d)
    requires ConsumableFor(media, table, producer, same).Ok?
    requires CanConsume(ConsumableFor(media, table, producer, same).value, endpoint, same).Ok?
    ensures var list := ConsumableFor(media, table, producer, same).value;
      CanConsume(list, endpoint, same).value <==>
      ConsumerOf(list, exts, encodings, endpoint, pipe, ssrcs, same).Ok?
  {
    AgreementTheorem(media, table, producer, exts, encodings, endpoint, pipe, ssrcs, same);
    ConsumableForShape(media, table, producer, same);
    var router := RouterCodecs(media, table, same).value;
    var list := ConsumableFor(media, table, producer, same).value;
    SingleGroup(producer, d, router, ProducerMappingOf(producer, router, same).value);
    OneOrTwo(list, endpoint.codecs, same);
  }

  lemma OneOrTwo(list: seq<Codec>, caps: seq<Codec>, same: ProfileRelation)
    requires |list| == 1 || (|list| == 2 && IsRtx(list[1]))
    requires Grouped(list)
    ensures !(LeadsWithRtx(list, caps, same) && LeadsWithMedia(list, caps, same))
  {
    assert FollowsMedia(list, 0);
  }

  lemma KeptRtxResolved(matched: seq<Codec>, c: Codec)
    requires c in Sanitized(matched, matched) && IsRtx(c)
    ensures exists m :: m in Sanitized(matched, matched) && !IsRtx(m) && m.pt == Apt(c)
  {
    SanitizedMembers(matched, matched);
    var k :| 0 <= k < |matched| && !IsRtx(matched[k]) && matched[k].pt == Apt(c);
    assert matched[k] in matched && Keeps(matched[k], matched);
  }

  lemma SanitizedSomeRtx(matched: seq<Codec>)
    ensures SomeRtx(Sanitized(matched, matched)) <==>
            exists i :: 0 <= i < |matched| && IsRtx(matched[i]) && Keeps(matched[i], matched)
  {
    SanitizedMembers(matched, matched);
    var kept := Sanitized(matched, matched);
    if i :| 0 <= i < |matched| && IsRtx(matched[i]) && Keeps(matched[i], matched) {
      assert matched[i] in kept;
    }
    if i :| 0 <= i < |kept| && IsRtx(kept[i]) {
      assert kept[i] in matched;
    }
  }

  lemma SanitizedResolved(matched: seq<Codec>)
    requires AptsNameMedia(matched)
    ensures var (kept, rtx) := Sweep(matched, |matched|);
      && (kept != [] && !IsRtx(kept[0]) ==> RtxResolved(kept))
      && (rtx <==> SomeRtx(kept))
  {
    SweepIsSanitized(matched);
    SanitizedSomeRtx(matched);
    var kept := Sanitized(matched, matched);
    forall i | 0 <= i < |kept| && IsRtx(kept[i])
      ensures exists m :: 0 <= m < |kept| && !IsRtx(kept[m]) && kept[m].pt == Apt(kept[i])
    {
      KeptRtxResolved(matched, kept[i]);
    }
  }

  lemma ReducedResolved(list: seq<Codec>, w: bool, a: bool)
    ensures RtxResolved(list) ==> RtxResolved(ReduceAll(list, w, a))
    ensures SomeRtx(list) <==> SomeRtx(ReduceAll(list, w, a))
  {
    var r := ReduceAll(list, w, a);
    assert forall i :: 0 <= i < |list| ==>
      IsRtx(r[i]) == IsRtx(list[i]) && r[i].pt == list[i].pt && Apt(r[i]) == Apt(list[i]);
    if RtxResolved(list) {
      forall i | 0 <= i < |r| && IsRtx(r[i])
        ensures exists m :: 0 <= m < |r| && !IsRtx(r[m]) && r[m].pt == Apt(r[i])
      {
        var m :| 0 <= m < |list| && !IsRtx(list[m]) && list[m].pt == Apt(list[i]);
        assert !IsRtx(r[m]);
      }
    }
    if i :| 0 <= i < |list| && IsRtx(list[i]) {
      assert IsRtx(r[i]);
    }
  }

  // ----- Exactly what is granted

  /** In order, the positions below n of the useful codecs and no others. */
  predicate Picks(at: seq<nat>, list: seq<Codec>, n: nat, caps: seq<Codec>, same: ProfileRelation)
    requires n <= |list|
  {
    && (forall j, k :: 0 <= j < k < |at| ==> at[j] < at[k])
    && (forall k :: 0 <= k < |at| ==> at[k] < n && Useful(list, at[k], caps, same))
    && (forall i {:trigger PickedAt(at, i)} :: 0 <= i < n && Useful(list, i, caps, same) ==> PickedAt(at, i))
  }

  predicate PickedAt(at: seq<nat>, i: nat) {
    exists k :: 0 <= k < |at| && at[k] == i
  }

  lemma PickNext(at: seq<nat>, list: seq<Codec>, n: nat, caps: seq<Codec>, same: ProfileRelation)
    requires n < |list| && Picks(at, list, n, caps, same)
    ensures Picks(if Useful(list, n, caps, same) then at + [n] else at, list, n + 1, caps, same)
  {
    var at' := if Useful(list, n, caps, same) then at + [n] else at;
    forall i | 0 <= i < n + 1 && Useful(list, i, caps, same) ensures PickedAt(at', i) {
      if i < n {
        assert PickedAt(at, i);
        var k :| 0 <= k < |at| && at[k] == i;
        assert at'[k] == i;
      } else {
        assert at'[|at|] == n;
      }
    }
  }

  ghost predicate AdaptedFrom(c: Codec, i: nat, list: seq<Codec>, caps: seq<Codec>, same: ProfileRelation) {
    exists e: nat :: Adapted(c, i, e, list, caps, same)
  }

  /** Each codec of `kept` is the one at its position, with the feedback of the capability that takes it. */
  ghost predicate AdaptedAt(kept: seq<Codec>, at: seq<nat>, list: seq<Codec>, caps: seq<Codec>, same: ProfileRelation) {
    |kept| == |at| && forall k :: 0 <= k < |at| ==> AdaptedFrom(kept[k], at[k], list, caps, same)
  }

  lemma AdaptNext(kept: seq<Codec>, next: seq<Codec>, at: seq<nat>, n: nat, list: seq<Codec>, caps: seq<Codec>,
                  same: ProfileRelation)
    requires AdaptedAt(kept, at, list, caps, same) && n < |list| && Accepts(list[n], caps, same)
    requires next == kept + MatchedOne(list[n], caps, same)
    ensures AdaptedAt(next, at + [n], list, caps, same)
  {
    assert Adapted(next[|kept|], n, FirstAccepting(list[n], caps, same), list, caps, same);
  }

  lemma KeptNext(list: seq<Codec>, n: nat, caps: seq<Codec>, same: ProfileRelation)
    requires n < |list|
    ensures KeptOf(list, n + 1, caps, same) == KeptOf(list, n, caps, same) +
            if Useful(list, n, caps, same) then MatchedOne(list[n], caps, same) else []
  {
    KeptStep(list, n, caps, same);
    KeepsIsResolves(list, list[n], caps, same);
  }

  lemma {:induction false} KeptPicks(list: seq<Codec>, n: nat, caps: seq<Codec>, same: ProfileRelation)
    returns (at: seq<nat>)
    requires n <= |list|
    ensures Picks(at, list, n, caps, same) && AdaptedAt(KeptOf(list, n, caps, same), at, list, caps, same)
  {
    if n == 0 {
      at := [];
    } else {
      var before := KeptPicks(list, n - 1, caps, same);
      at := PickKept(before, list, n - 1, caps, same);
    }
  }

  lemma PickKept(before: seq<nat>, list: seq<Codec>, n: nat, caps: seq<Codec>, same: ProfileRelation)
    returns (at: seq<nat>)
    requires n < |list| && Picks(before, list, n, caps, same)
    requires AdaptedAt(KeptOf(list, n, caps, same), before, list, caps, same)
    ensures Picks(at, list, n + 1, caps, same) && AdaptedAt(KeptOf(list, n + 1, caps, same), at, list, caps, same)
  {
    var kept, next := KeptOf(list, n, caps, same), KeptOf(list, n + 1, caps, same);
    PickNext(before, list, n, caps, same);
    KeptNext(list, n, caps, same);
    if Useful(list, n, caps, same) {
      AdaptNext(kept, next, before, n, list, caps, same);
      at := before + [n];
    } else {
      at := before;
    }
  }

  ghost predicate GrantedFrom(c: Codec, i: nat, list: seq<Codec>, exts: seq<Extension>, endpoint: Endpoint,
                              same: ProfileRelation)
  {
    exists e: nat :: GrantedFor(c, i, e, list, exts, endpoint, same)
  }

  /** Each granted codec is granted for the consumable codec at its position. */
  ghost predicate GrantedAt(codecs: seq<Codec>, at: seq<nat>, list: seq<Codec>, exts: seq<Extension>,
                            endpoint: Endpoint, same: ProfileRelation)
  {
    |codecs| == |at| && forall k :: 0 <= k < |at| ==> GrantedFrom(codecs[k], at[k], list, exts, endpoint, same)
  }

  lemma ReducedIsGrantedAt(kept: seq<Codec>, at: seq<nat>, list: seq<Codec>, exts: seq<Extension>, endpoint: Endpoint,
                           same: ProfileRelation)
    requires AdaptedAt(kept, at, list, endpoint.codecs, same)
    ensures var shared := SharedExtensions(exts, endpoint.extensions);
      GrantedAt(ReduceAll(kept, HasUri(shared, TRANSPORT_WIDE_CC), HasUri(shared, ABS_SEND_TIME)), at, list, exts,
                endpoint, same)
  {
    var shared := SharedExtensions(exts, endpoint.extensions);
    var codecs := ReduceAll(kept, HasUri(shared, TRANSPORT_WIDE_CC), HasUri(shared, ABS_SEND_TIME));
    forall k | 0 <= k < |at| ensures GrantedFrom(codecs[k], at[k], list, exts, endpoint, same) {
      assert AdaptedFrom(kept[k], at[k], list, endpoint.codecs, same);
      var e: nat :| Adapted(kept[k], at[k], e, list, endpoint.codecs, same);
      ReducedIsGranted(kept[k], codecs[k], at[k], e, list, exts, endpoint, same);
    }
  }

  /** Through the four stages and for any profile relation: granted are exactly the useful consumable codecs, in order,
      each as it is but for the feedback, of which it has the usable entries of the first capability that takes it. */
  lemma GrantedExactly(media: seq<Codec>, table: seq<Codec>, producer: seq<Codec>, exts: seq<Extension>,
                       encodings: nat, endpoint: Endpoint, pipe: bool, ssrcs: Ssrcs, same: ProfileRelation)
    requires TableOk(table) && DistinctPts(producer)
    requires ConsumableFor(media, table, producer, same).Ok?
    ensures var list := ConsumableFor(media, table, producer, same).value;
      var r := ConsumerOf(list, exts, encodings, endpoint, pipe, ssrcs, same);
      r.Ok? ==> exists at: seq<nat> ::
        Picks(at, list, |list|, endpoint.codecs, same) && GrantedAt(r.value.codecs, at, list, exts, endpoint, same)
  {
    ConsumableForShape(media, table, producer, same);
    var list, caps := ConsumableFor(media, table, producer, same).value, endpoint.codecs;
    MatchedAptsNameMedia(list, caps, same);
    SweepIsSanitized(Matched(list, caps, same));
    assert list[..|list|] == list;
    var at := KeptPicks(list, |list|, caps, same);
    ReducedIsGrantedAt(KeptOf(list, |list|, caps, same), at, list, exts, endpoint, same);
  }

  // ----- Whoever supports a codec of the producer is served

  /** What the first three stages hand over, field by field. */
  lemma ConsumableForRestated(media: seq<Codec>, table: seq<Codec>, producer: seq<Codec>, same: ProfileRelation)
    requires TableOk(table) && DistinctPts(producer)
    requires ConsumableFor(media, table, producer, same).Ok?
    ensures Restated(ConsumableFor(media, table, producer, same).value, producer,
                     RouterCodecs(media, table, same).value, same)
  {
    RouterCapabilitiesTheorem(media, table, same);
    var router := RouterCodecs(media, table, same).value;
    ProducerMappingTheorem(producer, router, same);
    var mapping := ProducerMappingOf(producer, router, same).value;
    MapsTaken(producer, router, mapping, same);
    ConsumableRestated(producer, router, mapping, same);
  }

  /** The capability `e` is about the same codec as `codec`; kind, payload type and feedback are its own. */
  predicate SameCodec(e: Codec, codec: Codec) {
    e.mime == codec.mime && e.clockRate == codec.clockRate && e.channels == codec.channels &&
    e.parameters == codec.parameters
  }

  lemma OwnMatches(e: Codec, codec: Codec, cap: Codec, c: Codec, same: ProfileRelation)
    requires PartialEquivalence(same) && SameCodec(e, codec)
    requires Match(codec, cap, true, same) && Restates(c, codec, cap)
    ensures Match(e, c, true, same)
  {
    if Lower(codec.mime) == "video/h264" {
      assert same(codec.parameters, cap.parameters) && same(cap.parameters, codec.parameters);
    }
  }

  lemma TakenIsAccepted(e: nat, codec: Codec, caps: seq<Codec>, same: ProfileRelation)
    requires e < |caps| && Match(caps[e], codec, true, same)
    ensures Accepts(codec, caps, same)
  {
  }

  /** End to end, with a symmetric and transitive profile relation: an endpoint with valid capabilities that lists one
      of the producer's media codecs accepts its consumable counterpart and is granted the consumer. */
  lemma OwnCodecIsGranted(media: seq<Codec>, table: seq<Codec>, producer: seq<Codec>, d: nat, exts: seq<Extension>,
                          encodings: nat, endpoint: Endpoint, e: nat, pipe: bool, ssrcs: Ssrcs, same: ProfileRelation)
    requires TableOk(table) && DistinctPts(producer) && PartialEquivalence(same)
    requires ConsumableFor(media, table, producer, same).Ok?
    requires d < |producer| && !IsRtx(producer[d])
    requires ValidCaps(endpoint.codecs) && e < |endpoint.codecs| && SameCodec(endpoint.codecs[e], producer[d])
    ensures var list := ConsumableFor(media, table, producer, same).value;
      && (exists p :: 0 <= p < |list| && list[p].parameters == producer[d].parameters && !IsRtx(list[p]) &&
                      Accepts(list[p], endpoint.codecs, same))
      && ConsumerOf(list, exts, encodings, endpoint, pipe, ssrcs, same).Ok?
  {
    var list, router := ConsumableFor(media, table, producer, same).value, RouterCodecs(media, table, same).value;
    ConsumableForRestated(media, table, producer, same);
    var p := Counterpart(list, producer, d, router, same);
    var k := FirstMatch(producer[d], router, true, same);
    OwnMatches(endpoint.codecs[e], producer[d], router[k], list[p], same);
    TakenIsAccepted(e, list[p], endpoint.codecs, same);
    assert Lower(list[p].mime) == Lower(producer[d].mime);
    assert SomeMediaAccepted(list, endpoint.codecs, same);
    AcceptanceTheorem(media, table, producer, exts, encodings, endpoint, pipe, ssrcs, same);
  }

  /** The range the stream identifiers are drawn from, with room for every encoding of a pipe. */
  predicate SsrcsInRange(ssrcs: Ssrcs, encodings: nat) {
    && 100_000_000 <= ssrcs.media <= 999_999_999
    && 100_000_000 <= ssrcs.rtx <= 999_999_999
    && encodings <= 3_000_000_000
  }

  lemma EncodingsRtx(count: nat, pipe: bool, rtx: bool, ssrcs: Ssrcs)
    requires SsrcsInRange(ssrcs, count)
    ensures var r := Encodings(count, pipe, rtx, ssrcs);
      |r| == (if pipe then count else 1) && forall e :: e in r ==> (e.rtxSsrc != 0 <==> rtx)
  {
    var r := Encodings(count, pipe, rtx, ssrcs);
    forall i | 0 <= i < |r| ensures r[i].rtxSsrc != 0 <==> rtx {
      assert pipe ==> r[i] == Encoding(Uint32(ssrcs.media + i), if rtx then Uint32(ssrcs.rtx + i) else 0);
    }
  }

  /** For any consumable codecs: the streams of a consumer have identifiers of their own. A pipe has one encoding per
      consumable encoding, any other consumer a single one whose RTX stream differs from it. */
  lemma StreamsTheorem(consumable: seq<Codec>, exts: seq<Extension>, encodings: nat, endpoint: Endpoint, pipe: bool,
                       ssrcs: Ssrcs, same: ProfileRelation)
    requires ConsumerOf(consumable, exts, encodings, endpoint, pipe, ssrcs, same).Ok? && SsrcsInRange(ssrcs, encodings)
    ensures var r := ConsumerOf(consumable, exts, encodings, endpoint, pipe, ssrcs, same).value.encodings;
      && |r| == (if pipe then encodings else 1)
      && (forall i :: 0 <= i < |r| ==> 0 < r[i].ssrc < 0x1_0000_0000 && 0 <= r[i].rtxSsrc < 0x1_0000_0000)
      && (forall i, j :: 0 <= i < j < |r| ==> r[i].ssrc != r[j].ssrc)
      && (forall i, j :: 0 <= i < j < |r| ==> r[i].rtxSsrc != r[j].rtxSsrc || r[i].rtxSsrc == r[j].rtxSsrc == 0)
      && (forall i :: 0 <= i < |r| ==> r[i].ssrc == ssrcs.media + i)
      && (pipe ==> forall i :: 0 <= i < |r| && r[i].rtxSsrc != 0 ==> r[i].rtxSsrc == ssrcs.rtx + i)
      && (!pipe && r[0].rtxSsrc != 0 ==> r[0].rtxSsrc == r[0].ssrc + 1)
  {
    var matched := Matched(consumable, endpoint.codecs, same);
    EncodingsAre(encodings, pipe, Sweep(matched, |matched|).1, ssrcs);
  }

  lemma EncodingsAre(count: nat, pipe: bool, rtx: bool, ssrcs: Ssrcs)
    requires SsrcsInRange(ssrcs, count)
    ensures var r := Encodings(count, pipe, rtx, ssrcs);
      && |r| == (if pipe then count else 1)
      && (pipe ==> forall i :: 0 <= i < |r| ==> r[i].ssrc == ssrcs.media + i)
      && (pipe ==> forall i :: 0 <= i < |r| ==> r[i].rtxSsrc == if rtx then ssrcs.rtx + i else 0)
      && (!pipe ==> r[0] == Encoding(ssrcs.media, if rtx then ssrcs.media + 1 else 0))
  {
    var r := Encodings(count, pipe, rtx, ssrcs);
    if pipe {
      forall i | 0 <= i < |r| ensures r[i] == Encoding(ssrcs.media + i, if rtx then ssrcs.rtx + i else 0) {
        assert Uint32(ssrcs.media + i) == ssrcs.media + i && Uint32(ssrcs.rtx + i) == ssrcs.rtx + i;
      }
    }
  }

  /** End to end, for every producer with distinct payload types and every endpoint: in the granted parameters each
      RTX codec names a media codec of the list, the first codec is media, and an encoding has an RTX stream exactly
      when some RTX codec survived. */
  lemma EndToEnd(media: seq<Codec>, table: seq<Codec>, producer: seq<Codec>, exts: seq<Extension>,
                 encodings: nat, endpoint: Endpoint, pipe: bool, ssrcs: Ssrcs, same: ProfileRelation)
    requires TableOk(table) && DistinctPts(producer) && SsrcsInRange(ssrcs, encodings)
    requires ConsumableFor(media, table, producer, same).Ok?
    ensures var list := ConsumableFor(media, table, producer, same).value;
      var r := ConsumerOf(list, exts, encodings, endpoint, pipe, ssrcs, same);
      r.Ok? ==>
        && RtxResolved(r.value.codecs)
        && |r.value.encodings| == (if pipe then encodings else 1)
        && forall e :: e in r.value.encodings ==> (e.rtxSsrc != 0 <==> SomeRtx(r.value.codecs))
  {
    ConsumableForShape(media, table, producer, same);
    var list := ConsumableFor(media, table, producer, same).value;
    MatchedAptsNameMedia(list, endpoint.codecs, same);
    var matched := Matched(list, endpoint.codecs, same);
    SanitizedResolved(matched);
    var shared := SharedExtensions(exts, endpoint.extensions);
    EncodingsRtx(encodings, pipe, Sweep(matched, |matched|).1, ssrcs);
    ReducedResolved(Sweep(matched, |matched|).0, HasUri(shared, TRANSPORT_WIDE_CC), HasUri(shared, ABS_SEND_TIME));
  }
}
