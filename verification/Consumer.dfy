/** `canConsume` and `getConsumerRtpParameters`: the consumable codecs an endpoint accepts, without useless RTX. */
module Consumer {
  import opened Rtp
  import opened RouterCapabilities
  import opened Consumable
  import opened FeedbackReduction

  /** One transmitted stream; `rtxSsrc` is 0 when it has no RTX stream. */
  datatype Encoding = Encoding(ssrc: int, rtxSsrc: int)

  datatype Parameters = Parameters(codecs: seq<Codec>, encodings: seq<Encoding>)

  /** What the endpoint supports. */
  datatype Endpoint = Endpoint(codecs: seq<Codec>, extensions: seq<Extension>)

  /** The randomly drawn stream identifiers. */
  datatype Ssrcs = Ssrcs(media: int, rtx: int)

  /** The first endpoint codec that matches `codec`, |caps| when there is none. */
  function FirstAccepting(codec: Codec, caps: seq<Codec>, same: ProfileRelation): (r: nat)
    ensures r <= |caps|
    ensures r < |caps| ==> Match(caps[r], codec, true, same)
    ensures forall j :: 0 <= j < r ==> !Match(caps[j], codec, true, same)
  {
    if caps == [] || Match(caps[0], codec, true, same) then 0 else 1 + FirstAccepting(codec, caps[1..], same)
  }

  predicate Accepts(codec: Codec, caps: seq<Codec>, same: ProfileRelation) {
    FirstAccepting(codec, caps, same) < |caps|
  }

  /** An accepted codec takes the endpoint's feedback. */
  function MatchedOne(codec: Codec, caps: seq<Codec>, same: ProfileRelation): seq<Codec> {
    var k := FirstAccepting(codec, caps, same);
    if k < |caps| then [codec.(feedback := caps[k].feedback)] else []
  }

  function Matched(list: seq<Codec>, caps: seq<Codec>, same: ProfileRelation): seq<Codec> {
    if list == [] then [] else Matched(list[..|list| - 1], caps, same) + MatchedOne(list[|list| - 1], caps, same)
  }

  /** The downward loop over positions k - 1, ..., 0: drops an RTX codec whose apt is no payload type of the current
      list; the flag tells whether some RTX codec was kept. */
  function Sweep(list: seq<Codec>, k: nat): (seq<Codec>, bool)
    requires k <= |list|
    decreases k
  {
    if k == 0 then (list, false)
    else if !IsRtx(list[k - 1]) then Sweep(list, k - 1)
    else if Taken(list, Apt(list[k - 1])) then (Sweep(list, k - 1).0, true)
    else Sweep(list[..k - 1] + list[k..], k - 1)
  }

  /** Endpoint extensions the consumable parameters also have. */
  function SharedExtensions(exts: seq<Extension>, caps: seq<Extension>): seq<Extension> {
    if exts == [] then []
    else (if exts[0] in caps then [exts[0]] else []) + SharedExtensions(exts[1..], caps)
  }

  function ReduceAll(list: seq<Codec>, wideCc: bool, absSendTime: bool): (r: seq<Codec>)
    ensures |r| == |list|
    ensures forall i :: 0 <= i < |r| ==> r[i] == list[i].(feedback := Reduced(list[i].feedback, wideCc, absSendTime))
  {
    seq(|list|, i requires 0 <= i < |list| => list[i].(feedback := Reduced(list[i].feedback, wideCc, absSendTime)))
  }

  /** Stream identifiers are 32-bit. */
  function Uint32(n: int): (r: int)
    ensures 0 <= n < 0x1_0000_0000 ==> r == n
  {
    n % 0x1_0000_0000
  }

  /** One encoding, or for a pipe one per consumable encoding. */
  function Encodings(count: nat, pipe: bool, rtx: bool, ssrcs: Ssrcs): seq<Encoding> {
    if !pipe then [Encoding(ssrcs.media, if rtx then Uint32(ssrcs.media + 1) else 0)]
    else
      seq(count, i requires 0 <= i < count =>
        Encoding(Uint32(ssrcs.media + i), if rtx then Uint32(ssrcs.rtx + i) else 0))
  }

  predicate ValidCaps(caps: seq<Codec>) {
    forall k :: 0 <= k < |caps| ==> ValidCapability(caps[k])
  }

  function ConsumerOf(consumable: seq<Codec>, exts: seq<Extension>, encodings: nat, endpoint: Endpoint, pipe: bool,
                      ssrcs: Ssrcs, same: ProfileRelation): Outcome<Parameters> {
    if !ValidCaps(endpoint.codecs) then Err(InvalidCodec)
    else
      var matched := Matched(consumable, endpoint.codecs, same);
      var (kept, rtx) := Sweep(matched, |matched|);
      if kept == [] || IsRtx(kept[0]) then Err(NoCompatibleCodecs)
      else
        var shared := SharedExtensions(exts, endpoint.extensions);
        Ok(Parameters(ReduceAll(kept, HasUri(shared, TRANSPORT_WIDE_CC), HasUri(shared, ABS_SEND_TIME)),
                      Encodings(encodings, pipe, rtx, ssrcs)))
  }

  /** The first matched codec, if any, decides. An invalid capability is thrown. */
  function CanConsume(consumable: seq<Codec>, endpoint: Endpoint, same: ProfileRelation): Outcome<bool> {
    if !ValidCaps(endpoint.codecs) then Err(InvalidCodec)
    else if exists k :: 0 <= k < |endpoint.extensions| && endpoint.extensions[k].uri == "" then Err(InvalidExtension)
    else
      var matched := Matched(consumable, endpoint.codecs, same);
      Ok(matched != [] && !IsRtx(matched[0]))
  }

  // ----- The loops

  method FindAccepting(codec: Codec, caps: seq<Codec>, same: ProfileRelation) returns (r: nat)
    ensures r == FirstAccepting(codec, caps, same)
  {
    r := 0;
    while r < |caps| && !Match(caps[r], codec, true, same)
      invariant r <= |caps|
      invariant forall j :: 0 <= j < r ==> !Match(caps[j], codec, true, same)
    {
      r := r + 1;
    }
  }

  method MatchConsumable(consumable: seq<Codec>, caps: seq<Codec>, same: ProfileRelation) returns (r: seq<Codec>)
    ensures r == Matched(consumable, caps, same)
  {
    r := [];
    for i := 0 to |consumable|
      invariant r == Matched(consumable[..i], caps, same)
    {
      assert consumable[..i + 1][..i] == consumable[..i];
      var k := FindAccepting(consumable[i], caps, same);
      if k < |caps| {
        r := r + [consumable[i].(feedback := caps[k].feedback)];
      }
    }
    assert consumable[..|consumable|] == consumable;
  }

  method SanitizeRtx(matched: seq<Codec>) returns (codecs: seq<Codec>, rtxSupported: bool)
    ensures (codecs, rtxSupported) == Sweep(matched, |matched|)
  {
    codecs := matched;
    rtxSupported := false;
    for idx := |codecs| downto 0
      invariant idx <= |codecs|
      invariant Sweep(matched, |matched|) == (Sweep(codecs, idx).0, rtxSupported || Sweep(codecs, idx).1)
    {
      if IsRtx(codecs[idx]) {
        var apt := Apt(codecs[idx]);
        var k := 0;
        while k < |codecs| && codecs[k].pt != apt
          invariant k <= |codecs|
          invariant forall j :: 0 <= j < k ==> codecs[j].pt != apt
        {
          k := k + 1;
        }
        if k < |codecs| {
          assert Taken(codecs, apt);
          rtxSupported := true;
        } else {
          codecs := codecs[..idx] + codecs[idx + 1..];
        }
      }
    }
  }

  method ReduceCodecs(list: seq<Codec>, wideCc: bool, absSendTime: bool) returns (r: seq<Codec>)
    ensures r == ReduceAll(list, wideCc, absSendTime)
  {
    r := list;
    for i := 0 to |list|
      invariant |r| == |list|
      invariant forall j :: 0 <= j < i ==> r[j] == list[j].(feedback := Reduced(list[j].feedback, wideCc, absSendTime))
      invariant forall j :: i <= j < |list| ==> r[j] == list[j]
    {
      var fbs := RebuildFeedback(r[i].feedback, wideCc, absSendTime);
      r := r[i := r[i].(feedback := fbs)];
    }
  }

  method GetConsumerRtpParameters(consumable: seq<Codec>, exts: seq<Extension>, encodings: nat, endpoint: Endpoint,
                                  pipe: bool, ssrcs: Ssrcs, same: ProfileRelation) returns (r: Outcome<Parameters>)
    ensures r == ConsumerOf(consumable, exts, encodings, endpoint, pipe, ssrcs, same)
  {
    for i := 0 to |endpoint.codecs|
      invariant forall j :: 0 <= j < i ==> ValidCapability(endpoint.codecs[j])
    {
      if !ValidCapability(endpoint.codecs[i]) {
        return Err(InvalidCodec);
      }
    }
    var matched := MatchConsumable(consumable, endpoint.codecs, same);
    var kept, rtxSupported := SanitizeRtx(matched);
    if |kept| == 0 || IsRtx(kept[0]) {
      return Err(NoCompatibleCodecs);
    }
    var shared := SharedExtensions(exts, endpoint.extensions);
    var reduced := ReduceCodecs(kept, HasUri(shared, TRANSPORT_WIDE_CC), HasUri(shared, ABS_SEND_TIME));
    return Ok(Parameters(reduced, Encodings(encodings, pipe, rtxSupported, ssrcs)));
  }

  // ----- What matching and sanitising keep

  predicate SameIdentity(a: Codec, b: Codec) {
    a == b.(feedback := a.feedback)
  }

  /** `c` is an accepted codec of `list`, up to feedback. */
  ghost predicate AcceptedImage(c: Codec, list: seq<Codec>, caps: seq<Codec>, same: ProfileRelation) {
    exists i :: 0 <= i < |list| && SameIdentity(c, list[i]) && Accepts(list[i], caps, same)
  }

  /** The matched codecs are exactly the accepted consumable ones, up to feedback: this way ... */
  lemma {:induction false} MatchedIsAccepted(c: Codec, list: seq<Codec>, caps: seq<Codec>, same: ProfileRelation)
    requires c in Matched(list, caps, same)
    ensures AcceptedImage(c, list, caps, same)
  {
    var front, last := list[..|list| - 1], list[|list| - 1];
    if c in Matched(front, caps, same) {
      MatchedIsAccepted(c, front, caps, same);
      var i :| 0 <= i < |front| && SameIdentity(c, front[i]) && Accepts(front[i], caps, same);
      assert list[i] == front[i];
    } else {
      assert c in MatchedOne(last, caps, same);
      assert SameIdentity(c, list[|list| - 1]);
    }
  }

  /** ... and back. */
  lemma {:induction false} AcceptedIsMatched(i: nat, list: seq<Codec>, caps: seq<Codec>, same: ProfileRelation)
    requires i < |list| && Accepts(list[i], caps, same)
    ensures MatchedOne(list[i], caps, same)[0] in Matched(list, caps, same)
  {
    if i < |list| - 1 {
      AcceptedIsMatched(i, list[..|list| - 1], caps, same);
    }
  }

  /** An RTX codec is worth keeping when its apt names a media codec of `ref`. */
  predicate Keeps(c: Codec, ref: seq<Codec>) {
    IsRtx(c) ==> exists m :: 0 <= m < |ref| && !IsRtx(ref[m]) && ref[m].pt == Apt(c)
  }

  function Sanitized(list: seq<Codec>, ref: seq<Codec>): seq<Codec> {
    if list == [] then []
    else Sanitized(list[..|list| - 1], ref) + if Keeps(list[|list| - 1], ref) then [list[|list| - 1]] else []
  }

  lemma {:induction false} SanitizedMembers(list: seq<Codec>, ref: seq<Codec>)
    ensures forall c :: c in Sanitized(list, ref) <==> c in list && Keeps(c, ref)
  {
    if list != [] {
      SanitizedMembers(list[..|list| - 1], ref);
      assert list == list[..|list| - 1] + [list[|list| - 1]];
    }
  }

  /** No apt names an RTX codec. */
  predicate AptsNameMedia(list: seq<Codec>) {
    forall i, j :: 0 <= i < |list| && 0 <= j < |list| && IsRtx(list[i]) && IsRtx(list[j]) ==>
      Apt(list[i]) != list[j].pt
  }

  lemma TakenIsKept(cur: seq<Codec>, orig: seq<Codec>, c: Codec)
    requires AptsNameMedia(orig) && c in orig && IsRtx(c)
    requires HasMediaOf(cur, orig)
    ensures Taken(cur, Apt(c)) <==> Keeps(c, orig)
  {
    var i :| 0 <= i < |orig| && orig[i] == c;
    if Taken(cur, Apt(c)) {
      var k :| 0 <= k < |cur| && cur[k].pt == Apt(c);
      assert cur[k] in orig;
      var m :| 0 <= m < |orig| && orig[m] == cur[k];
    }
    if Keeps(c, orig) {
      var m :| 0 <= m < |orig| && !IsRtx(orig[m]) && orig[m].pt == Apt(c);
      assert orig[m] in cur;
      var k :| 0 <= k < |cur| && cur[k] == orig[m];
    }
  }

  /** Erasing an RTX codec leaves the media codecs. */
  lemma EraseKeepsMedia(cur: seq<Codec>, k: nat, orig: seq<Codec>)
    requires 0 < k <= |cur| && IsRtx(cur[k - 1])
    requires HasMediaOf(cur, orig)
    ensures HasMediaOf(cur[..k - 1] + cur[k..], orig)
  {
    assert cur == cur[..k - 1] + [cur[k - 1]] + cur[k..];
  }

  /** The downward loop from `k` on gives the filter of the first `k` codecs of `orig`; the flag tells of kept RTX. */
  ghost predicate SweepFilters(cur: seq<Codec>, k: nat, orig: seq<Codec>)
    requires k <= |cur| && k <= |orig|
  {
    && Sweep(cur, k).0 == Sanitized(orig[..k], orig) + cur[k..]
    && (Sweep(cur, k).1 <==> KeepsRtx(orig, k))
  }

  ghost predicate KeepsRtx(orig: seq<Codec>, k: nat)
    requires k <= |orig|
  {
    exists i :: 0 <= i < k && IsRtx(orig[i]) && Keeps(orig[i], orig)
  }

  /** Nothing foreign, and all the media codecs. */
  ghost predicate HasMediaOf(cur: seq<Codec>, orig: seq<Codec>) {
    && (forall d :: d in cur ==> d in orig)
    && (forall d :: d in orig && !IsRtx(d) ==> d in cur)
  }

  lemma SanitizedStep(orig: seq<Codec>, k: nat)
    requires 0 < k <= |orig|
    ensures Sanitized(orig[..k], orig) ==
            Sanitized(orig[..k - 1], orig) + if Keeps(orig[k - 1], orig) then [orig[k - 1]] else []
  {
    assert orig[..k][..k - 1] == orig[..k - 1];
  }

  /** A useless RTX codec is erased. */
  lemma SweepErases(cur: seq<Codec>, k: nat, orig: seq<Codec>)
    requires 0 < k <= |cur| && k <= |orig| && cur[k - 1] == orig[k - 1]
    requires IsRtx(orig[k - 1]) && !Taken(cur, Apt(orig[k - 1])) && !Keeps(orig[k - 1], orig)
    requires SweepFilters(cur[..k - 1] + cur[k..], k - 1, orig)
    ensures SweepFilters(cur, k, orig)
  {
    SanitizedStep(orig, k);
    var next := cur[..k - 1] + cur[k..];
    assert next[k - 1..] == cur[k..];
  }

  /** Any other codec stays. */
  lemma SweepPasses(cur: seq<Codec>, k: nat, orig: seq<Codec>)
    requires 0 < k <= |cur| && k <= |orig| && cur[k - 1] == orig[k - 1]
    requires IsRtx(orig[k - 1]) ==> Taken(cur, Apt(orig[k - 1])) && Keeps(orig[k - 1], orig)
    requires SweepFilters(cur, k - 1, orig)
    ensures SweepFilters(cur, k, orig)
  {
    var front := Sanitized(orig[..k - 1], orig);
    SanitizedStep(orig, k);
    assert Sweep(cur, k).0 == front + cur[k - 1..];
    assert front + cur[k - 1..] == front + [orig[k - 1]] + cur[k..] by {
      assert cur[k - 1..] == [orig[k - 1]] + cur[k..];
    }
    KeepsRtxStep(orig, k);
  }

  lemma KeepsRtxStep(orig: seq<Codec>, k: nat)
    requires 0 < k <= |orig|
    ensures KeepsRtx(orig, k) <==> KeepsRtx(orig, k - 1) || (IsRtx(orig[k - 1]) && Keeps(orig[k - 1], orig))
  {
  }

  /** The downward loop is the filter that keeps media codecs and the RTX codecs naming one of them. */
  lemma {:induction false} SweepMeaning(cur: seq<Codec>, k: nat, orig: seq<Codec>)
    requires k <= |cur| && k <= |orig| && cur[..k] == orig[..k]
    requires AptsNameMedia(orig) && HasMediaOf(cur, orig)
    ensures SweepFilters(cur, k, orig)
    decreases k
  {
    if k > 0 {
      var c := orig[k - 1];
      assert cur[k - 1] == cur[..k][k - 1] && c == orig[..k][k - 1];
      assert cur[..k - 1] == cur[..k][..k - 1] && orig[..k - 1] == orig[..k][..k - 1];
      if IsRtx(c) {
        TakenIsKept(cur, orig, c);
      }
      if IsRtx(c) && !Taken(cur, Apt(c)) {
        EraseKeepsMedia(cur, k, orig);
        var next := cur[..k - 1] + cur[k..];
        assert next[..k - 1] == cur[..k - 1];
        SweepMeaning(next, k - 1, orig);
        SweepErases(cur, k, orig);
      } else {
        SweepMeaning(cur, k - 1, orig);
        SweepPasses(cur, k, orig);
      }
    }
  }

  lemma SweepIsSanitized(list: seq<Codec>)
    requires AptsNameMedia(list)
    ensures Sweep(list, |list|).0 == Sanitized(list, list)
    ensures Sweep(list, |list|).1 <==> exists i :: 0 <= i < |list| && IsRtx(list[i]) && Keeps(list[i], list)
  {
    assert list[..|list|] == list;
    SweepMeaning(list, |list|, list);
  }

  /** A leading media codec survives the loop, whatever the list. */
  lemma {:induction false} SweepKeepsFirst(list: seq<Codec>, k: nat)
    requires k <= |list| && list != [] && !IsRtx(list[0])
    ensures Sweep(list, k).0 != [] && Sweep(list, k).0[0] == list[0]
    decreases k
  {
    if k > 0 {
      if IsRtx(list[k - 1]) && !Taken(list, Apt(list[k - 1])) {
        SweepKeepsFirst(list[..k - 1] + list[k..], k - 1);
      } else {
        SweepKeepsFirst(list, k - 1);
      }
    }
  }

  /** For any consumable codecs at all: when `canConsume` says yes, the consumer's parameters are granted. */
  lemma CanConsumeImpliesAccepted(consumable: seq<Codec>, exts: seq<Extension>, encodings: nat, endpoint: Endpoint,
                                  pipe: bool, ssrcs: Ssrcs, same: ProfileRelation)
    requires CanConsume(consumable, endpoint, same) == Ok(true)
    ensures ConsumerOf(consumable, exts, encodings, endpoint, pipe, ssrcs, same).Ok?
  {
    var matched := Matched(consumable, endpoint.codecs, same);
    SweepKeepsFirst(matched, |matched|);
  }

  // ----- The feedback of the granted codecs

  /** Position e is the endpoint's first capability that takes the codec. */
  predicate Takes(e: nat, codec: Codec, caps: seq<Codec>, same: ProfileRelation) {
    e < |caps| && Match(caps[e], codec, true, same) && forall j :: 0 <= j < e ==> !Match(caps[j], codec, true, same)
  }

  /** Both sides list the same extension under this uri. */
  ghost predicate InBoth(uri: string, exts: seq<Extension>, caps: seq<Extension>) {
    exists x :: x in exts && x in caps && x.uri == uri
  }

  /** What the endpoint offers and the extensions of both sides allow: transport-cc with its own extension, goog-remb
      with abs-send-time where transport-cc has none, and everything else. */
  ghost predicate Usable(fb: Feedback, offered: seq<Feedback>, exts: seq<Extension>, caps: seq<Extension>) {
    && fb in offered
    && (fb.kind == "transport-cc" ==> InBoth(TRANSPORT_WIDE_CC, exts, caps))
    && (fb.kind == "goog-remb" ==> InBoth(ABS_SEND_TIME, exts, caps) && !InBoth(TRANSPORT_WIDE_CC, exts, caps))
  }

  lemma {:induction false} SharedMembers(exts: seq<Extension>, caps: seq<Extension>)
    ensures forall x :: x in SharedExtensions(exts, caps) <==> x in exts && x in caps
  {
    if exts != [] {
      SharedMembers(exts[1..], caps);
      assert exts == [exts[0]] + exts[1..];
    }
  }

  lemma SharedUri(exts: seq<Extension>, caps: seq<Extension>, uri: string)
    ensures HasUri(SharedExtensions(exts, caps), uri) <==> InBoth(uri, exts, caps)
  {
    var shared := SharedExtensions(exts, caps);
    SharedMembers(exts, caps);
    if InBoth(uri, exts, caps) {
      var x :| x in exts && x in caps && x.uri == uri;
      assert x in shared;
    }
  }

  lemma ReducedIsUsable(offered: seq<Feedback>, exts: seq<Extension>, caps: seq<Extension>, fb: Feedback)
    ensures var shared := SharedExtensions(exts, caps);
      fb in Reduced(offered, HasUri(shared, TRANSPORT_WIDE_CC), HasUri(shared, ABS_SEND_TIME)) <==>
      Usable(fb, offered, exts, caps)
  {
    var shared := SharedExtensions(exts, caps);
    SharedUri(exts, caps, TRANSPORT_WIDE_CC);
    SharedUri(exts, caps, ABS_SEND_TIME);
    BandwidthEstimation(offered, HasUri(shared, TRANSPORT_WIDE_CC), HasUri(shared, ABS_SEND_TIME), fb);
    ReducedEntries(offered, HasUri(shared, TRANSPORT_WIDE_CC), HasUri(shared, ABS_SEND_TIME), fb);
  }

  lemma {:induction false} SweepMembers(list: seq<Codec>, k: nat)
    requires k <= |list|
    ensures forall c :: c in Sweep(list, k).0 ==> c in list
    decreases k
  {
    if k > 0 {
      if IsRtx(list[k - 1]) && !Taken(list, Apt(list[k - 1])) {
        SweepMembers(list[..k - 1] + list[k..], k - 1);
      } else {
        SweepMembers(list, k - 1);
      }
    }
  }

  /** `c` is the consumable codec at i with the feedback of the capability that takes it. */
  predicate Adapted(c: Codec, i: nat, e: nat, list: seq<Codec>, caps: seq<Codec>, same: ProfileRelation) {
    && i < |list| && Takes(e, list[i], caps, same)
    && SameIdentity(c, list[i]) && c.feedback == caps[e].feedback
  }

  lemma {:induction false} MatchedIsAdapted(c: Codec, list: seq<Codec>, caps: seq<Codec>, same: ProfileRelation)
    requires c in Matched(list, caps, same)
    ensures exists i: nat, e: nat :: Adapted(c, i, e, list, caps, same)
  {
    var front, n := list[..|list| - 1], |list| - 1;
    if c in Matched(front, caps, same) {
      MatchedIsAdapted(c, front, caps, same);
      var i: nat, e: nat :| Adapted(c, i, e, front, caps, same);
      assert Adapted(c, i, e, list, caps, same);
    } else {
      assert Adapted(c, n, FirstAccepting(list[n], caps, same), list, caps, same);
    }
  }

  /** `c` is granted for the consumable codec at i, which the capability at e takes first: the same codec, with exactly
      the usable entries of that capability's feedback. */
  ghost predicate GrantedFor(c: Codec, i: nat, e: nat, list: seq<Codec>, exts: seq<Extension>, endpoint: Endpoint,
                             same: ProfileRelation)
  {
    && i < |list| && Takes(e, list[i], endpoint.codecs, same)
    && SameIdentity(c, list[i])
    && forall fb :: fb in c.feedback <==> Usable(fb, endpoint.codecs[e].feedback, exts, endpoint.extensions)
  }

  /** For any consumable codecs: each granted codec has exactly the usable feedback of the first capability that takes
      it. */
  lemma GrantedFeedback(consumable: seq<Codec>, exts: seq<Extension>, encodings: nat, endpoint: Endpoint, pipe: bool,
                        ssrcs: Ssrcs, same: ProfileRelation, c: Codec)
    requires ConsumerOf(consumable, exts, encodings, endpoint, pipe, ssrcs, same).Ok?
    requires c in ConsumerOf(consumable, exts, encodings, endpoint, pipe, ssrcs, same).value.codecs
    ensures exists i: nat, e: nat :: GrantedFor(c, i, e, consumable, exts, endpoint, same)
  {
    var matched := Matched(consumable, endpoint.codecs, same);
    var kept := Sweep(matched, |matched|).0;
    SweepMembers(matched, |matched|);
    var codecs := ConsumerOf(consumable, exts, encodings, endpoint, pipe, ssrcs, same).value.codecs;
    var n :| 0 <= n < |codecs| && codecs[n] == c;
    assert kept[n] in matched;
    MatchedIsAdapted(kept[n], consumable, endpoint.codecs, same);
    var i: nat, e: nat :| Adapted(kept[n], i, e, consumable, endpoint.codecs, same);
    ReducedIsGranted(kept[n], c, i, e, consumable, exts, endpoint, same);
  }

  lemma ReducedIsGranted(kept: Codec, c: Codec, i: nat, e: nat, list: seq<Codec>, exts: seq<Extension>,
                         endpoint: Endpoint, same: ProfileRelation)
    requires Adapted(kept, i, e, list, endpoint.codecs, same)
    requires var shared := SharedExtensions(exts, endpoint.extensions);
      c == kept.(feedback := Reduced(kept.feedback, HasUri(shared, TRANSPORT_WIDE_CC), HasUri(shared, ABS_SEND_TIME)))
    ensures GrantedFor(c, i, e, list, exts, endpoint, same)
  {
    forall fb ensures fb in c.feedback <==> Usable(fb, endpoint.codecs[e].feedback, exts, endpoint.extensions) {
      ReducedIsUsable(kept.feedback, exts, endpoint.extensions, fb);
    }
  }
}
