/** Runs of all four stages on which `canConsume`, the negotiation and the acceptance of some media codec part. */
module NegotiationLimits {
  import opened Rtp
  import opened RouterCapabilities
  import opened ProducerMapping
  import opened Consumable
  import opened Consumer
  import opened Negotiation
  import opened SupportedCodecs

  // ----- The first three stages, for two video codecs

  /** What the router makes of a supported codec. */
  function Placed(supported: Codec, media: Codec, pt: int): Codec {
    supported.(pt := pt, parameters := supported.parameters + media.parameters)
  }

  /** A video codec without payload type, supported at position k of the table. */
  predicate PlainVideo(media: Codec, table: seq<Codec>, k: nat, same: ProfileRelation) {
    && ValidCapability(media) && media.pt == 0
    && k < |table| && FirstMatch(Normalize(media), table, false, same) == k
    && table[k].pt == 0 && table[k].kind == "video"
  }

  lemma PlaceVideo(media: Codec, st: Allocation, table: seq<Codec>, k: nat, same: ProfileRelation)
    requires PlainVideo(media, table, k, same) && |st.pool| >= 2 && !Taken(st.codecs, st.pool[0])
    ensures var c := Placed(table[k], media, st.pool[0]);
      AllocateOne(media, st, table, same) == Ok(Allocation(st.codecs + [c, RtxFor(c, st.pool[1])], st.pool[2..]))
  {
    AllocateOneIsAppend(media, st, table, same);
    assert st.pool[1..][0] == st.pool[1] && st.pool[1..][1..] == st.pool[2..];
  }

  function Pair(supported: Codec, media: Codec, pt: int): seq<Codec> {
    [Placed(supported, media, pt), RtxFor(Placed(supported, media, pt), pt + 1)]
  }

  /** Placing one more video codec. */
  lemma AllocatePair(media: seq<Codec>, st: Allocation, table: seq<Codec>, k: nat, same: ProfileRelation)
    requires media != [] && PlainVideo(media[0], table, k, same) && |st.pool| >= 2 && st.pool[1] == st.pool[0] + 1
    requires !Taken(st.codecs, st.pool[0])
    ensures Allocate(media, st, table, same) ==
            Allocate(media[1..], Allocation(st.codecs + Pair(table[k], media[0], st.pool[0]), st.pool[2..]), table,
                     same)
  {
    PlaceVideo(media[0], st, table, k, same);
  }

  lemma RouterOfOne(media: Codec, table: seq<Codec>, k: nat, same: ProfileRelation)
    requires PlainVideo(media, table, k, same)
    ensures RouterCodecs([media], table, same) == Ok(Pair(table[k], media, 100))
  {
    var pool := DynamicPayloadTypes();
    assert pool[0] == 100 && pool[1] == 101;
    AllocatePair([media], START, table, k, same);
    assert [media][1..] == [];
    assert START.codecs + Pair(table[k], media, 100) == Pair(table[k], media, 100);
  }

  lemma RouterOfTwo(a: Codec, b: Codec, table: seq<Codec>, j: nat, k: nat, same: ProfileRelation)
    requires PlainVideo(a, table, j, same) && PlainVideo(b, table, k, same)
    ensures RouterCodecs([a, b], table, same) == Ok(Pair(table[j], a, 100) + Pair(table[k], b, 102))
  {
    var pool := DynamicPayloadTypes();
    assert pool[0] == 100 && pool[1] == 101 && pool[2..][0] == 102 && pool[2..][1] == 103;
    AllocatePair([a, b], START, table, j, same);
    assert [a, b][1..] == [b] && [b][1..] == [];
    assert START.codecs + Pair(table[j], a, 100) == Pair(table[j], a, 100);
    AllocatePair([b], Allocation(Pair(table[j], a, 100), pool[2..]), table, k, same);
  }

  lemma MediaStep(codecs: seq<Codec>, caps: seq<Codec>, acc: CapOf, same: ProfileRelation)
    requires codecs != [] && !IsRtx(codecs[0]) && FirstMatch(codecs[0], caps, true, same) < |caps|
    ensures MapMedia(codecs, caps, acc, same) ==
            MapMedia(codecs[1..], caps, acc[codecs[0].pt := caps[FirstMatch(codecs[0], caps, true, same)]], same)
  {
  }

  lemma {:induction false} NoRtxKept(codecs: seq<Codec>, all: seq<Codec>, caps: seq<Codec>, acc: CapOf)
    requires forall i :: 0 <= i < |codecs| ==> !IsRtx(codecs[i])
    ensures MapRtx(codecs, all, caps, acc) == Ok(acc)
  {
    if codecs != [] {
      NoRtxKept(codecs[1..], all, caps, acc);
    }
  }

  lemma MappingOfTwo(p: Codec, q: Codec, caps: seq<Codec>, j: nat, k: nat, same: ProfileRelation)
    requires !IsRtx(p) && !IsRtx(q) && p.pt != q.pt && j < |caps| && k < |caps|
    requires FirstMatch(p, caps, true, same) == j && FirstMatch(q, caps, true, same) == k
    ensures ProducerMappingOf([p, q], caps, same) == Ok(map[p.pt := caps[j].pt, q.pt := caps[k].pt])
  {
    var all := [p, q];
    assert all[1..] == [q] && [q][1..] == [];
    MediaStep(all, caps, map[], same);
    MediaStep([q], caps, map[p.pt := caps[j]], same);
    var acc: CapOf := map[p.pt := caps[j]][q.pt := caps[k]];
    assert MapMedia(all, caps, map[], same) == Ok(acc);
    NoRtxKept(all, all, caps, acc);
    PayloadsOfTwo(p.pt, caps[j], q.pt, caps[k]);
  }

  lemma PayloadsOfTwo(x: int, c: Codec, y: int, d: Codec)
    requires x != y
    ensures Payloads(map[x := c][y := d]) == map[x := c.pt, y := d.pt]
  {
  }

  lemma GroupOf(p: Codec, caps: seq<Codec>, mapping: Mapping, k: nat)
    requires RouterShape(caps) && k + 1 < |caps| && !IsRtx(caps[k]) && caps[k].kind == "video"
    requires p.pt in mapping && mapping[p.pt] == caps[k].pt
    ensures Group(p, caps, mapping) == [MediaOf(p, caps[k]), RtxOf(caps[k + 1])]
  {
    assert FirstWithPt(caps, caps[k].pt) == k;
    var j := FirstRtxFor(caps, caps[k].pt);
    ExactlyOneRtx(caps, k, k + 1);
    if j < |caps| {
      ExactlyOneRtx(caps, k, j);
    }
  }

  /** The consumable list of two producer codecs matched with video codecs of the router. */
  lemma ConsumableOfTwo(p: Codec, q: Codec, caps: seq<Codec>, j: nat, k: nat, same: ProfileRelation)
    requires RouterShape(caps) && !IsRtx(p) && !IsRtx(q) && p.pt != q.pt
    requires j + 1 < |caps| && !IsRtx(caps[j]) && caps[j].kind == "video" && FirstMatch(p, caps, true, same) == j
    requires k + 1 < |caps| && !IsRtx(caps[k]) && caps[k].kind == "video" && FirstMatch(q, caps, true, same) == k
    ensures var mapping := ProducerMappingOf([p, q], caps, same);
      mapping.Ok? && ConsumableOf([p, q], caps, mapping.value) ==
        [MediaOf(p, caps[j]), RtxOf(caps[j + 1]), MediaOf(q, caps[k]), RtxOf(caps[k + 1])]
  {
    MappingOfTwo(p, q, caps, j, k, same);
    var mapping := ProducerMappingOf([p, q], caps, same).value;
    GroupOf(p, caps, mapping, j);
    GroupOf(q, caps, mapping, k);
    assert [p, q][1..] == [q] && [q][1..] == [];
    assert ConsumableOf([q], caps, mapping) == Group(q, caps, mapping);
  }

  // ----- The last stage

  /** An endpoint with two capabilities refuses `m`, and accepts `r` and `s` with the first one and `n` with the
      second. */
  predicate RefusesFirst(m: Codec, r: Codec, n: Codec, s: Codec, e: Codec, f: Codec, same: ProfileRelation) {
    && !IsRtx(m) && IsRtx(r) && !IsRtx(n) && IsRtx(s)
    && !Match(e, m, true, same) && !Match(f, m, true, same)
    && Match(e, r, true, same) && Match(e, s, true, same) && Match(f, n, true, same)
  }

  lemma Parting(m: Codec, r: Codec, n: Codec, s: Codec, e: Codec, f: Codec, same: ProfileRelation)
    requires RefusesFirst(m, r, n, s, e, f, same)
    ensures var list, caps := [m, r, n, s], [e, f];
      && LeadsWithRtx(list, caps, same) && SomeMediaAccepted(list, caps, same)
      && (LeadsWithMedia(list, caps, same) <==> Apt(r) != n.pt)
  {
    var list, caps := [m, r, n, s], [e, f];
    assert caps[0] == e && caps[1] == f;
    assert list[0] == m && list[1] == r && list[2] == n && list[3] == s;
    assert !Accepts(m, caps, same) && Accepts(r, caps, same) && Accepts(n, caps, same) && Accepts(s, caps, same);
    assert FirstAccepted(list, 1, caps, same);
    if Apt(r) != n.pt {
      assert !Useful(list, 0, caps, same) && !Useful(list, 1, caps, same) && Useful(list, 2, caps, same);
      assert FirstUseful(list, 2, caps, same);
    } else {
      assert Resolves(list, Apt(r), caps, same);
      assert !Useful(list, 0, caps, same) && FirstUseful(list, 1, caps, same);
      FirstUsefulUnique(list, 1, caps, same);
    }
  }

  /** Such a list: `canConsume` says no, some media codec is accepted, and the consumer is granted
      exactly if the first RTX codec does not name the accepted media codec. */
  lemma PartsBehindRefused(m: Codec, r: Codec, n: Codec, s: Codec, e: Codec, f: Codec, same: ProfileRelation)
    requires Grouped([m, r, n, s]) && RtxApart([m, r, n, s])
    requires RefusesFirst(m, r, n, s, e, f, same) && ValidCapability(e) && ValidCapability(f)
    ensures var endpoint := Endpoint([e, f], []);
      var outcome := ConsumerOf([m, r, n, s], [], 1, endpoint, false, SSRCS, same);
      && ValidCaps(endpoint.codecs) && SomeMediaAccepted([m, r, n, s], endpoint.codecs, same)
      && CanConsume([m, r, n, s], endpoint, same) == Ok(false)
      && if Apt(r) != n.pt then outcome.Ok? else outcome == Err(NoCompatibleCodecs)
  {
    var list, caps := [m, r, n, s], [e, f];
    assert caps[0] == e && caps[1] == f;
    Parting(m, r, n, s, e, f, same);
    PassesIffLeads(list, caps, same);
    MatchedLead(list, caps, same);
  }

  lemma Staged(media: seq<Codec>, table: seq<Codec>, producer: seq<Codec>, caps: seq<Codec>, same: ProfileRelation)
    requires RouterCodecs(media, table, same) == Ok(caps) && ProducerMappingOf(producer, caps, same).Ok?
    ensures ConsumableFor(media, table, producer, same) ==
            Ok(ConsumableOf(producer, caps, ProducerMappingOf(producer, caps, same).value))
  {
  }

  // ----- Concrete codecs

  function Video(kind: string, mime: string, pt: int, parameters: Rtp.Parameters): Codec {
    Codec(kind, mime, pt, 90000, 0, parameters, [])
  }

  const SSRCS := Ssrcs(100_000_000, 100_000_000)

  predicate VideoMime(mime: string) {
    mime == "video/VP8" || mime == "video/VP9" || mime == "video/H264"
  }

  lemma NotRtx(c: Codec)
    requires VideoMime(c.mime)
    ensures !IsRtx(c) && Lower(c.mime) != "audio/opus" && Lower(c.mime) != "video/rtx" && Lower(c.mime)[0] == 'v'
  {
    assert Lower(c.mime)[6] == 'v' || Lower(c.mime)[6] == 'h';
    assert "video/rtx"[6] == 'r' && "audio/rtx"[0] == 'a' && "audio/opus"[0] == 'a';
  }

  lemma RtxMime(c: Codec)
    requires c.mime == "video" + "/rtx"
    ensures IsRtx(c) && Lower(c.mime) == "video/rtx"
  {
    assert "video" + "/rtx" == "video/rtx";
  }

  lemma MimesDiffer()
    ensures Lower("video/VP8") != Lower("video/VP9") && Lower("video/VP8") != Lower("video/H264")
    ensures Lower("video/VP9") != Lower("video/H264")
    ensures Lower("video/VP8") != "video/h264" && Lower("video/VP8") != "video/vp9"
    ensures Lower("video/VP9") != "video/h264"
    ensures Lower("video/H264") != "video/vp9"
  {
    assert Lower("video/VP8")[8] == '8' && Lower("video/VP9")[8] == '9' && "video/vp9"[8] == '9';
    assert |Lower("video/H264")| == 10 && |"video/vp9"| == 9 && |"video/h264"| == 10;
  }

  lemma OtherMime(a: Codec, b: Codec, strict: bool, same: ProfileRelation)
    requires Lower(a.mime) != Lower(b.mime)
    ensures !Match(a, b, strict, same)
  {
  }

  lemma OtherVideo(a: Codec, b: Codec, strict: bool, same: ProfileRelation)
    requires VideoMime(a.mime) && VideoMime(b.mime) && a.mime != b.mime
    ensures !Match(a, b, strict, same)
  {
    MimesDiffer();
  }

  lemma Vp8Match(a: Codec, b: Codec, strict: bool, same: ProfileRelation)
    requires a.mime == b.mime == "video/VP8" && a.clockRate == b.clockRate
    ensures Match(a, b, strict, same)
  {
    NotRtx(a);
    MimesDiffer();
  }

  lemma Vp9Match(a: Codec, b: Codec, strict: bool, same: ProfileRelation)
    requires a.mime == b.mime == "video/VP9" && a.clockRate == b.clockRate && (strict ==> ProfileId(a) == ProfileId(b))
    ensures Match(a, b, strict, same)
  {
    NotRtx(a);
    MimesDiffer();
  }

  lemma H264Match(a: Codec, b: Codec, strict: bool, same: ProfileRelation)
    requires a.mime == b.mime == "video/H264" && a.clockRate == b.clockRate
    requires PacketizationMode(a) == PacketizationMode(b)
    ensures Match(a, b, strict, same) <==> (strict ==> same(a.parameters, b.parameters))
  {
    NotRtx(a);
    MimesDiffer();
    assert Lower("video/H264") == "video/h264";
  }

  lemma RtxMatch(a: Codec, b: Codec, strict: bool, same: ProfileRelation)
    requires a.mime == b.mime == "video/rtx" && a.clockRate == b.clockRate
    ensures Match(a, b, strict, same)
  {
    assert Lower("video/rtx") == "video/rtx" && "video/rtx"[0] != "audio/opus"[0];
    assert "video/rtx"[6] == 'r' && "video/h264"[6] == 'h' && "video/vp9"[6] == 'v';
  }

  lemma VideoIsValid(kind: string, mime: string, parameters: Rtp.Parameters)
    requires mime == "video/VP8" || mime == "video/VP9" || mime == "video/H264" || mime == "video/rtx"
    requires "apt" in parameters ==> parameters["apt"].Number?
    ensures ValidCapability(Video(kind, mime, 0, parameters))
    ensures Normalize(Video(kind, mime, 0, parameters)) == Video(kind, mime, 0, parameters)
  {
    assert mime[..6] == "video/" && Lower("video/") == "video/";
    assert mime[0] == 'v' && "audio/"[0] == 'a';
  }

  /** The audio codecs come first, then VP8, VP9 and H264. */
  predicate Begins(table: seq<Codec>) {
    && |table| >= 22 && (forall j :: 0 <= j < 19 ==> table[j].mime != "" && table[j].mime[0] == 'a')
    && table[19].mime == "video/VP8" && table[20].mime == "video/VP9" && table[21].mime == "video/H264"
    && table[19].clockRate == table[20].clockRate == table[21].clockRate == 90000
    && PacketizationMode(table[21]) == 1
  }

  lemma TableBegins()
    ensures Begins(Table())
  {
    VideoEntries();
    forall j | 0 <= j < 19 ensures Table()[j].mime != "" && Table()[j].mime[0] == 'a' {
      assert Table()[j] == AudioTable()[j];
    }
  }

  lemma AudioDoesNotMatch(c: Codec, table: seq<Codec>, same: ProfileRelation)
    requires Begins(table) && Lower(c.mime) != "" && Lower(c.mime)[0] == 'v'
    ensures forall j :: 0 <= j < 19 ==> !Match(c, table[j], false, same)
  {
    forall j | 0 <= j < 19 ensures !Match(c, table[j], false, same) {
      assert Lower(table[j].mime)[0] == 'a';
    }
  }

  lemma FirstAt(c: Codec, table: seq<Codec>, k: nat, strict: bool, same: ProfileRelation)
    requires k < |table| && Match(c, table[k], strict, same)
    requires forall j :: 0 <= j < k ==> !Match(c, table[j], strict, same)
    ensures FirstMatch(c, table, strict, same) == k
  {
  }

  /** The first entries of the video table. */
  lemma VideoEntries()
    ensures |VideoTable()| == 6 && forall j :: 0 <= j < 6 ==> Table()[19 + j] == VideoTable()[j]
    ensures VideoTable()[0].mime == "video/VP8" && VideoTable()[1].mime == "video/VP9"
    ensures VideoTable()[2].mime == "video/H264"
    ensures forall k :: 0 <= k < 3 ==>
      VideoTable()[k].clockRate == 90000 && VideoTable()[k].pt == 0 && VideoTable()[k].kind == "video"
    ensures VideoTable()[0].parameters == map[] == VideoTable()[1].parameters
    ensures VideoTable()[2].parameters == Packetization(1) && PacketizationMode(VideoTable()[2]) == 1
  {
  }

  lemma Vp8InTable(c: Codec, table: seq<Codec>, same: ProfileRelation)
    requires Begins(table) && c.clockRate == 90000 && c.mime == "video/VP8"
    ensures FirstMatch(c, table, false, same) == 19
  {
    NotRtx(c);
    AudioDoesNotMatch(c, table, same);
    Vp8Match(c, table[19], false, same);
    FirstAt(c, table, 19, false, same);
  }

  lemma Vp9InTable(c: Codec, table: seq<Codec>, same: ProfileRelation)
    requires Begins(table) && c.clockRate == 90000 && c.mime == "video/VP9"
    ensures FirstMatch(c, table, false, same) == 20
  {
    NotRtx(c);
    AudioDoesNotMatch(c, table, same);
    OtherVideo(c, table[19], false, same);
    Vp9Match(c, table[20], false, same);
    FirstAt(c, table, 20, false, same);
  }

  lemma H264InTable(c: Codec, table: seq<Codec>, same: ProfileRelation)
    requires Begins(table) && c.clockRate == 90000 && c.mime == "video/H264" && PacketizationMode(c) == 1
    ensures FirstMatch(c, table, false, same) == 21
  {
    NotRtx(c);
    AudioDoesNotMatch(c, table, same);
    OtherVideo(c, table[19], false, same);
    OtherVideo(c, table[20], false, same);
    H264Match(c, table[21], false, same);
    FirstAt(c, table, 21, false, same);
  }

  // ----- canConsume says no where the negotiation grants the consumer

  function Vp8(kind: string, pt: int): Codec {
    Video(kind, "video/VP8", pt, map[])
  }

  function Vp9(kind: string, pt: int): Codec {
    Video(kind, "video/VP9", pt, map[])
  }

  function RtxCapability(): Codec {
    Video("video", "video/rtx", 97, map["apt" := Number(96)])
  }

  /** A router with VP8 and VP9, each with its RTX codec. */
  lemma TwoCodecRouter(same: ProfileRelation)
    ensures RouterCodecs([Vp8("video", 0), Vp9("video", 0)], Table(), same) ==
            Ok(TwoCodecCaps())
  {
    VideoIsValid("video", "video/VP8", map[]);
    VideoIsValid("video", "video/VP9", map[]);
    TableBegins();
    Vp8InTable(Vp8("video", 0), Table(), same);
    Vp9InTable(Vp9("video", 0), Table(), same);
    VideoEntries();
    RouterOfTwo(Vp8("video", 0), Vp9("video", 0), Table(), 19, 20, same);
  }

  function TwoCodecCaps(): (caps: seq<Codec>)
    ensures |caps| == 4
  {
    Pair(VideoTable()[0], Vp8("video", 0), 100) + Pair(VideoTable()[1], Vp9("video", 0), 102)
  }

  lemma TwoCodecCapsAre(caps: seq<Codec>)
    requires caps == TwoCodecCaps()
    ensures caps[0].mime == "video/VP8" && caps[2].mime == "video/VP9"
    ensures caps[1].mime == caps[3].mime == "video" + "/rtx"
    ensures forall k :: 0 <= k < 4 ==> caps[k].clockRate == 90000 && caps[k].kind == "video" && caps[k].pt == 100 + k
    ensures ProfileId(caps[2]) == "0" && Apt(RtxOf(caps[1])) == 100
  {
    VideoEntries();
    assert caps[0] == Placed(VideoTable()[0], Vp8("video", 0), 100);
    assert caps[1] == RtxFor(caps[0], 101);
    assert caps[2] == Placed(VideoTable()[1], Vp9("video", 0), 102);
    assert caps[3] == RtxFor(caps[2], 103);
  }

  lemma TwoCodecMatches(caps: seq<Codec>, same: ProfileRelation)
    requires caps == TwoCodecCaps()
    ensures FirstMatch(Vp8("", 96), caps, true, same) == 0 && FirstMatch(Vp9("", 98), caps, true, same) == 2
    ensures !IsRtx(caps[0]) && !IsRtx(caps[2]) && !IsRtx(Vp8("", 96)) && !IsRtx(Vp9("", 98))
  {
    TwoCodecCapsAre(caps);
    NotRtx(caps[0]);
    NotRtx(caps[2]);
    NotRtx(Vp8("", 96));
    NotRtx(Vp9("", 98));
    RtxMime(caps[1]);
    Vp8Match(Vp8("", 96), caps[0], true, same);
    FirstAt(Vp8("", 96), caps, 0, true, same);
    OtherVideo(Vp9("", 98), caps[0], true, same);
    OtherMime(Vp9("", 98), caps[1], true, same);
    Vp9Match(Vp9("", 98), caps[2], true, same);
    FirstAt(Vp9("", 98), caps, 2, true, same);
  }

  /** The consumable list: VP8 100, RTX 101, VP9 102, RTX 103. */
  lemma TwoCodecStages(same: ProfileRelation)
    ensures var caps := TwoCodecCaps();
      ConsumableFor([Vp8("video", 0), Vp9("video", 0)], Table(), [Vp8("", 96), Vp9("", 98)], same) ==
      Ok([MediaOf(Vp8("", 96), caps[0]), RtxOf(caps[1]), MediaOf(Vp9("", 98), caps[2]), RtxOf(caps[3])])
  {
    var caps := TwoCodecCaps();
    TwoCodecRouter(same);
    TableIsOk();
    RouterCapabilitiesTheorem([Vp8("video", 0), Vp9("video", 0)], Table(), same);
    TwoCodecMatches(caps, same);
    TwoCodecCapsAre(caps);
    ConsumableOfTwo(Vp8("", 96), Vp9("", 98), caps, 0, 2, same);
    Staged([Vp8("video", 0), Vp9("video", 0)], Table(), [Vp8("", 96), Vp9("", 98)], caps, same);
  }

  /** VP8 and VP9, each with RTX, offered to an endpoint with VP9 and RTX: `canConsume` says no, and the negotiation
      grants the consumer. */
  lemma CanConsumeTooStrict(same: ProfileRelation)
    ensures var media, producer := [Vp8("video", 0), Vp9("video", 0)], [Vp8("", 96), Vp9("", 98)];
      var stages := ConsumableFor(media, Table(), producer, same);
      var endpoint := Endpoint([RtxCapability(), Vp9("video", 96)], []);
      && stages.Ok?
      && CanConsume(stages.value, endpoint, same) == Ok(false)
      && ConsumerOf(stages.value, [], 1, endpoint, false, SSRCS, same).Ok?
  {
    var media, producer := [Vp8("video", 0), Vp9("video", 0)], [Vp8("", 96), Vp9("", 98)];
    var caps := TwoCodecCaps();
    TwoCodecStages(same);
    TwoCodecCapsAre(caps);
    TwoCodecRefused(caps, same);
    TableIsOk();
    CapabilitiesValid();
    ConsumableForShape(media, Table(), producer, same);
    PartsBehindRefused(MediaOf(Vp8("", 96), caps[0]), RtxOf(caps[1]), MediaOf(Vp9("", 98), caps[2]), RtxOf(caps[3]),
                       RtxCapability(), Vp9("video", 96), same);
  }

  lemma CapabilitiesValid()
    ensures ValidCapability(RtxCapability()) && ValidCapability(Vp9("video", 96))
    ensures ValidCapability(H264("video", 96, "640032"))
  {
    VideoIsValid("video", "video/rtx", map["apt" := Number(96)]);
    VideoIsValid("video", "video/VP9", map[]);
    VideoIsValid("video", "video/H264", H264("video", 0, "640032").parameters);
    assert RtxCapability() == Video("video", "video/rtx", 0, map["apt" := Number(96)]).(pt := 97);
    assert Vp9("video", 96) == Video("video", "video/VP9", 0, map[]).(pt := 96);
    assert H264("video", 96, "640032") ==
      Video("video", "video/H264", 0, H264("video", 0, "640032").parameters).(pt := 96);
  }

  lemma TwoCodecRefused(caps: seq<Codec>, same: ProfileRelation)
    requires caps == TwoCodecCaps()
    ensures RefusesFirst(MediaOf(Vp8("", 96), caps[0]), RtxOf(caps[1]), MediaOf(Vp9("", 98), caps[2]), RtxOf(caps[3]),
                         RtxCapability(), Vp9("video", 96), same)
    ensures MediaOf(Vp9("", 98), caps[2]).pt == 102
  {
    TwoCodecCapsAre(caps);
    assert "video" + "/rtx" == "video/rtx";
    var m, r, n, s := MediaOf(Vp8("", 96), caps[0]), RtxOf(caps[1]), MediaOf(Vp9("", 98), caps[2]), RtxOf(caps[3]);
    var e, f := RtxCapability(), Vp9("video", 96);
    RtxMime(e);
    RtxMime(r);
    RtxMime(s);
    NotRtx(m);
    NotRtx(n);
    OtherMime(e, m, true, same);
    OtherVideo(f, m, true, same);
    RtxMatch(e, r, true, same);
    RtxMatch(e, s, true, same);
    Vp9Match(f, n, true, same);
  }

  // ----- An arbitrary profile relation: a media codec is accepted, and the negotiation is refused

  /** The H264 profile text. */
  function Profile(p: Rtp.Parameters): string {
    if "profile-level-id" in p && p["profile-level-id"].Text? then p["profile-level-id"].s else ""
  }

  /** A profile relation that is not transitive: one profile goes with every other. */
  predicate Near(a: Rtp.Parameters, b: Rtp.Parameters) {
    Profile(a) == Profile(b) || Profile(a) == "4d0032" || Profile(b) == "4d0032"
  }

  function H264(kind: string, pt: int, profile: string): Codec {
    Video(kind, "video/H264", pt, map["packetization-mode" := Number(1), "profile-level-id" := Text(profile)])
  }

  lemma OneCodecRouter()
    ensures RouterCodecs([H264("video", 0, "4d0032")], Table(), Near) ==
            Ok(OneCodecCaps())
  {
    var c := H264("video", 0, "4d0032");
    VideoIsValid("video", "video/H264", c.parameters);
    TableBegins();
    H264InTable(c, Table(), Near);
    VideoEntries();
    RouterOfOne(c, Table(), 21, Near);
  }

  function OneCodecCaps(): (caps: seq<Codec>)
    ensures |caps| == 2
  {
    Pair(VideoTable()[2], H264("video", 0, "4d0032"), 100)
  }

  lemma OneCodecCapsAre(caps: seq<Codec>)
    requires caps == OneCodecCaps()
    ensures caps[0].mime == "video/H264" && caps[1].mime == "video" + "/rtx"
    ensures forall k :: 0 <= k < 2 ==> caps[k].clockRate == 90000 && caps[k].kind == "video" && caps[k].pt == 100 + k
    ensures Profile(caps[0].parameters) == "4d0032" && PacketizationMode(caps[0]) == 1 && Apt(RtxOf(caps[1])) == 100
  {
    VideoEntries();
    assert caps[0] == Placed(VideoTable()[2], H264("video", 0, "4d0032"), 100);
    assert caps[1] == RtxFor(caps[0], 101);
  }

  lemma H264Is(kind: string, pt: int, profile: string)
    ensures var c := H264(kind, pt, profile);
      c.mime == "video/H264" && c.clockRate == 90000 && PacketizationMode(c) == 1 && Profile(c.parameters) == profile
  {
  }

  lemma OneCodecMatches(caps: seq<Codec>, pt: int, profile: string)
    requires caps == OneCodecCaps()
    ensures FirstMatch(H264("", pt, profile), caps, true, Near) == 0
    ensures !IsRtx(H264("", pt, profile)) && !IsRtx(caps[0])
  {
    var c := H264("", pt, profile);
    OneCodecCapsAre(caps);
    H264Is("", pt, profile);
    NotRtx(c);
    NotRtx(caps[0]);
    H264Match(c, caps[0], true, Near);
    FirstAt(c, caps, 0, true, Near);
  }

  /** The consumable list: two H264 codecs under payload type 100, each followed by RTX 101. */
  lemma OneCodecStages()
    ensures var caps := OneCodecCaps();
      ConsumableFor([H264("video", 0, "4d0032")], Table(), [H264("", 96, "42e01f"), H264("", 98, "640032")], Near) ==
      Ok([MediaOf(H264("", 96, "42e01f"), caps[0]), RtxOf(caps[1]),
          MediaOf(H264("", 98, "640032"), caps[0]), RtxOf(caps[1])])
  {
    var caps := OneCodecCaps();
    OneCodecRouter();
    TableIsOk();
    RouterCapabilitiesTheorem([H264("video", 0, "4d0032")], Table(), Near);
    OneCodecMatches(caps, 96, "42e01f");
    OneCodecMatches(caps, 98, "640032");
    OneCodecCapsAre(caps);
    ConsumableOfTwo(H264("", 96, "42e01f"), H264("", 98, "640032"), caps, 0, 0, Near);
    Staged([H264("video", 0, "4d0032")], Table(), [H264("", 96, "42e01f"), H264("", 98, "640032")], caps, Near);
  }

  lemma OneCodecRefused(caps: seq<Codec>)
    requires caps == OneCodecCaps()
    ensures RefusesFirst(MediaOf(H264("", 96, "42e01f"), caps[0]), RtxOf(caps[1]),
                         MediaOf(H264("", 98, "640032"), caps[0]), RtxOf(caps[1]),
                         RtxCapability(), H264("video", 96, "640032"), Near)
    ensures MediaOf(H264("", 98, "640032"), caps[0]).pt == 100
  {
    OneCodecCapsAre(caps);
    assert "video" + "/rtx" == "video/rtx";
    var m, r, n := MediaOf(H264("", 96, "42e01f"), caps[0]), RtxOf(caps[1]), MediaOf(H264("", 98, "640032"), caps[0]);
    var e, f := RtxCapability(), H264("video", 96, "640032");
    H264Is("", 96, "42e01f");
    H264Is("", 98, "640032");
    H264Is("video", 96, "640032");
    RtxMime(e);
    RtxMime(r);
    NotRtx(m);
    NotRtx(n);
    OtherMime(e, m, true, Near);
    assert "42e01f"[0] != "640032"[0] && "42e01f"[1] != "4d0032"[1] && "640032"[0] != "4d0032"[0];
    H264Match(f, m, true, Near);
    RtxMatch(e, r, true, Near);
    H264Match(f, n, true, Near);
  }

  /** The acceptance theorem needs its condition on the profile relation: for one that is not transitive, which no
      comparison of parsed profiles is, and two H264 profiles under one payload type, an endpoint that accepts only the
      second one is refused, since the first RTX codec stays in front. */
  lemma UnlikeCodecsRefused()
    ensures var media, producer := [H264("video", 0, "4d0032")], [H264("", 96, "42e01f"), H264("", 98, "640032")];
      var stages := ConsumableFor(media, Table(), producer, Near);
      var endpoint := Endpoint([RtxCapability(), H264("video", 96, "640032")], []);
      && stages.Ok? && ValidCaps(endpoint.codecs) && CanConsume(stages.value, endpoint, Near) == Ok(false)
      && SomeMediaAccepted(stages.value, endpoint.codecs, Near)
      && ConsumerOf(stages.value, [], 1, endpoint, false, SSRCS, Near) == Err(NoCompatibleCodecs)
  {
    var media, producer := [H264("video", 0, "4d0032")], [H264("", 96, "42e01f"), H264("", 98, "640032")];
    var caps := OneCodecCaps();
    OneCodecStages();
    OneCodecCapsAre(caps);
    OneCodecRefused(caps);
    TableIsOk();
    CapabilitiesValid();
    ConsumableForShape(media, Table(), producer, Near);
    PartsBehindRefused(MediaOf(H264("", 96, "42e01f"), caps[0]), RtxOf(caps[1]),
                       MediaOf(H264("", 98, "640032"), caps[0]), RtxOf(caps[1]),
                       RtxCapability(), H264("video", 96, "640032"), Near);
  }
}
