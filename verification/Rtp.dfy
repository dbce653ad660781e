/** Codec descriptions shared by the four negotiation stages, and the codec matching rules. */
module Rtp {
  import opened Decimal

  /** A codec parameter value: the JSON numbers and strings that parameter validation lets through. */
  datatype Value = Number(n: int) | Text(s: string)

  type Parameters = map<string, Value>

  datatype Feedback = Feedback(kind: string, parameter: string)

  /** A codec, as a capability (`kind` is set) or inside RTP parameters (`kind` is empty).
      `pt` is the payload type, 0 when unset; `channels` is 0 when unset. */
  datatype Codec = Codec(
    kind: string, mime: string, pt: int, clockRate: int, channels: int,
    parameters: Parameters, feedback: seq<Feedback>)

  const DEFAULT_CODEC := Codec("", "", 0, 0, 0, map[], [])

  /** What a stage throws. */
  datatype Error =
    | InvalidCodec
    | InvalidExtension
    | CannotAllocate
    | DuplicatedPayloadType
    | UnsupportedCodec
    | MissingMediaCodec
    | NoRtxCapability
    | NoCompatibleCodecs

  datatype Outcome<+T> = Ok(value: T) | Err(error: Error) {
    predicate IsFailure() {
      Err?
    }

    function PropagateFailure<U>(): Outcome<U>
      requires Err?
    {
      Err(error)
    }

    function Extract(): T
      requires Ok?
    {
      value
    }
  }

  /** The H264 profile comparison of WebRTC, left as a parameter. */
  type ProfileRelation = (Parameters, Parameters) -> bool

  ghost predicate PartialEquivalence(same: ProfileRelation) {
    && (forall a, b :: same(a, b) ==> same(b, a))
    && (forall a, b, c :: same(a, b) && same(b, c) ==> same(a, c))
  }

  /** The comparison of `IsSameH264Profile`: both texts can be parsed, and to the same profile; `profile` is negative
      where parsing fails. */
  function SameParsed(profile: Parameters -> int): ProfileRelation {
    (a, b) => profile(a) >= 0 && profile(a) == profile(b)
  }

  lemma ParsedIsEquivalence(profile: Parameters -> int)
    ensures PartialEquivalence(SameParsed(profile))
  {
  }

  function LowerChar(c: char): char {
    if 'A' <= c <= 'Z' then (c as int + 32) as char else c
  }

  function Lower(s: string): string {
    seq(|s|, i requires 0 <= i < |s| => LowerChar(s[i]))
  }

  predicate IsRtx(c: Codec) {
    Lower(c.mime) == "audio/rtx" || Lower(c.mime) == "video/rtx"
  }

  /** The associated payload type, 0 when the parameter is missing. */
  function Apt(c: Codec): int {
    if "apt" in c.parameters && c.parameters["apt"].Number? then c.parameters["apt"].n else 0
  }

  /** `get<uint8_t>` of an integer keeps its low eight bits. */
  function PacketizationMode(c: Codec): int {
    if "packetization-mode" in c.parameters && c.parameters["packetization-mode"].Number?
    then c.parameters["packetization-mode"].n % 0x100
    else 0
  }

  /** `get<int32_t>` of an integer wraps to 32 bits. */
  function Int32(n: int): int {
    (n + 0x8000_0000) % 0x1_0000_0000 - 0x8000_0000
  }

  function ProfileId(c: Codec): string {
    if "profile-id" !in c.parameters then "0"
    else match c.parameters["profile-id"]
      case Number(n) => Signed(Int32(n))
      case Text(s) => s
  }

  predicate Match(a: Codec, b: Codec, strict: bool, same: ProfileRelation) {
    && Lower(a.mime) == Lower(b.mime)
    && a.clockRate == b.clockRate
    && (Lower(a.mime) == "audio/opus" ==> a.channels == b.channels)
    && (Lower(a.mime) == "video/h264" ==>
          PacketizationMode(a) == PacketizationMode(b) && (strict ==> same(a.parameters, b.parameters)))
    && (Lower(a.mime) == "video/vp9" && strict ==> ProfileId(a) == ProfileId(b))
  }

  /** What tells codecs apart; `profile` of H264 is that of the parsed text, negative if it cannot be parsed. */
  datatype Identity =
    | Opus(clockRate: int, channels: int)
    | H264(clockRate: int, packetization: int, profile: int)
    | Vp9(clockRate: int, profileId: string)
    | Plain(mime: string, clockRate: int)

  function IdentityOf(c: Codec, profile: Parameters -> int): Identity {
    var mime := Lower(c.mime);
    if mime == "audio/opus" then Opus(c.clockRate, c.channels)
    else if mime == "video/h264" then H264(c.clockRate, PacketizationMode(c), profile(c.parameters))
    else if mime == "video/vp9" then Vp9(c.clockRate, ProfileId(c))
    else Plain(mime, c.clockRate)
  }

  /** Without the profiles. */
  function Loose(id: Identity): Identity {
    match id
    case H264(rate, packetization, _) => H264(rate, packetization, 0)
    case Vp9(rate, _) => Vp9(rate, "")
    case _ => id
  }

  /** With the comparison the code makes, strict matching is equality of identities, of H264 only with a profile that
      can be parsed; matching that is not strict leaves the profiles out. */
  lemma MatchIsIdentity(a: Codec, b: Codec, profile: Parameters -> int)
    ensures var same, x, y := SameParsed(profile), IdentityOf(a, profile), IdentityOf(b, profile);
      && (Match(a, b, true, same) <==> x == y && (x.H264? ==> x.profile >= 0))
      && (Match(a, b, false, same) <==> Loose(x) == Loose(y))
  {
    assert "video/h264"[6] != "video/vp9"[6] && "audio/opus"[0] != "video/vp9"[0];
  }

  /** Mime type "audio/..." or "video/..." in any case, with a subtype. */
  predicate ValidMime(mime: string) {
    |mime| >= 7 && (Lower(mime[..6]) == "audio/" || Lower(mime[..6]) == "video/")
  }

  predicate ValidCapability(c: Codec) {
    && ValidMime(c.mime)
    && c.clockRate != 0
    && ("apt" in c.parameters ==> c.parameters["apt"].Number?)
  }

  /** Validation gives an audio codec one channel by default and drops the channels of any other codec. */
  function Normalize(c: Codec): Codec {
    if "audio/" <= c.mime then c.(channels := if c.channels == 0 then 1 else c.channels)
    else c.(channels := 0)
  }

  /** Opus without channels counts as mono, and matches only with the channels it says: a stereo entry of a table
      supports stereo opus only. */
  lemma OpusChannels(m: Codec, t: Codec, strict: bool, same: ProfileRelation)
    requires m.mime == "audio/opus" && Lower(t.mime) == "audio/opus"
    ensures Match(Normalize(m), t, strict, same) <==>
      m.clockRate == t.clockRate && t.channels == if m.channels == 0 then 1 else m.channels
  {
    assert m.mime[..6] == "audio/" && Lower(m.mime) == "audio/opus";
    assert "audio/opus"[0] != "video/h264"[0] && "audio/opus"[0] != "video/vp9"[0];
  }

  /** The first codec of `table` that `codec` matches, |table| when there is none. */
  function FirstMatch(codec: Codec, table: seq<Codec>, strict: bool, same: ProfileRelation): (r: nat)
    ensures r <= |table|
    ensures r < |table| ==> Match(codec, table[r], strict, same)
    ensures forall j :: 0 <= j < r ==> !Match(codec, table[j], strict, same)
  {
    if table == [] then 0
    else if Match(codec, table[0], strict, same) then 0
    else 1 + FirstMatch(codec, table[1..], strict, same)
  }

  /** The loops that call `matchCodecs` until it succeeds. */
  method FindMatch(codec: Codec, table: seq<Codec>, strict: bool, same: ProfileRelation) returns (r: nat)
    ensures r == FirstMatch(codec, table, strict, same)
  {
    r := 0;
    while r < |table|
      invariant r <= |table|
      invariant forall j :: 0 <= j < r ==> !Match(codec, table[j], strict, same)
    {
      if Match(codec, table[r], strict, same) {
        break;
      }
      r := r + 1;
    }
  }
}
