/** The table of codecs the media worker supports. */
module SupportedCodecs {
  import opened Rtp
  import opened RouterCapabilities

  function Audio(mime: string, pt: int, clockRate: int, channels: int, feedback: string): Codec {
    Codec("audio", mime, pt, clockRate, channels, map[], [Feedback(feedback, "")])
  }

  function Video(mime: string, channels: int, parameters: Parameters): Codec {
    Codec("video", mime, 0, 90000, channels, parameters,
          [Feedback("nack", ""), Feedback("nack", "pli"), Feedback("ccm", "fir"), Feedback("goog-remb", ""),
           Feedback("transport-cc", "")])
  }

  function Packetization(mode: int): Parameters {
    map["packetization-mode" := Number(mode), "level-asymmetry-allowed" := Number(1)]
  }

  function AudioTable(): seq<Codec> {
    [ Audio("audio/opus", 0, 48000, 2, "transport-cc"),
      Audio("audio/PCMU", 0, 8000, 1, "transport-cc"),
      Audio("audio/PCMA", 8, 8000, 1, "transport-cc"),
      Audio("audio/ISAC", 0, 32000, 1, "transport-cc"),
      Audio("audio/ISAC", 0, 16000, 1, "transport-cc"),
      Audio("audio/G722", 9, 8000, 1, "transport-cc"),
      Audio("audio/iLBC", 0, 8000, 1, "transport-cc"),
      Audio("audio/SILK", 0, 24000, 1, "transport-cc"),
      Audio("audio/SILK", 0, 16000, 1, "transport-cc"),
      Audio("audio/SILK", 0, 12000, 1, "transport-cc"),
      Audio("audio/SILK", 0, 8000, 1, "transport-cc"),
      Audio("audio/CN", 13, 32000, 1, ""),
      Audio("audio/CN", 13, 32000, 1, ""),
      Audio("audio/CN", 13, 16000, 1, ""),
      Audio("audio/CN", 13, 8000, 1, ""),
      Audio("audio/telephone-event", 0, 48000, 1, ""),
      Audio("audio/telephone-event", 0, 32000, 1, ""),
      Audio("audio/telephone-event", 0, 16000, 1, ""),
      Audio("audio/telephone-event", 0, 8000, 1, "") ]
  }

  function VideoTable(): seq<Codec> {
    [ Video("video/VP8", 1, map[]),
      Video("video/VP9", 1, map[]),
      Video("video/H264", 0, Packetization(1)),
      Video("video/H264", 0, Packetization(0)),
      Video("video/H265", 0, Packetization(1)),
      Video("video/H265", 0, Packetization(0)) ]
  }

  function Table(): seq<Codec> {
    AudioTable() + VideoTable()
  }

  lemma AudioTableOk()
    ensures TableOk(AudioTable())
  {
  }

  lemma VideoTableOk()
    ensures TableOk(VideoTable())
  {
    var table := VideoTable();
    forall k | 0 <= k < |table| ensures !IsRtx(table[k]) {
      assert table[k].mime[6] == 'V' || table[k].mime[6] == 'H';
      assert Lower(table[k].mime)[6] != 'r' && "video/rtx"[6] == 'r' && "audio/rtx"[6] == 'r';
    }
  }

  /** The table meets what the router's payload type allocation needs. */
  lemma TableIsOk()
    ensures TableOk(Table())
  {
    AudioTableOk();
    VideoTableOk();
  }
}
