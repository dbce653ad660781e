/** `ChannelAgent::OnRead`: cuts messages out of an arbitrarily chunked stream of netstrings. */
module ChannelReader {
  import opened Netstring
  import opened Sequences

  const PAYLOAD_MAX_LEN := 4_194_304

  /** Whether the JSON parser accepts a payload. */
  type JsonTest = string -> bool

  /** What is left in the buffer, and the messages handed on. */
  datatype Drained = Drained(rest: string, messages: seq<string>)

  /** What the loop does with the start of the buffer. */
  datatype Cut = Wait | Drop | Message(payload: string, rest: string)

  function NextCut(buf: string, isJson: JsonTest): Cut {
    match Read(buf)
    case TooShort => Wait
    case Payload(start, len) =>
      ReadIsCanonical(buf);
      var payload := buf[start..start + len];
      if isJson(payload) then Message(payload, buf[BufferSize(len)..]) else Drop
    case _ => Drop
  }

  /** The buffer starts with the netstring of the message. */
  lemma CutMeaning(buf: string, isJson: JsonTest)
    requires NextCut(buf, isJson).Message?
    ensures var c := NextCut(buf, isJson);
      buf == Encode(c.payload) + c.rest && Fits(c.payload) && isJson(c.payload) && |c.rest| < |buf|
  {
    ReadIsCanonical(buf);
    var r := Read(buf);
    assert buf[r.start + r.len + 1..] == buf[BufferSize(r.len)..];
  }

  /** The parsing loop. */
  function Drain(buf: string, isJson: JsonTest): (d: Drained)
    decreases |buf|
  {
    match NextCut(buf, isJson)
    case Wait => Drained(buf, [])
    case Drop => Drained("", [])
    case Message(payload, rest) =>
      CutMeaning(buf, isJson);
      var d := Drain(rest, isJson);
      Prepend([payload], d)
  }

  predicate OccursAt(s: string, word: string, i: nat) {
    i + |word| <= |s| && s[i..i + |word|] == word
  }

  predicate Contains(s: string, word: string) {
    exists i :: 0 <= i <= |s| && OccursAt(s, word, i)
  }

  /** One read once the worker is known to run. */
  function Feed(buf: string, chunk: string, isJson: JsonTest): Drained {
    if |buf + chunk| > PAYLOAD_MAX_LEN then Drained("", []) else Drain(buf + chunk, isJson)
  }

  /** One turn of the parsing loop. */
  method CutNext(buf: string, isJson: JsonTest) returns (c: Cut)
    ensures c == NextCut(buf, isJson)
  {
    var r := NetstringRead(buf);
    match r
    case TooShort => c := Wait;
    case Payload(start, len) =>
      ReadIsCanonical(buf);
      var payload := buf[start..start + len];
      c := if isJson(payload) then Message(payload, buf[BufferSize(len)..]) else Drop;
    case _ => c := Drop;
  }

  class Reader {
    var readBuf: string
    var once: bool
    /** Payloads passed to `processMessage`, and the number of `OnRunning` notices. */
    var processed: seq<string>
    var runningNotices: nat

    constructor ()
      ensures readBuf == "" && !once && processed == [] && runningNotices == 0
    {
      readBuf, once, processed, runningNotices := "", false, [], 0;
    }

    method OnRead(chunk: string, isJson: JsonTest)
      modifies this
      ensures once == (old(once) || Contains(old(readBuf) + chunk, "running"))
      ensures runningNotices == old(runningNotices) + if once && !old(once) then 1 else 0
      ensures var d := if once && !old(once) then Drained("", []) else Feed(old(readBuf), chunk, isJson);
        readBuf == d.rest && processed == old(processed) + d.messages
    {
      readBuf := readBuf + chunk;
      if !once && Contains(readBuf, "running") {
        once := true;
        runningNotices := runningNotices + 1;
        readBuf := "";
        return;
      }
      if |readBuf| > PAYLOAD_MAX_LEN {
        readBuf := "";
        return;
      }
      ParseMessages(isJson);
    }

    /** The parsing loop of `OnRead`. */
    method ParseMessages(isJson: JsonTest)
      modifies this`readBuf, this`processed
      ensures readBuf == Drain(old(readBuf), isJson).rest
      ensures processed == old(processed) + Drain(old(readBuf), isJson).messages
    {
      ghost var all := Drain(readBuf, isJson);
      ghost var target := processed + all.messages;
      while true
        invariant Drain(readBuf, isJson).rest == all.rest
        invariant processed + Drain(readBuf, isJson).messages == target
        decreases |readBuf|
      {
        var c := CutNext(readBuf, isJson);
        if c.Wait? {
          return;
        }
        if c.Drop? {
          readBuf := "";
          return;
        }
        CutMeaning(readBuf, isJson);
        ghost var left := Drain(c.rest, isJson).messages;
        Associates(processed, [c.payload], left);
        processed := processed + [c.payload];
        readBuf := c.rest;
        assert processed + left == target;
        if |readBuf| == 0 {
          return;
        }
      }
    }
  }

  function Prepend(messages: seq<string>, d: Drained): Drained {
    Drained(d.rest, messages + d.messages)
  }

  // ----- Streams of netstrings

  function Stream(payloads: seq<string>): string {
    if payloads == [] then "" else Encode(payloads[0]) + Stream(payloads[1..])
  }

  function Concat(chunks: seq<string>): string {
    if chunks == [] then "" else chunks[0] + Concat(chunks[1..])
  }

  /** Payloads a worker can send: short enough for a netstring, and JSON. */
  predicate Sendable(payloads: seq<string>, isJson: JsonTest) {
    forall i :: 0 <= i < |payloads| ==> Fits(payloads[i]) && isJson(payloads[i])
  }

  /** `buf` is a proper prefix of the next netstring to come; empty when none is to come. */
  predicate AwaitsNext(buf: string, payloads: seq<string>) {
    if payloads == [] then buf == "" else buf < Encode(payloads[0])
  }

  /** Successive reads. */
  function Run(buf: string, chunks: seq<string>, isJson: JsonTest): Drained
    decreases |chunks|
  {
    if chunks == [] then Drained(buf, [])
    else
      var d := Feed(buf, chunks[0], isJson);
      var later := Run(d.rest, chunks[1..], isJson);
      Prepend(d.messages, later)
  }

  /** No read finds the buffer above its limit. */
  predicate WithinLimit(buf: string, chunks: seq<string>, isJson: JsonTest)
    decreases |chunks|
  {
    chunks != [] ==>
      |buf + chunks[0]| <= PAYLOAD_MAX_LEN && WithinLimit(Feed(buf, chunks[0], isJson).rest, chunks[1..], isJson)
  }

  /** What has arrived of a stream is k complete netstrings and a proper prefix of the next one. */
  ghost predicate ArrivedIs(arrived: string, payloads: seq<string>, d: Drained) {
    && |d.messages| <= |payloads| && d.messages == payloads[..|d.messages|]
    && arrived == Stream(d.messages) + d.rest
    && AwaitsNext(d.rest, payloads[|d.messages|..])
  }

  lemma {:induction false} StreamConcat(a: seq<string>, b: seq<string>)
    ensures Stream(a + b) == Stream(a) + Stream(b)
  {
    if a == [] {
      assert a + b == b;
    } else {
      assert (a + b)[1..] == a[1..] + b;
      StreamConcat(a[1..], b);
    }
  }

  /** Arrival composes: after the messages of `first`, the rest arrives as `later`. */
  lemma ArrivedThen(first: seq<string>, more: string, payloads: seq<string>, later: Drained)
    requires |first| <= |payloads| && first == payloads[..|first|]
    requires ArrivedIs(more, payloads[|first|..], later)
    ensures ArrivedIs(Stream(first) + more, payloads, Prepend(first, later))
  {
    StreamConcat(first, later.messages);
    SliceOfSlice(payloads, |first|, |later.messages|);
    Associates(Stream(first), Stream(later.messages), later.rest);
  }

  lemma SliceOfSlice(s: seq<string>, k: nat, j: nat)
    requires k + j <= |s|
    ensures s[..k] + s[k..][..j] == s[..k + j]
    ensures s[k..][j..] == s[k + j..]
  {
  }

  lemma PrefixAfter(a: string, b: string, c: string)
    requires a + b <= a + c
    ensures b <= c
  {
    assert b == (a + b)[|a|..] && c == (a + c)[|a|..];
    assert a + b == (a + c)[..|a + b|];
  }

  lemma StreamOfOne(p: string)
    ensures Stream([p]) == Encode(p)
  {
    assert Stream([p][1..]) == "";
  }

  /** Draining whatever has arrived of a stream hands on the complete payloads, in order, and keeps the rest. */
  lemma {:induction false} DrainArrived(buf: string, payloads: seq<string>, isJson: JsonTest)
    requires Sendable(payloads, isJson) && buf <= Stream(payloads)
    ensures ArrivedIs(buf, payloads, Drain(buf, isJson))
  {
    if payloads == [] {
      assert buf == "";
    } else if |buf| < |Encode(payloads[0])| {
      var e := Encode(payloads[0]);
      assert buf == e[..|buf|];
      ProperPrefixTooShort(payloads[0], |buf|);
      assert payloads[0..] == payloads && Stream([]) + buf == buf;
    } else {
      var e := Encode(payloads[0]);
      var more := buf[|e|..];
      assert buf == e + more by {
        assert buf == Stream(payloads)[..|buf|];
      }
      PrefixAfter(e, more, Stream(payloads[1..]));
      DrainArrived(more, payloads[1..], isJson);
      DrainOne(payloads[0], more, isJson);
      StreamOfOne(payloads[0]);
      ArrivedThen([payloads[0]], more, payloads, Drain(more, isJson));
    }
  }

  lemma DrainOne(payload: string, more: string, isJson: JsonTest)
    requires Fits(payload) && isJson(payload)
    ensures var d := Drain(more, isJson);
      Drain(Encode(payload) + more, isJson) == Prepend([payload], d)
  {
    CutOfEncoding(payload, more, isJson);
  }

  lemma CutOfEncoding(payload: string, more: string, isJson: JsonTest)
    requires Fits(payload) && isJson(payload)
    ensures NextCut(Encode(payload) + more, isJson) == Message(payload, more)
  {
    var buf := Encode(payload) + more;
    ReadEncoded(payload, more);
    EncodeSize(payload);
    assert buf[BufferSize(|payload|)..] == more;
  }

  /** After any reads of a prefix of the stream that stay within the limit: exactly the complete payloads have been
      handed on, once each and in order, and the buffer is a proper prefix of the next netstring. */
  lemma {:induction false} RunArrived(buf: string, chunks: seq<string>, payloads: seq<string>, isJson: JsonTest)
    requires Sendable(payloads, isJson)
    requires buf + Concat(chunks) <= Stream(payloads) && AwaitsNext(buf, payloads)
    requires WithinLimit(buf, chunks, isJson)
    ensures ArrivedIs(buf + Concat(chunks), payloads, Run(buf, chunks, isJson))
    decreases |chunks|
  {
    if chunks == [] {
      assert buf + Concat(chunks) == buf && Stream([]) + buf == buf;
      assert payloads[0..] == payloads;
    } else {
      var now := buf + chunks[0];
      var rest := Concat(chunks[1..]);
      Associates(buf, chunks[0], rest);
      assert now <= now + rest;
      DrainArrived(now, payloads, isJson);
      var d := Drain(now, isJson);
      var later := payloads[|d.messages|..];
      Associates(Stream(d.messages), d.rest, rest);
      assert Stream(payloads) == Stream(d.messages) + Stream(later) by {
        StreamConcat(d.messages, later);
        assert payloads == d.messages + later;
      }
      PrefixAfter(Stream(d.messages), d.rest + rest, Stream(later));
      RunArrived(d.rest, chunks[1..], later, isJson);
      ArrivedThen(d.messages, d.rest + rest, payloads, Run(d.rest, chunks[1..], isJson));
    }
  }

  /** Bytes handed on and bytes kept never exceed the bytes read. */
  lemma {:induction false} DrainConserves(buf: string, isJson: JsonTest)
    ensures var d := Drain(buf, isJson); |Stream(d.messages)| + |d.rest| <= |buf|
    decreases |buf|
  {
    var c := NextCut(buf, isJson);
    if c.Message? {
      CutMeaning(buf, isJson);
      DrainConserves(c.rest, isJson);
      assert ([c.payload] + Drain(c.rest, isJson).messages)[1..] == Drain(c.rest, isJson).messages;
    }
  }

  /** An overflowing read loses bytes for good. */
  lemma {:induction false} RunConserves(buf: string, chunks: seq<string>, isJson: JsonTest)
    ensures var d := Run(buf, chunks, isJson); var total := |buf| + |Concat(chunks)|;
      && |Stream(d.messages)| + |d.rest| <= total
      && (!WithinLimit(buf, chunks, isJson) ==> |Stream(d.messages)| + |d.rest| < total)
    decreases |chunks|
  {
    if chunks != [] {
      DrainConserves(buf + chunks[0], isJson);
      var d := Feed(buf, chunks[0], isJson);
      RunConserves(d.rest, chunks[1..], isJson);
      StreamConcat(d.messages, Run(d.rest, chunks[1..], isJson).messages);
    }
  }

  lemma AwaitsLess(buf: string, payloads: seq<string>)
    requires AwaitsNext(buf, payloads)
    ensures payloads == [] || |buf| < |Stream(payloads)|
  {
  }

  /** For any list of JSON payloads and any cutting of their netstrings into reads: exactly those payloads are handed
      on, and the buffer ends empty, if and only if no read finds the buffer above its limit. */
  lemma ReassemblyTheorem(payloads: seq<string>, chunks: seq<string>, isJson: JsonTest)
    requires Sendable(payloads, isJson) && Concat(chunks) == Stream(payloads)
    ensures Run("", chunks, isJson) == Drained("", payloads) <==> WithinLimit("", chunks, isJson)
  {
    assert "" + Concat(chunks) == Concat(chunks);
    RunConserves("", chunks, isJson);
    if WithinLimit("", chunks, isJson) {
      assert AwaitsNext("", payloads);
      RunArrived("", chunks, payloads, isJson);
      var d := Run("", chunks, isJson);
      var k := |d.messages|;
      StreamConcat(payloads[..k], payloads[k..]);
      assert payloads == payloads[..k] + payloads[k..] && payloads[..k] == d.messages;
      assert |d.rest| == |Stream(payloads[k..])|;
      AwaitsLess(d.rest, payloads[k..]);
    }
  }

  // ----- Recovery

  /** The buffer starts with something that is no message and never will be: malformed, or a netstring that is not
      JSON. */
  ghost predicate Broken(buf: string, isJson: JsonTest) {
    Malformed(buf) || exists payload, rest :: NotJson(buf, payload, rest, isJson)
  }

  predicate NotJson(buf: string, payload: string, rest: string, isJson: JsonTest) {
    Fits(payload) && !isJson(payload) && buf == Encode(payload) + rest
  }

  lemma BrokenIsDropped(buf: string, isJson: JsonTest)
    requires Broken(buf, isJson)
    ensures Drain(buf, isJson) == Drained("", [])
  {
    if Malformed(buf) {
      RefusedExactly(buf);
    } else {
      var payload, rest :| NotJson(buf, payload, rest, isJson);
      NotJsonIsDropped(payload, rest, isJson);
    }
  }

  lemma NotJsonIsDropped(payload: string, rest: string, isJson: JsonTest)
    requires Fits(payload) && !isJson(payload)
    ensures NextCut(Encode(payload) + rest, isJson) == Drop
  {
    ReadEncoded(payload, rest);
  }

  /** What comes before the broken part is handed on, the broken part and all behind it is dropped. */
  lemma {:induction false} DrainBroken(before: seq<string>, bad: string, isJson: JsonTest)
    requires Sendable(before, isJson) && Broken(bad, isJson)
    ensures Drain(Stream(before) + bad, isJson) == Drained("", before)
    decreases |before|
  {
    if before == [] {
      BrokenIsDropped(bad, isJson);
      assert Stream(before) + bad == bad;
    } else {
      var more := Stream(before[1..]) + bad;
      DrainBroken(before[1..], bad, isJson);
      DrainOne(before[0], more, isJson);
      Associates(Encode(before[0]), Stream(before[1..]), bad);
      assert before == [before[0]] + before[1..];
    }
  }

  /** The reader recovers: the messages before a broken part are handed on, and a stream read after it is delivered
      exactly, under the same condition as on a fresh reader. */
  lemma RecoveryTheorem(before: seq<string>, bad: string, payloads: seq<string>, chunks: seq<string>, isJson: JsonTest)
    requires Sendable(before, isJson) && Broken(bad, isJson) && |Stream(before) + bad| <= PAYLOAD_MAX_LEN
    requires Sendable(payloads, isJson) && Concat(chunks) == Stream(payloads)
    ensures Run("", [Stream(before) + bad] + chunks, isJson) == Drained("", before + payloads) <==>
            WithinLimit("", chunks, isJson)
  {
    var read := Stream(before) + bad;
    var all := [read] + chunks;
    assert all[0] == read && all[1..] == chunks && "" + read == read;
    DrainBroken(before, bad, isJson);
    ReassemblyTheorem(payloads, chunks, isJson);
    var later := Run("", chunks, isJson);
    assert Run("", all, isJson) == Drained(later.rest, before + later.messages);
    if before + later.messages == before + payloads {
      assert later.messages == (before + later.messages)[|before|..] == payloads;
    }
  }
}
