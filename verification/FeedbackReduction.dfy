/** Reduction of RTCP feedback: Transport-CC where its header extension is usable, otherwise REMB, otherwise neither. */
module FeedbackReduction {
  import opened Rtp

  const TRANSPORT_WIDE_CC := "http://www.ietf.org/id/draft-holmer-rmcat-transport-wide-cc-extensions-01"
  const ABS_SEND_TIME := "http://www.webrtc.org/experiments/rtp-hdrext/abs-send-time"

  datatype Extension = Extension(uri: string, id: int)

  predicate HasUri(exts: seq<Extension>, uri: string) {
    exists k :: 0 <= k < |exts| && exts[k].uri == uri
  }

  /** Whether an entry stays, given the extensions in use. */
  predicate Survives(fb: Feedback, wideCc: bool, absSendTime: bool) {
    if wideCc then fb.kind != "goog-remb"
    else if absSendTime then fb.kind != "transport-cc"
    else fb.kind != "transport-cc" && fb.kind != "goog-remb"
  }

  function Reduced(fbs: seq<Feedback>, wideCc: bool, absSendTime: bool): seq<Feedback> {
    if fbs == [] then []
    else (if Survives(fbs[0], wideCc, absSendTime) then [fbs[0]] else []) + Reduced(fbs[1..], wideCc, absSendTime)
  }

  lemma {:induction false} ReducedConcat(a: seq<Feedback>, b: seq<Feedback>, wideCc: bool, absSendTime: bool)
    ensures Reduced(a + b, wideCc, absSendTime) == Reduced(a, wideCc, absSendTime) + Reduced(b, wideCc, absSendTime)
  {
    if a == [] {
      assert a + b == b;
    } else {
      assert (a + b)[1..] == a[1..] + b;
      ReducedConcat(a[1..], b, wideCc, absSendTime);
    }
  }

  lemma ReducedSnoc(a: seq<Feedback>, fb: Feedback, wideCc: bool, absSendTime: bool)
    ensures Reduced(a + [fb], wideCc, absSendTime) ==
            Reduced(a, wideCc, absSendTime) + if Survives(fb, wideCc, absSendTime) then [fb] else []
  {
    ReducedConcat(a, [fb], wideCc, absSendTime);
  }

  /** The consumer side rebuilds the list. */
  method RebuildFeedback(fbs: seq<Feedback>, wideCc: bool, absSendTime: bool) returns (r: seq<Feedback>)
    ensures r == Reduced(fbs, wideCc, absSendTime)
  {
    r := [];
    for i := 0 to |fbs|
      invariant r == Reduced(fbs[..i], wideCc, absSendTime)
    {
      assert fbs[..i + 1] == fbs[..i] + [fbs[i]];
      ReducedSnoc(fbs[..i], fbs[i], wideCc, absSendTime);
      if Survives(fbs[i], wideCc, absSendTime) {
        r := r + [fbs[i]];
      }
    }
    assert fbs[..|fbs|] == fbs;
  }

  /** The sending side erases from the list it iterates over. */
  method EraseFeedback(fbs: seq<Feedback>, wideCc: bool, absSendTime: bool) returns (r: seq<Feedback>)
    ensures r == Reduced(fbs, wideCc, absSendTime)
  {
    r := fbs;
    var it := 0;
    ghost var done := 0;
    while it < |r|
      invariant 0 <= it <= |r| && 0 <= done <= |fbs|
      invariant r[..it] == Reduced(fbs[..done], wideCc, absSendTime) && r[it..] == fbs[done..]
      decreases |r| - it
    {
      assert r[it] == fbs[done] by {
        assert r[it..][0] == fbs[done..][0];
      }
      assert fbs[..done + 1] == fbs[..done] + [fbs[done]];
      ReducedSnoc(fbs[..done], fbs[done], wideCc, absSendTime);
      assert r[it + 1..] == fbs[done + 1..] by {
        assert r[it..][1..] == r[it + 1..] && fbs[done..][1..] == fbs[done + 1..];
      }
      if !Survives(r[it], wideCc, absSendTime) {
        ghost var before := r;
        r := r[..it] + r[it + 1..];
        assert r[..it] == before[..it] && r[it..] == before[it + 1..];
      } else {
        assert r[..it + 1] == r[..it] + [r[it]];
        it := it + 1;
      }
      done := done + 1;
    }
    assert r[..it] == r && fbs[done..] == [] && fbs[..done] == fbs;
  }

  /** Which entries stay, with how many copies. Together with `ReducedConcat` (the order is kept) this determines
      the reduced list. */
  lemma {:induction false} ReducedEntries(fbs: seq<Feedback>, wideCc: bool, absSendTime: bool, fb: Feedback)
    ensures multiset(Reduced(fbs, wideCc, absSendTime))[fb] ==
            if Survives(fb, wideCc, absSendTime) then multiset(fbs)[fb] else 0
  {
    if fbs != [] {
      ReducedEntries(fbs[1..], wideCc, absSendTime, fb);
      assert fbs == [fbs[0]] + fbs[1..];
    }
  }

  /** Transport-CC and REMB never stay together; each stays only with its extension; everything else stays. */
  lemma BandwidthEstimation(fbs: seq<Feedback>, wideCc: bool, absSendTime: bool, fb: Feedback)
    ensures var r := Reduced(fbs, wideCc, absSendTime);
      && (fb in r && fb.kind == "transport-cc" ==> wideCc)
      && (fb in r && fb.kind == "goog-remb" ==> absSendTime && !wideCc)
      && (fb.kind != "transport-cc" && fb.kind != "goog-remb" ==> (fb in r <==> fb in fbs))
      && (fb.kind == "transport-cc" && wideCc ==> (fb in r <==> fb in fbs))
      && (fb.kind == "goog-remb" && absSendTime && !wideCc ==> (fb in r <==> fb in fbs))
  {
    ReducedEntries(fbs, wideCc, absSendTime, fb);
    var r := Reduced(fbs, wideCc, absSendTime);
    assert fb in r <==> multiset(r)[fb] > 0;
    assert fb in fbs <==> multiset(fbs)[fb] > 0;
  }
}
