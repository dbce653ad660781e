/** `RemoteSdp`: the m-lines of a remote description, their index by mid, the mirrored SDP object and the BUNDLE
    group. */
module RemoteSdp {
  import opened MediaSections
  import opened Sequences

  /** The description as a value. `media` and `bundle` are the mirrored fields of the SDP object. */
  datatype Sdp = Sdp(
    sections: seq<Section>, midToIndex: map<string, nat>, firstMid: string, media: seq<MediaObject>, bundle: string,
    ice: IceParameters, role: string, iceLite: bool)

  datatype Event =
    | Add(kind: Kind, mid: string, body: Body)
    | Replace(mid: string, reuseMid: string, body: Body)
    | CloseSection(mid: string)
    | UpdateIce(ice: IceParameters)
    | UpdateRole(role: string)

  function Start(ice: IceParameters, role: string): Sdp {
    Sdp([], map[], "", [], "", ice, role, ice.iceLite)
  }

  /** Reading a missing key of the map inserts 0. */
  function IndexOf(midToIndex: map<string, nat>, mid: string): nat {
    if mid in midToIndex then midToIndex[mid] else 0
  }

  /** The loop of `RegenerateBundleMids`, from `mids` on. */
  function BundleFrom(mids: string, sections: seq<Section>): string
    decreases |sections|
  {
    if sections == [] then mids
    else if Closed(sections[0].obj) then BundleFrom(mids, sections[1..])
    else
      var mid := sections[0].obj.mid;
      BundleFrom(if mids == "" then mid else mids + " " + mid, sections[1..])
  }

  function Objects(sections: seq<Section>): (r: seq<MediaObject>)
    ensures |r| == |sections| && forall i :: 0 <= i < |r| ==> r[i] == sections[i].obj
  {
    seq(|sections|, i requires 0 <= i < |sections| => sections[i].obj)
  }

  function IceApplied(sections: seq<Section>, ice: IceParameters): (r: seq<Section>)
    ensures |r| == |sections|
    ensures forall i :: 0 <= i < |r| ==> r[i] == sections[i].(obj := WithIce(sections[i].obj, ice))
  {
    seq(|sections|, i requires 0 <= i < |sections| => sections[i].(obj := WithIce(sections[i].obj, ice)))
  }

  function RoleApplied(sections: seq<Section>, role: string): (r: seq<Section>)
    ensures |r| == |sections|
    ensures forall i :: 0 <= i < |r| ==>
      r[i] == sections[i].(obj := WithRole(sections[i].kind, sections[i].obj, role))
  {
    seq(|sections|, i requires 0 <= i < |sections| =>
      sections[i].(obj := WithRole(sections[i].kind, sections[i].obj, role)))
  }

  /** An event that addresses a section finds one at its index. */
  predicate InRange(s: Sdp, e: Event) {
    match e
    case Replace(_, reuse, _) => IndexOf(s.midToIndex, reuse) < |s.sections|
    case CloseSection(mid) => IndexOf(s.midToIndex, mid) < |s.sections|
    case _ => true
  }

  /** `section` takes position `idx`; the mirrored object and the BUNDLE group follow. */
  function Put(s: Sdp, idx: nat, section: Section): Sdp
    requires idx < |s.sections|
  {
    var sections := s.sections[idx := section];
    s.(sections := sections, bundle := BundleFrom("", sections),
       media := if idx < |s.media| then s.media[idx := section.obj] else s.media)
  }

  /** `section` is appended. */
  function Appended(s: Sdp, section: Section): Sdp {
    var sections := s.sections + [section];
    s.(firstMid := if s.firstMid == "" then section.obj.mid else s.firstMid, sections := sections,
       midToIndex := s.midToIndex[section.obj.mid := |s.sections|], media := s.media + [section.obj],
       bundle := BundleFrom("", sections))
  }

  /** `section` takes the slot of `reuse`, whose old mid leaves the index. */
  function Reused(s: Sdp, section: Section, reuse: string): Sdp
    requires IndexOf(s.midToIndex, reuse) < |s.sections|
  {
    var idx := IndexOf(s.midToIndex, reuse);
    Put(s, idx, section).(
      midToIndex := (s.midToIndex[reuse := idx] - {s.sections[idx].obj.mid})[section.obj.mid := idx])
  }

  function Added(s: Sdp, kind: Kind, mid: string, body: Body): Sdp {
    Appended(s, NewSection(kind, mid, body, s.ice, s.role))
  }

  function Replaced(s: Sdp, mid: string, reuse: string, body: Body): Sdp
    requires IndexOf(s.midToIndex, reuse) < |s.sections|
  {
    Reused(s, NewSection(Answer, mid, body, s.ice, s.role), reuse)
  }

  /** The first section is disabled, any other one closed. */
  function Withdrawn(section: Section, disable: bool): Section {
    section.(obj := if disable then Disabled(section.obj) else ClosedObject(section.obj))
  }

  function SectionClosed(s: Sdp, mid: string): Sdp
    requires IndexOf(s.midToIndex, mid) < |s.sections|
  {
    var idx := IndexOf(s.midToIndex, mid);
    Put(s, idx, Withdrawn(s.sections[idx], mid == s.firstMid)).(midToIndex := s.midToIndex[mid := idx])
  }

  function IceUpdated(s: Sdp, ice: IceParameters): Sdp {
    var sections := IceApplied(s.sections, ice);
    s.(ice := ice, iceLite := s.iceLite || ice.iceLite, sections := sections, media := Objects(sections))
  }

  function RoleUpdated(s: Sdp, role: string): Sdp {
    var sections := RoleApplied(s.sections, role);
    s.(role := role, iceLite := s.iceLite || s.ice.iceLite, sections := sections, media := Objects(sections))
  }

  function Step(s: Sdp, e: Event): Sdp
    requires InRange(s, e)
  {
    match e
    case Add(kind, mid, body) => Added(s, kind, mid, body)
    case Replace(mid, reuse, body) => Replaced(s, mid, reuse, body)
    case CloseSection(mid) => SectionClosed(s, mid)
    case UpdateIce(ice) => IceUpdated(s, ice)
    case UpdateRole(role) => RoleUpdated(s, role)
  }

  // ----- The object

  class Description {
    var mediaSections: seq<MediaSection>
    var midToIndex: map<string, nat>
    var firstMid: string
    var media: seq<MediaObject>
    var bundle: string
    var iceParameters: IceParameters
    var role: string
    var iceLite: bool
    /** The description as a value, kept up to date by every operation. */
    ghost var now: Sdp

    /** The sections are separate objects with the values `sections`. */
    ghost predicate Holds(sections: seq<Section>)
      reads this`mediaSections, mediaSections
    {
      && |mediaSections| == |sections|
      && Distinct(mediaSections)
      && (forall i :: 0 <= i < |mediaSections| ==> mediaSections[i].Value() == sections[i])
    }

    /** The value is that of the fields and of the sections. */
    ghost predicate Valid()
      reads this, mediaSections
    {
      && Holds(now.sections) && |media| == |mediaSections|
      && now.midToIndex == midToIndex && now.firstMid == firstMid && now.media == media && now.bundle == bundle
      && now.ice == iceParameters && now.role == role && now.iceLite == iceLite
    }

    constructor (ice: IceParameters, role: string)
      ensures Valid() && now == Start(ice, role) && fresh(mediaSections)
    {
      mediaSections, midToIndex, firstMid, media, bundle := [], map[], "", [], "";
      iceParameters, this.role, iceLite := ice, role, ice.iceLite;
      now := Start(ice, role);
    }

    method RegenerateBundleMids(ghost sections: seq<Section>)
      requires Holds(sections)
      modifies this`bundle
      ensures bundle == BundleFrom("", sections)
    {
      var mids := "";
      for i := 0 to |mediaSections|
        invariant BundleFrom(mids, sections[i..]) == BundleFrom("", sections)
      {
        var section := mediaSections[i];
        assert section.Value() == sections[i] && sections[i..][1..] == sections[i + 1..];
        if section.mediaObject.port != 0 {
          var mid := section.mediaObject.mid;
          if mids == "" {
            mids := mid;
          } else {
            mids := mids + " " + mid;
          }
        }
      }
      bundle := mids;
    }

    /** The section and its mid go to the end; the very first mid is remembered. */
    method OpenSlot(section: MediaSection)
      requires Holds(now.sections) && section !in mediaSections
      modifies this`mediaSections, this`midToIndex, this`firstMid
      ensures mediaSections == old(mediaSections) + [section] && Holds(now.sections + [section.Value()])
      ensures midToIndex == old(midToIndex)[section.mediaObject.mid := |now.sections|]
      ensures firstMid == if old(firstMid) == "" then section.mediaObject.mid else old(firstMid)
    {
      var newMid := section.mediaObject.mid;
      if firstMid == "" {
        firstMid := newMid;
      }
      mediaSections := mediaSections + [section];
      midToIndex := midToIndex[newMid := |mediaSections| - 1];
    }

    method AddMediaSection(section: MediaSection)
      requires Valid() && section !in mediaSections
      modifies this
      ensures Valid() && now == Appended(old(now), section.Value())
      ensures mediaSections == old(mediaSections) + [section]
    {
      OpenSlot(section);
      media := media + [section.mediaObject];
      RegenerateBundleMids(now.sections + [section.Value()]);
      now := Appended(now, section.Value());
    }

    /** The section takes over the slot, and its mid the index; the slot's old mid is forgotten. */
    method TakeSlot(section: MediaSection, reuseMid: string, idx: nat)
      requires Holds(now.sections) && idx < |mediaSections| && section !in mediaSections
      modifies this`mediaSections, this`midToIndex
      ensures mediaSections == old(mediaSections)[idx := section] && Holds(now.sections[idx := section.Value()])
      ensures midToIndex ==
        (old(midToIndex)[reuseMid := idx] - {now.sections[idx].obj.mid})[section.mediaObject.mid := idx]
    {
      midToIndex := midToIndex[reuseMid := idx];
      var oldSection := mediaSections[idx];
      assert oldSection.Value() == now.sections[idx];
      mediaSections := mediaSections[idx := section];
      midToIndex := midToIndex - {oldSection.mediaObject.mid};
      midToIndex := midToIndex[section.mediaObject.mid := idx];
    }

    method ReplaceMediaSection(section: MediaSection, reuseMid: string)
      requires Valid() && section !in mediaSections && IndexOf(midToIndex, reuseMid) < |mediaSections|
      modifies this
      ensures Valid() && now == Reused(old(now), section.Value(), reuseMid)
      ensures mediaSections == old(mediaSections)[IndexOf(old(midToIndex), reuseMid) := section]
    {
      var idx := IndexOf(midToIndex, reuseMid);
      TakeSlot(section, reuseMid, idx);
      media := media[idx := section.mediaObject];
      RegenerateBundleMids(now.sections[idx := section.Value()]);
      now := Reused(now, section.Value(), reuseMid);
    }

    /** `Send`: a non-empty reuseMid names the section to replace. */
    method Send(mid: string, reuseMid: string, body: Body)
      requires Valid() && (reuseMid != "" ==> IndexOf(midToIndex, reuseMid) < |mediaSections|)
      modifies this
      ensures Valid() && forall m :: m in mediaSections ==> m in old(mediaSections) || fresh(m)
      ensures now ==
        if reuseMid == "" then Added(old(now), Answer, mid, body) else Replaced(old(now), mid, reuseMid, body)
    {
      var section := new MediaSection(Answer, mid, body, iceParameters, role);
      if reuseMid != "" {
        ReplaceMediaSection(section, reuseMid);
      } else {
        AddMediaSection(section);
      }
    }

    /** `Receive`, and `RecvSctpAssociation` for the mid "datachannel". */
    method Receive(mid: string, body: Body)
      requires Valid()
      modifies this
      ensures Valid() && forall m :: m in mediaSections ==> m in old(mediaSections) || fresh(m)
      ensures now == Added(old(now), Offer, mid, body)
    {
      var section := new MediaSection(Offer, mid, body, iceParameters, role);
      AddMediaSection(section);
    }

    /** The section at `idx` is disabled or closed, and mirrored. */
    method Withdraw(idx: nat, disable: bool)
      requires Valid() && idx < |mediaSections|
      modifies this`media, mediaSections[idx]
      ensures Holds(now.sections[idx := Withdrawn(now.sections[idx], disable)])
      ensures media == old(media)[idx := Withdrawn(now.sections[idx], disable).obj]
    {
      var section := mediaSections[idx];
      assert section.Value() == now.sections[idx];
      if disable {
        section.Disable();
      } else {
        section.Close();
      }
      media := media[idx := section.mediaObject];
    }

    method CloseMediaSection(mid: string)
      requires Valid() && IndexOf(midToIndex, mid) < |mediaSections|
      modifies this, mediaSections
      ensures Valid() && now == SectionClosed(old(now), mid) && mediaSections == old(mediaSections)
    {
      var idx := IndexOf(midToIndex, mid);
      Withdraw(idx, mid == firstMid);
      midToIndex := midToIndex[mid := idx];
      RegenerateBundleMids(now.sections[idx := Withdrawn(now.sections[idx], mid == firstMid)]);
      now := SectionClosed(now, mid);
    }

    /** The first `n` sections and their mirrored objects are those of `after`, the others still those of `before`. */
    ghost predicate Refreshed(n: nat, before: seq<Section>, after: seq<Section>)
      reads this, mediaSections
    {
      && |mediaSections| == |media| == |before| == |after| && n <= |before|
      && Distinct(mediaSections)
      && (forall i :: 0 <= i < n ==> mediaSections[i].Value() == after[i] && media[i] == after[i].obj)
      && (forall i :: n <= i < |before| ==> mediaSections[i].Value() == before[i])
    }

    /** The loop of `UpdateIceParameters`. */
    method RefreshIce(ice: IceParameters, ghost before: seq<Section>)
      requires Refreshed(0, before, IceApplied(before, ice))
      modifies this`media, mediaSections
      ensures Refreshed(|before|, before, IceApplied(before, ice))
    {
      for idx := 0 to |mediaSections|
        invariant Refreshed(idx, before, IceApplied(before, ice))
      {
        mediaSections[idx].SetIceParameters(ice);
        media := media[idx := mediaSections[idx].mediaObject];
      }
    }

    method UpdateIceParameters(ice: IceParameters)
      requires Valid()
      modifies this, mediaSections
      ensures Valid() && now == IceUpdated(old(now), ice) && mediaSections == old(mediaSections)
    {
      iceParameters := ice;
      if ice.iceLite {
        iceLite := true;
      }
      RefreshIce(ice, now.sections);
      now := IceUpdated(now, ice);
      assert media == Objects(now.sections);
    }

    /** The loop of `UpdateDtlsRole`. */
    method RefreshRole(role: string, ghost before: seq<Section>)
      requires Refreshed(0, before, RoleApplied(before, role))
      modifies this`media, mediaSections
      ensures Refreshed(|before|, before, RoleApplied(before, role))
    {
      for idx := 0 to |mediaSections|
        invariant Refreshed(idx, before, RoleApplied(before, role))
      {
        mediaSections[idx].SetDtlsRole(role);
        media := media[idx := mediaSections[idx].mediaObject];
      }
    }

    method UpdateDtlsRole(role: string)
      requires Valid()
      modifies this, mediaSections
      ensures Valid() && now == RoleUpdated(old(now), role) && mediaSections == old(mediaSections)
    {
      this.role := role;
      if iceParameters.iceLite {
        iceLite := true;
      }
      RefreshRole(role, now.sections);
      now := RoleUpdated(now, role);
      assert media == Objects(now.sections);
    }

    /** The first closed section and its mid, or the next free position and no mid. */
    method GetNextMediaSectionIdx() returns (idx: nat, reuseMid: string)
      requires Valid()
      ensures idx <= |now.sections|
      ensures forall i :: 0 <= i < idx ==> !Closed(now.sections[i].obj)
      ensures idx < |now.sections| ==> Closed(now.sections[idx].obj) && reuseMid == now.sections[idx].obj.mid
      ensures idx == |now.sections| ==> reuseMid == ""
    {
      idx := 0;
      while idx < |mediaSections|
        invariant 0 <= idx <= |mediaSections|
        invariant forall i :: 0 <= i < idx ==> !Closed(now.sections[i].obj)
      {
        var section := mediaSections[idx];
        assert section.Value() == now.sections[idx];
        if section.mediaObject.port == 0 {
          reuseMid := section.mediaObject.mid;
          return;
        }
        idx := idx + 1;
      }
      reuseMid := "";
    }
  }

  // ----- What every run keeps

  /** `sdpObject.media[i]` is section i's object, for every i. */
  predicate Mirrors(s: Sdp) {
    |s.media| == |s.sections| && forall i :: 0 <= i < |s.sections| ==> s.media[i] == s.sections[i].obj
  }

  /** `midToIndex` is a bijection between the sections' mids and their positions. */
  predicate Indexes(s: Sdp)
  {
    && (forall i :: 0 <= i < |s.sections| ==>
          s.sections[i].obj.mid in s.midToIndex && s.midToIndex[s.sections[i].obj.mid] == i)
    && (forall mid :: mid in s.midToIndex ==>
          s.midToIndex[mid] < |s.sections| && s.sections[s.midToIndex[mid]].obj.mid == mid)
  }

  /** Section 0 carries the first mid and is never closed; every mid has text. */
  predicate FirstStays(s: Sdp)
  {
    && (s.sections == [] <==> s.firstMid == "")
    && (s.sections != [] ==> s.sections[0].obj.mid == s.firstMid && !Closed(s.sections[0].obj))
    && (forall i :: 0 <= i < |s.sections| ==> s.sections[i].obj.mid != "")
  }

  /** Every section carries the current ICE credentials, and the DTLS setup of the current role. */
  predicate Credentialed(s: Sdp) {
    forall i :: 0 <= i < |s.sections| ==> Current(s.sections[i], s.ice, s.role)
  }

  predicate Current(section: Section, ice: IceParameters, role: string) {
    && section.obj.iceUfrag == ice.usernameFragment && section.obj.icePwd == ice.password
    && (section.kind.Offer? ==> section.obj.setup == "actpass")
    && (section.kind.Answer? && role == "client" ==> section.obj.setup == "active")
    && (section.kind.Answer? && role == "server" ==> section.obj.setup == "passive")
    && (section.kind.Answer? && role == "auto" ==> section.obj.setup == "actpass")
  }

  predicate Bundled(s: Sdp)
  {
    s.bundle == BundleFrom("", s.sections)
  }

  predicate Consistent(s: Sdp) {
    Mirrors(s) && Indexes(s) && FirstStays(s) && Bundled(s)
  }

  /** How the operations are meant to be called: fresh mids, known mids, only closed slots reused. */
  predicate Proper(s: Sdp, e: Event)
    requires Indexes(s)
  {
    match e
    case Add(_, mid, _) => mid != "" && mid !in s.midToIndex
    case Replace(mid, reuse, _) =>
      && mid != "" && reuse in s.midToIndex && Closed(s.sections[s.midToIndex[reuse]].obj)
      && (mid == reuse || mid !in s.midToIndex)
    case CloseSection(mid) => mid in s.midToIndex
    case _ => true
  }

  /** The BUNDLE text depends on the mids and the closed flags only. */
  lemma {:induction false} SameBundle(mids: string, a: seq<Section>, b: seq<Section>)
    requires |a| == |b|
    requires forall i :: 0 <= i < |a| ==> a[i].obj.mid == b[i].obj.mid && Closed(a[i].obj) == Closed(b[i].obj)
    ensures BundleFrom(mids, a) == BundleFrom(mids, b)
    decreases |a|
  {
    if a != [] {
      var mid := a[0].obj.mid;
      SameBundle(if Closed(a[0].obj) then mids else if mids == "" then mid else mids + " " + mid, a[1..], b[1..]);
    }
  }

  lemma AddKeeps(s: Sdp, kind: Kind, mid: string, body: Body)
    requires Consistent(s) && Proper(s, Add(kind, mid, body))
    ensures Consistent(Step(s, Add(kind, mid, body)))
  {
    var s' := Step(s, Add(kind, mid, body));
    assert s'.sections[|s.sections|].obj.mid == mid && !Closed(s'.sections[|s.sections|].obj);
    assert forall i :: 0 <= i < |s.sections| ==> s'.sections[i] == s.sections[i];
    assert Mirrors(s') && FirstStays(s');
    assert Indexes(s');
  }

  lemma ReplaceKeeps(s: Sdp, mid: string, reuse: string, body: Body)
    requires Consistent(s) && Proper(s, Replace(mid, reuse, body))
    ensures Consistent(Step(s, Replace(mid, reuse, body)))
  {
    var s' := Step(s, Replace(mid, reuse, body));
    assert s'.sections[s.midToIndex[reuse]].obj.mid == mid;
    assert Mirrors(s') && FirstStays(s');
    assert Indexes(s');
  }

  lemma CloseKeeps(s: Sdp, mid: string)
    requires Consistent(s) && Proper(s, CloseSection(mid))
    ensures Consistent(Step(s, CloseSection(mid)))
  {
  }

  lemma UpdateKeeps(s: Sdp, e: Event)
    requires Consistent(s) && (e.UpdateIce? || e.UpdateRole?)
    ensures Consistent(Step(s, e))
  {
    SameBundle("", s.sections, Step(s, e).sections);
  }

  lemma StepKeeps(s: Sdp, e: Event)
    requires Consistent(s) && Proper(s, e)
    ensures InRange(s, e) && Consistent(Step(s, e))
  {
    match e
    case Add(kind, mid, body) => AddKeeps(s, kind, mid, body);
    case Replace(mid, reuse, body) => ReplaceKeeps(s, mid, reuse, body);
    case CloseSection(mid) => CloseKeeps(s, mid);
    case UpdateIce(_) => UpdateKeeps(s, e);
    case UpdateRole(_) => UpdateKeeps(s, e);
  }

  lemma ClosingStaysCurrent(section: Section, ice: IceParameters, role: string)
    requires Current(section, ice, role)
    ensures Current(section.(obj := Disabled(section.obj)), ice, role)
    ensures Current(section.(obj := ClosedObject(section.obj)), ice, role)
  {
  }

  lemma NewIsCurrent(kind: Kind, mid: string, body: Body, ice: IceParameters, role: string)
    ensures Current(NewSection(kind, mid, body, ice, role), ice, role)
  {
  }

  lemma UpdateIsCurrent(section: Section, ice: IceParameters, role: string, ice': IceParameters, role': string)
    requires Current(section, ice, role)
    ensures Current(section.(obj := WithIce(section.obj, ice')), ice', role)
    ensures Current(section.(obj := WithRole(section.kind, section.obj, role')), ice, role')
  {
  }

  /** The credentials stay current through every operation, proper or not. */
  lemma StepCredentialed(s: Sdp, e: Event)
    requires InRange(s, e) && Credentialed(s)
    ensures Credentialed(Step(s, e))
  {
    var s' := Step(s, e);
    forall i | 0 <= i < |s'.sections| ensures Current(s'.sections[i], s'.ice, s'.role) {
      match e
      case Add(kind, mid, body) => NewIsCurrent(kind, mid, body, s.ice, s.role);
      case Replace(mid, reuse, body) => NewIsCurrent(Answer, mid, body, s.ice, s.role);
      case CloseSection(mid) => ClosingStaysCurrent(s.sections[i], s.ice, s.role);
      case UpdateIce(ice) => UpdateIsCurrent(s.sections[i], s.ice, s.role, ice, s.role);
      case UpdateRole(role) => UpdateIsCurrent(s.sections[i], s.ice, s.role, s.ice, role);
    }
  }

  // ----- Every run

  function Run(s: Sdp, events: seq<Event>): Sdp
    requires Consistent(s) && AllProper(s, events)
    decreases |events|
  {
    if events == [] then s
    else
      StepKeeps(s, events[0]);
      Run(Step(s, events[0]), events[1..])
  }

  predicate AllProper(s: Sdp, events: seq<Event>)
    requires Consistent(s)
    decreases |events|
  {
    events != [] ==>
      Proper(s, events[0]) && (StepKeeps(s, events[0]); AllProper(Step(s, events[0]), events[1..]))
  }

  lemma StartConsistent(ice: IceParameters, role: string)
    ensures Consistent(Start(ice, role)) && Credentialed(Start(ice, role))
  {
  }

  /** In every run of proper operations: the SDP object mirrors every section, the index is a bijection, the first
      section is never closed, and all sections carry the current ICE credentials and DTLS setup. */
  lemma {:induction false} RunTheorem(s: Sdp, events: seq<Event>)
    requires Consistent(s) && Credentialed(s) && AllProper(s, events)
    ensures Consistent(Run(s, events)) && Credentialed(Run(s, events))
    decreases |events|
  {
    if events != [] {
      StepKeeps(s, events[0]);
      StepCredentialed(s, events[0]);
      RunTheorem(Step(s, events[0]), events[1..]);
    }
  }

  /** The number of m-lines never decreases, and a mid keeps its index unless its own closed slot is reused. */
  lemma StepStable(s: Sdp, e: Event, mid: string)
    requires Consistent(s) && Proper(s, e) && mid in s.midToIndex
    requires e.Replace? ==> e.reuseMid != mid
    ensures InRange(s, e) && |Step(s, e).sections| >= |s.sections|
    ensures mid in Step(s, e).midToIndex && Step(s, e).midToIndex[mid] == s.midToIndex[mid]
  {
  }

  lemma {:induction false} RunStable(s: Sdp, events: seq<Event>, mid: string)
    requires Consistent(s) && AllProper(s, events) && mid in s.midToIndex
    requires forall i :: 0 <= i < |events| && events[i].Replace? ==> events[i].reuseMid != mid
    ensures |Run(s, events).sections| >= |s.sections|
    ensures mid in Run(s, events).midToIndex && Run(s, events).midToIndex[mid] == s.midToIndex[mid]
    decreases |events|
  {
    if events != [] {
      StepKeeps(s, events[0]);
      StepStable(s, events[0], mid);
      RunStable(Step(s, events[0]), events[1..], mid);
    }
  }

  lemma {:induction false} MLinesNeverDecrease(s: Sdp, events: seq<Event>)
    requires Consistent(s) && AllProper(s, events)
    ensures |Run(s, events).sections| >= |s.sections|
    decreases |events|
  {
    if events != [] {
      StepKeeps(s, events[0]);
      MLinesNeverDecrease(Step(s, events[0]), events[1..]);
    }
  }

  // ----- The conditions are needed

  /** Adding keeps the index a bijection if and only if the mid is new. */
  lemma AddNeedsFreshMid(s: Sdp, kind: Kind, mid: string, body: Body)
    requires Consistent(s)
    ensures var s' := Step(s, Add(kind, mid, body));
      (Indexes(s') <==> mid !in s.midToIndex)
  {
    var s' := Step(s, Add(kind, mid, body));
    if mid in s.midToIndex {
      var k := s.midToIndex[mid];
      assert s'.sections[k].obj.mid == mid && s'.midToIndex[mid] == |s.sections|;
    }
  }

  /** Closing keeps the index a bijection if and only if the mid is known: an unknown one is recorded at index 0, and
      section 0 is closed. */
  lemma CloseNeedsKnownMid(s: Sdp, mid: string)
    requires Consistent(s) && s.sections != [] && InRange(s, CloseSection(mid))
    ensures var s' := Step(s, CloseSection(mid));
      && (Indexes(s') <==> mid in s.midToIndex)
      && (mid !in s.midToIndex ==> Closed(s'.sections[0].obj))
  {
    var section := s.sections[IndexOf(s.midToIndex, mid)];
    if mid !in s.midToIndex {
      var s' := Step(s, CloseSection(mid));
      assert s.sections[0].obj.mid in s.midToIndex;
      assert s'.midToIndex[mid] == 0 && s'.sections[0].obj.mid == s.sections[0].obj.mid;
    } else {
      CloseKeeps(s, mid);
    }
  }

  // ----- What the BUNDLE group says

  function OpenMids(sections: seq<Section>): seq<string>
  {
    if sections == [] then []
    else (if Closed(sections[0].obj) then [] else [sections[0].obj.mid]) + OpenMids(sections[1..])
  }

  /** Each text with a space in front. */
  function Spaced(mids: seq<string>): string {
    if mids == [] then "" else " " + mids[0] + Spaced(mids[1..])
  }

  function SpaceJoined(mids: seq<string>): string {
    if mids == [] then "" else mids[0] + Spaced(mids[1..])
  }

  predicate MidsHaveText(sections: seq<Section>)
  {
    forall i :: 0 <= i < |sections| ==> sections[i].obj.mid != ""
  }

  lemma Regroup(a: string, b: string, c: string, d: string)
    ensures a + b + c + d == a + (b + c + d)
  {
  }

  lemma {:induction false} BundleAfter(mids: string, sections: seq<Section>)
    requires MidsHaveText(sections) && mids != ""
    ensures BundleFrom(mids, sections) == mids + Spaced(OpenMids(sections))
    decreases |sections|
  {
    if sections != [] {
      var mid := sections[0].obj.mid;
      if Closed(sections[0].obj) {
        BundleAfter(mids, sections[1..]);
        assert OpenMids(sections) == OpenMids(sections[1..]);
      } else {
        BundleAfter(mids + " " + mid, sections[1..]);
        assert OpenMids(sections)[1..] == OpenMids(sections[1..]);
        Regroup(mids, " ", mid, Spaced(OpenMids(sections[1..])));
      }
    }
  }

  /** The regenerated text is the list of open mids in m-line order, joined by single spaces. */
  lemma {:induction false} BundleMeaning(sections: seq<Section>)
    requires MidsHaveText(sections)
    ensures BundleFrom("", sections) == SpaceJoined(OpenMids(sections))
    decreases |sections|
  {
    if sections != [] {
      if Closed(sections[0].obj) {
        BundleMeaning(sections[1..]);
        assert OpenMids(sections) == OpenMids(sections[1..]);
      } else {
        BundleAfter(sections[0].obj.mid, sections[1..]);
        assert OpenMids(sections)[1..] == OpenMids(sections[1..]);
      }
    }
  }

  /** In every run the BUNDLE group is the space-joined list of the open mids, and starts with the first mid. */
  lemma BundleTheorem(ice: IceParameters, role: string, events: seq<Event>)
    requires Consistent(Start(ice, role)) && AllProper(Start(ice, role), events)
    ensures var s := Run(Start(ice, role), events);
      && s.bundle == SpaceJoined(OpenMids(s.sections))
      && (s.sections != [] ==>
            OpenMids(s.sections) != [] && OpenMids(s.sections)[0] == s.firstMid && s.firstMid <= s.bundle)
  {
    StartConsistent(ice, role);
    RunTheorem(Start(ice, role), events);
    BundleMeaning(Run(Start(ice, role), events).sections);
  }

  /** Sending with what `GetNextMediaSectionIdx` returned, under a new mid, is a proper operation. */
  lemma NextSlotIsProper(s: Sdp, idx: nat, reuseMid: string, mid: string, body: Body)
    requires Consistent(s) && mid != "" && mid !in s.midToIndex && idx <= |s.sections|
    requires idx < |s.sections| ==> Closed(s.sections[idx].obj) && reuseMid == s.sections[idx].obj.mid
    requires idx == |s.sections| ==> reuseMid == ""
    ensures Proper(s, if reuseMid == "" then Add(Answer, mid, body) else Replace(mid, reuseMid, body))
    ensures (reuseMid == "") == (idx == |s.sections|)
  {
  }

  // ----- What an operation does to the sections

  /** `mids` without `mid`. */
  function Omit(mids: seq<string>, mid: string): seq<string> {
    if mids == [] then []
    else (if mids[0] == mid then [] else [mids[0]]) + Omit(mids[1..], mid)
  }

  lemma {:induction false} OmitClosed(before: seq<Section>, after: seq<Section>, mid: string)
    requires |before| == |after|
    requires forall i :: 0 <= i < |before| ==>
      && after[i].obj.mid == before[i].obj.mid
      && (Closed(after[i].obj) <==> Closed(before[i].obj) || before[i].obj.mid == mid)
    ensures OpenMids(after) == Omit(OpenMids(before), mid)
  {
    if before != [] {
      OmitClosed(before[1..], after[1..], mid);
      var o := before[0].obj;
      if !Closed(o) {
        assert OpenMids(before)[1..] == OpenMids(before[1..]);
      } else {
        assert OpenMids(before) == OpenMids(before[1..]);
      }
    }
  }

  lemma {:induction false} SameOpenMids(before: seq<Section>, after: seq<Section>)
    requires |before| == |after|
    requires forall i :: 0 <= i < |before| ==>
      after[i].obj.mid == before[i].obj.mid && Closed(after[i].obj) == Closed(before[i].obj)
    ensures OpenMids(after) == OpenMids(before)
  {
    if before != [] {
      SameOpenMids(before[1..], after[1..]);
    }
  }

  /** `o'` is `o` set inactive, without its stream keys, under the same mid, credentials and setup; `closed` tells
      whether also its port is 0 and its extmapAllowMixed gone. */
  predicate Withdrew(o: MediaObject, o': MediaObject, closed: bool) {
    && o'.direction == "inactive" && o'.port == (if closed then 0 else o.port)
    && o'.mid == o.mid && o'.setup == o.setup && o'.iceUfrag == o.iceUfrag && o'.icePwd == o.icePwd
    && (forall key :: key in o'.rest ==> key in o.rest && o'.rest[key] == o.rest[key])
    && (forall key :: key in o.rest ==>
          (key !in o'.rest <==> key == "ext" || key == "ssrcs" || key == "ssrcGroups" || key == "simulcast" ||
                                key == "rids" || (closed && key == "extmapAllowMixed")))
  }

  lemma CloseWithdraws(s: Sdp, mid: string)
    requires Consistent(s) && mid in s.midToIndex
    ensures var s', k := Step(s, CloseSection(mid)), s.midToIndex[mid];
      && |s'.sections| == |s.sections| && s'.midToIndex == s.midToIndex && s'.firstMid == s.firstMid
      && (forall i :: 0 <= i < |s.sections| && i != k ==> s'.sections[i] == s.sections[i])
      && Withdrew(s.sections[k].obj, s'.sections[k].obj, mid != s.firstMid)
  {
    var s' := Step(s, CloseSection(mid));
    assert s'.midToIndex == s.midToIndex;
  }

  /** Closing a known mid: its section has port 0 exactly if it is not the first one, and no other section changes; the
      BUNDLE group loses exactly that mid, and the slot can be reused, under the same mid or a new one. */
  lemma CloseTheorem(s: Sdp, mid: string)
    requires Consistent(s) && mid in s.midToIndex
    ensures var s', k := Step(s, CloseSection(mid)), s.midToIndex[mid];
      && |s'.sections| == |s.sections| && s'.midToIndex == s.midToIndex
      && (forall i :: 0 <= i < |s.sections| && i != k ==> s'.sections[i] == s.sections[i])
      && Withdrew(s.sections[k].obj, s'.sections[k].obj, mid != s.firstMid)
      && (s'.sections[k].obj.port == 0 <==> mid != s.firstMid)
      && OpenMids(s'.sections) ==
         (if mid == s.firstMid then OpenMids(s.sections) else Omit(OpenMids(s.sections), mid))
    ensures var s' := Step(s, CloseSection(mid));
      forall next, body :: mid != s.firstMid && next != "" && (next == mid || next !in s.midToIndex) ==>
        Indexes(s') && Proper(s', Replace(next, mid, body))
  {
    var s', k := Step(s, CloseSection(mid)), s.midToIndex[mid];
    CloseKeeps(s, mid);
    CloseWithdraws(s, mid);
    FirstIsFirst(s, mid);
    if mid == s.firstMid {
      SameOpenMids(s.sections, s'.sections);
    } else {
      OtherMid(s, mid);
      OmitClosed(s.sections, s'.sections, mid);
    }
  }

  lemma FirstIsFirst(s: Sdp, mid: string)
    requires Consistent(s) && mid in s.midToIndex
    ensures s.sections != [] && !Closed(s.sections[0].obj)
    ensures mid == s.firstMid <==> s.midToIndex[mid] == 0
  {
  }

  lemma OtherMid(s: Sdp, mid: string)
    requires Consistent(s) && mid in s.midToIndex
    ensures forall i :: 0 <= i < |s.sections| ==> (s.sections[i].obj.mid == mid <==> i == s.midToIndex[mid])
  {
  }

  /** `section` is new: open, with what the body says, and current. */
  predicate Fresh(section: Section, kind: Kind, mid: string, body: Body, ice: IceParameters, role: string) {
    && section.kind == kind && section.obj.mid == mid && section.obj.port != 0
    && section.obj.direction == body.direction && section.obj.rest == body.rest
    && Current(section, ice, role)
  }

  lemma {:induction false} OpenMidsConcat(a: seq<Section>, b: seq<Section>)
    ensures OpenMids(a + b) == OpenMids(a) + OpenMids(b)
  {
    if a == [] {
      assert a + b == b;
    } else {
      var first := if Closed(a[0].obj) then [] else [a[0].obj.mid];
      OpenMidsConcat(a[1..], b);
      assert (a + b)[0] == a[0] && (a + b)[1..] == a[1..] + b;
      Associates(first, OpenMids(a[1..]), OpenMids(b));
    }
  }

  /** Adding a section puts a new one at the end of the m-lines and of the BUNDLE group. */
  lemma AddTheorem(s: Sdp, kind: Kind, mid: string, body: Body)
    requires Consistent(s) && Proper(s, Add(kind, mid, body))
    ensures var s', n := Step(s, Add(kind, mid, body)), |s.sections|;
      && |s'.sections| == n + 1 && s'.sections[..n] == s.sections && s'.midToIndex == s.midToIndex[mid := n]
      && Fresh(s'.sections[n], kind, mid, body, s.ice, s.role)
      && OpenMids(s'.sections) == OpenMids(s.sections) + [mid]
  {
    var section := NewSection(kind, mid, body, s.ice, s.role);
    OpenMidsConcat(s.sections, [section]);
    assert OpenMids([section]) == [mid];
  }

  lemma ReplaceIndexes(s: Sdp, mid: string, reuse: string, body: Body)
    requires Consistent(s) && Proper(s, Replace(mid, reuse, body))
    ensures Step(s, Replace(mid, reuse, body)).midToIndex == (s.midToIndex - {reuse})[mid := s.midToIndex[reuse]]
  {
  }

  /** Reusing a closed slot puts a new section there, open under its own mid; the old mid is forgotten, every other
      section and index stays. */
  lemma ReplaceTheorem(s: Sdp, mid: string, reuse: string, body: Body)
    requires Consistent(s) && Proper(s, Replace(mid, reuse, body))
    ensures var s', k := Step(s, Replace(mid, reuse, body)), s.midToIndex[reuse];
      && |s'.sections| == |s.sections| && s'.midToIndex == (s.midToIndex - {reuse})[mid := k]
      && (forall i :: 0 <= i < |s.sections| && i != k ==> s'.sections[i] == s.sections[i])
      && Fresh(s'.sections[k], Answer, mid, body, s.ice, s.role)
      && OpenMids(s'.sections) == OpenMids(s.sections[..k]) + [mid] + OpenMids(s.sections[k + 1..])
  {
    var s', k := Step(s, Replace(mid, reuse, body)), s.midToIndex[reuse];
    var section := NewSection(Answer, mid, body, s.ice, s.role);
    assert s'.sections == s.sections[..k] + [section] + s.sections[k + 1..];
    OpenMidsConcat(s.sections[..k] + [section], s.sections[k + 1..]);
    OpenMidsConcat(s.sections[..k], [section]);
    assert OpenMids([section]) == [mid];
    ReplaceIndexes(s, mid, reuse, body);
  }

  /** New credentials replace those of every section; a new role sets every setup. Nothing else in the sections, the
      index or the BUNDLE group changes. */
  lemma UpdateTheorem(s: Sdp, ice: IceParameters, role: string)
    requires Credentialed(s)
    ensures var s' := Step(s, UpdateIce(ice));
      && s'.ice == ice && s'.role == s.role && s'.iceLite == (s.iceLite || ice.iceLite)
      && s'.midToIndex == s.midToIndex && s'.bundle == s.bundle && |s'.sections| == |s.sections|
      && forall i :: 0 <= i < |s.sections| ==>
           var o, o' := s.sections[i].obj, s'.sections[i].obj;
           o'.iceUfrag == ice.usernameFragment && o'.icePwd == ice.password &&
           o'.(iceUfrag := o.iceUfrag, icePwd := o.icePwd) == o
    ensures var s' := Step(s, UpdateRole(role));
      && s'.ice == s.ice && s'.role == role && s'.iceLite == (s.iceLite || s.ice.iceLite)
      && s'.midToIndex == s.midToIndex && s'.bundle == s.bundle && |s'.sections| == |s.sections|
      && forall i :: 0 <= i < |s.sections| ==>
           Current(s'.sections[i], s.ice, role) && s'.sections[i].kind == s.sections[i].kind &&
           s'.sections[i].obj.(setup := s.sections[i].obj.setup) == s.sections[i].obj
  {
  }
}
