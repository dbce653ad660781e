/** `MediaSection`: the JSON object of one m-line and what each operation changes in it. */
module MediaSections {
  datatype Json = Text(s: string) | Number(n: int) | Other(tag: int)

  /** The object's keys: the ones the bookkeeping reads or sets, and all others in `rest`. `setup` and `direction`
      are "" when unset. */
  datatype MediaObject = MediaObject(
    mid: string, port: int, direction: string, setup: string, iceUfrag: Json, icePwd: Json, rest: map<string, Json>)

  datatype IceParameters = IceParameters(usernameFragment: Json, password: Json, iceLite: bool)

  /** Answer sections follow the negotiated DTLS role, offer sections never do. */
  datatype Kind = Answer | Offer

  datatype Section = Section(kind: Kind, obj: MediaObject)

  const STREAM_KEYS := {"ext", "ssrcs", "ssrcGroups", "simulcast", "rids"}

  predicate Closed(o: MediaObject) {
    o.port == 0
  }

  function WithIce(o: MediaObject, ice: IceParameters): MediaObject {
    o.(iceUfrag := ice.usernameFragment, icePwd := ice.password)
  }

  function WithRole(kind: Kind, o: MediaObject, role: string): MediaObject {
    match kind
    case Offer => o.(setup := "actpass")
    case Answer =>
      if role == "client" then o.(setup := "active")
      else if role == "server" then o.(setup := "passive")
      else if role == "auto" then o.(setup := "actpass")
      else o
  }

  function Disabled(o: MediaObject): MediaObject {
    o.(direction := "inactive", rest := o.rest - STREAM_KEYS)
  }

  function ClosedObject(o: MediaObject): MediaObject {
    o.(direction := "inactive", port := 0, rest := o.rest - STREAM_KEYS - {"extmapAllowMixed"})
  }

  /** What the offer or answer parameters contribute to a new section. */
  datatype Body = Body(direction: string, rest: map<string, Json>)

  function NewObject(kind: Kind, mid: string, body: Body, ice: IceParameters, role: string): MediaObject {
    WithRole(kind, MediaObject(mid, 7, body.direction, "", ice.usernameFragment, ice.password, body.rest), role)
  }

  function NewSection(kind: Kind, mid: string, body: Body, ice: IceParameters, role: string): Section {
    Section(kind, NewObject(kind, mid, body, ice, role))
  }

  class MediaSection {
    const kind: Kind
    var mediaObject: MediaObject

    function Value(): Section
      reads this
    {
      Section(kind, mediaObject)
    }

    constructor (kind: Kind, mid: string, body: Body, ice: IceParameters, role: string)
      ensures Value() == NewSection(kind, mid, body, ice, role)
    {
      this.kind := kind;
      mediaObject := NewObject(kind, mid, body, ice, role);
    }

    method SetIceParameters(ice: IceParameters)
      modifies this
      ensures mediaObject == WithIce(old(mediaObject), ice)
    {
      mediaObject := mediaObject.(iceUfrag := ice.usernameFragment);
      mediaObject := mediaObject.(icePwd := ice.password);
    }

    method SetDtlsRole(role: string)
      modifies this
      ensures mediaObject == WithRole(kind, old(mediaObject), role)
    {
      if kind.Offer? {
        mediaObject := mediaObject.(setup := "actpass");
      } else if role == "client" {
        mediaObject := mediaObject.(setup := "active");
      } else if role == "server" {
        mediaObject := mediaObject.(setup := "passive");
      } else if role == "auto" {
        mediaObject := mediaObject.(setup := "actpass");
      }
    }

    method EraseStreamKeys()
      modifies this
      ensures mediaObject == old(mediaObject).(rest := old(mediaObject).rest - STREAM_KEYS)
    {
      var rest := mediaObject.rest;
      rest := rest - {"ext"};
      rest := rest - {"ssrcs"};
      rest := rest - {"ssrcGroups"};
      rest := rest - {"simulcast"};
      rest := rest - {"rids"};
      mediaObject := mediaObject.(rest := rest);
    }

    method Disable()
      modifies this
      ensures mediaObject == Disabled(old(mediaObject))
    {
      mediaObject := mediaObject.(direction := "inactive");
      EraseStreamKeys();
    }

    method Close()
      modifies this
      ensures mediaObject == ClosedObject(old(mediaObject))
    {
      mediaObject := mediaObject.(direction := "inactive", port := 0);
      EraseStreamKeys();
      mediaObject := mediaObject.(rest := mediaObject.rest - {"extmapAllowMixed"});
    }
  }
}
