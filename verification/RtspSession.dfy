/** One RTSP server session, request by request (appendix A.2 of RFC 2326). */
module RtspSession {
  import opened Wrappers
  import opened Text
  import opened CanonicalPath
  import opened PathLaws
  import opened RtspTransport

  // ---- What a session is asked, and what it finds

  datatype Verb = OPTIONS | DESCRIBE | ANNOUNCE | SETUP | PLAY | RECORD | TEARDOWN | OTHER

  /** The address is the requested one with its port written out. */
  datatype Request = Request(verb: Verb, cseq: string, path: string, address: string, contentType: string,
                             transport: string, body: string)

  datatype MediaKind = Video | Audio | OtherMedia

  datatype Media = Media(kind: MediaKind, control: string, formats: nat)

  datatype Source = Source(sdp: string, multicastable: bool)

  /** The outcomes of all that is outside the session: the authentication and
      the permissions of its user, the stream its path leads to, the parsers for
      descriptions and addresses, the UDP socket and the connection. */
  datatype World = World(authorized: bool, pull: bool, push: bool, source: Option<Source>,
                         parseSdp: string -> Option<seq<Media>>, parseUrl: string -> Option<string>,
                         udpReady: bool, written: bool)

  datatype Status = Init | Ready | Playing | Recording {
    function Rank(): int {
      match this
      case Init => 0
      case Ready => 1
      case _ => 2
    }
  }

  datatype Consumer = NoConsumer | TcpConsumer | UdpConsumer | MulticastConsumer

  datatype PushStream = NoStream | TcpPushStream

  /** An attempt to answer, and whether it could be written. */
  datatype Reply = Reply(verb: Verb, cseq: string, code: int, written: bool) {
    predicate Describes() {
      (verb == DESCRIBE || verb == ANNOUNCE) && code == 200
    }

    predicate SetsUp() {
      verb == SETUP && code == 200
    }

    predicate Records() {
      verb == RECORD && code == 200
    }

    /** The answer to a PLAY after which the session plays: also one that
        refuses the transport. */
    predicate Plays() {
      verb == PLAY && code in {200, 461, 500} && written
    }
  }

  // ---- The status and the mode, told from the answers alone

  ghost function StatusAfter(h: seq<Reply>): Status {
    if h == [] then Init else Moved(StatusAfter(h[..|h| - 1]), h[|h| - 1])
  }

  ghost function Moved(s: Status, r: Reply): Status {
    if s == Init && r.SetsUp() then Ready
    else if s == Ready && r.Records() then Recording
    else if s == Ready && r.Plays() then Playing
    else s
  }

  ghost function ModeAfter(h: seq<Reply>): SessionMode {
    if h == [] then UnknownSession else Described(ModeAfter(h[..|h| - 1]), h[|h| - 1])
  }

  ghost function Described(m: SessionMode, r: Reply): SessionMode {
    if !r.Describes() then m else if r.verb == DESCRIBE then PlaySession else RecordSession
  }

  /** Every successful SETUP has a successful description in front of it. */
  ghost predicate InOrder(h: seq<Reply>) {
    forall j :: 0 <= j < |h| && h[j].SetsUp() ==> exists i :: 0 <= i < j && h[i].Describes()
  }

  /** What one more answer does to all three. */
  lemma AnswerStep(h: seq<Reply>, r: Reply)
    requires InOrder(h) && (r.SetsUp() ==> ModeAfter(h) != UnknownSession)
    ensures StatusAfter(h + [r]) == Moved(StatusAfter(h), r)
    ensures ModeAfter(h + [r]) == Described(ModeAfter(h), r)
    ensures InOrder(h + [r])
  {
    var g := h + [r];
    assert g[..|h|] == h;
    forall j | 0 <= j < |g| && g[j].SetsUp() ensures exists i :: 0 <= i < j && g[i].Describes() {
      if j < |h| {
        var i :| 0 <= i < j && h[i].Describes();
        assert g[i] == h[i];
      } else {
        var i := ModeNeeds(h);
        assert g[i] == h[i];
      }
    }
  }

  /** The answer that gave the session its mode. */
  lemma {:induction false} ModeNeeds(h: seq<Reply>) returns (i: nat)
    requires ModeAfter(h) != UnknownSession
    ensures i < |h| && h[i].Describes() && (h[i].verb == DESCRIBE <==> ModeAfter(h) == PlaySession)
    ensures forall k :: i < k < |h| ==> !h[k].Describes()
  {
    i := |h| - 1;
    if !h[i].Describes() { i := ModeNeeds(h[..i]); }
  }

  /** The answers that gave the session its status. */
  lemma {:induction false} StatusNeeds(h: seq<Reply>) returns (j: nat, k: nat)
    requires StatusAfter(h) != Init
    ensures j < |h| && h[j].SetsUp()
    ensures StatusAfter(h) == Playing ==> j < k < |h| && h[k].Plays()
    ensures StatusAfter(h) == Recording ==> j < k < |h| && h[k].Records()
  {
    var front, r := h[..|h| - 1], h[|h| - 1];
    if StatusAfter(front) == Init {
      j, k := |h| - 1, |h|;
    } else {
      j, k := StatusNeeds(front);
      if StatusAfter(front) != StatusAfter(h) { k := |h| - 1; }
    }
  }

  // ---- Control paths

  /** The position of the last p in s, or -1. */
  function LastIndex(s: string, p: string): (i: int)
    ensures i == -1 || (0 <= i && i + |p| <= |s|)
    decreases |s|
  {
    if |p| > |s| then -1
    else if s[|s| - |p|..] == p then |s| - |p|
    else if s == "" then -1
    else LastIndex(s[..|s| - 1], p)
  }

  predicate IsSuffix(s: string, p: string) {
    |p| <= |s| && s[|s| - |p|..] == p
  }

  /** The server's test for whether an address names a control path. */
  predicate Names(address: string, control: string) {
    address == control || (control != "" && LastIndex(address, control) == |address| - |control|)
  }

  /** It means that the address ends in the control path, except that any path
      one longer than the address passes as well. */
  lemma NamesWhat(address: string, control: string)
    requires address != ""
    ensures Names(address, control) <==>
            control != "" && (IsSuffix(address, control) || |control| == |address| + 1)
  {
    if |control| <= |address| && !IsSuffix(address, control) {
      assert LastIndex(address, control) == LastIndex(address[..|address| - 1], control);
    }
  }

  predicate HasUrlPrefix(s: string) {
    |s| >= 7 && ToLower(s[..7]) == "rtsp://"
  }

  function ControlPath(control: string, w: World): Option<string> {
    if HasUrlPrefix(control) then w.parseUrl(control) else Some(control)
  }

  /** The control path of the last medium of a kind, or what there was before. */
  function LastControl(media: seq<Media>, kind: MediaKind, before: string): string {
    if media == [] then before
    else if media[|media| - 1].kind == kind then media[|media| - 1].control
    else LastControl(media[..|media| - 1], kind, before)
  }

  /** Every video and audio medium has a format. */
  predicate HaveFormats(media: seq<Media>) {
    forall i :: 0 <= i < |media| && media[i].kind != OtherMedia ==> media[i].formats > 0
  }

  // ---- The session

  class Session {
    const websocket: bool
    var closed: bool
    var path: string
    var rawSdp: string
    var aControl: string
    var vControl: string
    var mode: SessionMode
    var transport: Settings
    var status: Status
    var stream: PushStream
    var consumer: Consumer
    ghost var replies: seq<Reply>   // all attempts to respond

    ghost predicate Valid()
      reads this
    {
      Sound() && status == StatusAfter(replies) && mode == ModeAfter(replies) && InOrder(replies)
    }

    /** What the fields say about each other, also in front of an answer. */
    ghost predicate Sound()
      reads this`aControl, this`vControl, this`mode, this`status, this`transport, this`stream, this`consumer
    {
      && (aControl != "" || vControl != "" ==> mode != UnknownSession)
      && (status != Init ==> mode != UnknownSession && transport.kind != UnknownTrans)
      && transport.mode != UnknownSession
      && (status == Playing ==> mode == PlaySession && transport.kind != UnknownTrans)
      && (status == Recording <==> stream == TcpPushStream)
      && (status == Recording ==> mode == RecordSession && transport.kind == TcpUnicast)
      && (consumer != NoConsumer ==> status == Playing)
    }

    constructor (websocket: bool, wsPath: string)
      ensures Valid() && status == Init && replies == []
    {
      this.websocket := websocket;
      closed, path, rawSdp, aControl, vControl := false, if websocket then wsPath else "", "", "", "";
      mode, status, stream, consumer := UnknownSession, Init, NoStream, NoConsumer;
      var none: PerChannel := [-1, -1, -1, -1];
      var zero: PerChannel := [0, 0, 0, 0];
      transport := Settings(PlaySession, false, UnknownTrans, none, none, zero, zero, "", 0, "");
      replies := [];
    }

    /** Whether the attempt failed. */
    method Respond(req: Request, code: int, w: World) returns (err: bool)
      requires InOrder(replies) && (req.verb == SETUP && code == 200 ==> ModeAfter(replies) != UnknownSession)
      modifies this`replies
      ensures var r := Reply(req.verb, req.cseq, code, w.written);
              replies == old(replies) + [r] && err == !w.written && InOrder(replies) &&
              StatusAfter(replies) == Moved(old(StatusAfter(replies)), r) &&
              ModeAfter(replies) == Described(old(ModeAfter(replies)), r)
    {
      AnswerStep(replies, Reply(req.verb, req.cseq, code, w.written));
      replies := replies + [Reply(req.verb, req.cseq, code, w.written)];
      err := !w.written;
    }

    /** The controls of the last video and audio of a description; a medium
        without a format ends the session. */
    method ParseSdp(raw: string, w: World) returns (r: Result<bool>)
      modifies this`rawSdp, this`aControl, this`vControl
      ensures rawSdp == raw
      ensures w.parseSdp(raw).None? ==> r == Ok(false) && aControl == old(aControl) && vControl == old(vControl)
      ensures w.parseSdp(raw).Some? ==> r == if HaveFormats(w.parseSdp(raw).value) then Ok(true) else Panic
      ensures r == Ok(true) ==>
                && aControl == LastControl(w.parseSdp(raw).value, Audio, old(aControl))
                && vControl == LastControl(w.parseSdp(raw).value, Video, old(vControl))
    {
      rawSdp := raw;
      var parsed := w.parseSdp(raw);
      if parsed.None? { return Ok(false); }
      for i := 0 to |parsed.value|
        invariant rawSdp == raw && HaveFormats(parsed.value[..i])
        invariant aControl == LastControl(parsed.value[..i], Audio, old(aControl))
        invariant vControl == LastControl(parsed.value[..i], Video, old(vControl))
      {
        var media := parsed.value[i];
        assert parsed.value[..i + 1][..i] == parsed.value[..i];
        match media.kind {
          case Video =>
            vControl := media.control;
            if media.formats == 0 { return Panic; }
          case Audio =>
            aControl := media.control;
            if media.formats == 0 { return Panic; }
          case OtherMedia =>
        }
      }
      assert parsed.value[..|parsed.value|] == parsed.value;
      return Ok(true);
    }

    method OnDescribe(req: Request, w: World) returns (r: Result<int>)
      requires Valid() && status == Init
      modifies this`path, this`rawSdp, this`aControl, this`vControl, this`mode
      ensures r.Ok? ==> Sound()
      ensures path == if websocket then old(path) else Canonical(req.path)
      ensures r.Ok? ==> r.value == if w.source.None? then 404
                                   else if !w.pull then 403
                                   else if w.source.value.sdp == "" || w.parseSdp(w.source.value.sdp).None? then 404
                                   else 200
      ensures r.Panic? ==> w.source.Some? && w.parseSdp(w.source.value.sdp).Some?
                           && !HaveFormats(w.parseSdp(w.source.value.sdp).value)
      ensures r.Ok? && r.value == 200 ==>
                && mode == PlaySession && rawSdp == w.source.value.sdp
                && aControl == LastControl(w.parseSdp(rawSdp).value, Audio, old(aControl))
                && vControl == LastControl(w.parseSdp(rawSdp).value, Video, old(vControl))
      ensures r.Ok? && r.value != 200 ==> mode == old(mode)
    {
      if !websocket { path := Canonical(req.path); }
      if w.source.None? { return Ok(404); }
      if !w.pull { return Ok(403); }
      var sdpRaw := w.source.value.sdp;
      if |sdpRaw| == 0 { return Ok(404); }
      var ok :- ParseSdp(sdpRaw, w);
      if !ok { return Ok(404); }
      mode := PlaySession;
      return Ok(200);
    }

    method OnAnnounce(req: Request, w: World) returns (r: Result<int>)
      requires Valid() && status == Init
      modifies this`path, this`rawSdp, this`aControl, this`vControl, this`mode
      ensures r.Ok? ==> Sound()
      ensures r.Ok? ==> r.value == if req.contentType != "application/sdp" then 400
                                   else if !w.push then 403
                                   else if w.parseSdp(req.body).None? then 400
                                   else 200
      ensures r.Panic? ==> w.parseSdp(req.body).Some? && !HaveFormats(w.parseSdp(req.body).value)
      ensures r.Ok? && r.value == 200 ==>
                && mode == RecordSession && rawSdp == req.body && path == Canonical(req.path)
                && aControl == LastControl(w.parseSdp(rawSdp).value, Audio, old(aControl))
                && vControl == LastControl(w.parseSdp(rawSdp).value, Video, old(vControl))
      ensures r.Ok? && r.value != 200 ==> mode == old(mode)
    {
      if req.contentType != "application/sdp" { return Ok(400); }
      path := Canonical(req.path);
      if !w.push { return Ok(403); }
      var ok :- ParseSdp(req.body, w);
      if !ok { return Ok(400); }
      mode := RecordSession;
      return Ok(200);
    }

    /** The channel that a SETUP is for; audio is tried first. */
    ghost function ChannelOf(req: Request, w: World): Option<nat>
      reads this`vControl, this`aControl
    {
      var v, a := ControlPath(vControl, w), ControlPath(aControl, w);
      if v.None? || a.None? then None
      else if Names(req.address, a.value) then Some(2)
      else if Names(req.address, v.value) then Some(0)
      else None
    }

    /** Everything a SETUP asks for is there. */
    ghost predicate SetupGranted(req: Request, w: World)
      reads this`vControl, this`aControl, this`mode, this`transport
    {
      && ChannelOf(req, w).Some?
      && var t := Parsed(transport, ChannelOf(req, w).value, req.transport);
      && t.1 && mode == t.0.mode
      && if mode == RecordSession then w.push && t.0.kind == TcpUnicast
         else w.pull && (t.0.kind == Multicast ==> w.source.Some? && w.source.value.multicastable)
    }

    /** Why a SETUP is refused, or 200. */
    ghost function SetupCode(req: Request, w: World): int
      reads this`vControl, this`aControl, this`mode, this`transport
    {
      match ChannelOf(req, w)
      case None => 500
      case Some(i) =>
        var t := Parsed(transport, i, req.transport);
        if !t.1 || mode != t.0.mode then 451
        else if mode == RecordSession then
          if !w.push then 403 else if t.0.kind != TcpUnicast then 461 else 200
        else if !w.pull then 403
        else if t.0.kind != Multicast then 200
        else if w.source.None? then 404
        else if !w.source.value.multicastable then 461
        else 200
    }

    method OnSetup(req: Request, w: World) returns (code: int)
      requires Valid() && (status == Init || status == Ready) && req.address != ""
      requires w.parseUrl(vControl) != Some("") && w.parseUrl(aControl) != Some("")
      modifies this`mode, this`transport, this`status
      ensures Sound() && mode == old(mode)
      ensures code == 200 ==> mode != UnknownSession
      ensures code == old(SetupCode(req, w)) && (code == 200 <==> old(SetupGranted(req, w)))
      ensures status == if code == 200 then Ready else old(status)
      ensures transport == match old(ChannelOf(req, w))
                           case Some(i) => Parsed(old(transport), i, req.transport).0
                           case None => old(transport)
    {
      hide Parsed, ChannelOf;
      var chosen := ChooseChannel(req, w);
      if chosen.None? { return 500; }
      var chindex := chosen.value;
      ghost var _ := NamedIsDescribed(req, w);
      ParsedSettled(transport, chindex, req.transport);
      var ok;
      transport, ok := ParseTransport(transport, chindex, req.transport);
      if !ok { return 451; }
      mode := if mode == UnknownSession then transport.mode else mode;
      if mode != transport.mode { return 451; }
      if mode == RecordSession {
        if !w.push { return 403; }
        if transport.kind != TcpUnicast { return 461; }
        if status == Init { status := Ready; }
        return 200;
      }
      if !w.pull { return 403; }
      if transport.kind == Multicast {
        if w.source.None? { return 404; }
        if !w.source.value.multicastable { return 461; }
      }
      if status == Init { status := Ready; }
      return 200;
    }

    method ChooseChannel(req: Request, w: World) returns (chindex: Option<nat>)
      ensures chindex == ChannelOf(req, w) && (chindex.Some? ==> chindex.value in [0, 2])
    {
      hide Names, HasUrlPrefix;
      var vPath := ControlPath(vControl, w);
      if vPath.None? { return None; }
      var aPath := ControlPath(aControl, w);
      if aPath.None? { return None; }
      if Names(req.address, aPath.value) { return Some(2); }
      if Names(req.address, vPath.value) { return Some(0); }
      return None;
    }

    /** Without a description there is no control path to name. */
    lemma NamedIsDescribed(req: Request, w: World) returns (i: nat)
      requires Valid() && req.address != "" && ChannelOf(req, w).Some?
      requires w.parseUrl(vControl) != Some("") && w.parseUrl(aControl) != Some("")
      ensures i < |replies| && replies[i].Describes() && mode != UnknownSession
    {
      if aControl == "" && vControl == "" {
        NamesWhat(req.address, "");
      }
      i := ModeNeeds(replies);
    }

    method OnRecord(req: Request, w: World) returns (code: int)
      requires Valid() && (status == Ready || status == Recording)
      modifies this`stream, this`status
      ensures Sound()
      ensures status == if old(status) == Ready && code == 200 then Recording else old(status)
      ensures code == if old(status) == Recording then 200
                      else if mode != RecordSession || transport.kind != TcpUnicast then 455
                      else if !w.push then 403
                      else 200
    {
      if status == Recording { return 200; }
      if mode != RecordSession || transport.kind != TcpUnicast { return 455; }
      if !w.push { return 403; }
      stream := TcpPushStream;
      status := Recording;
      return 200;
    }

    ghost predicate PlayGranted(w: World)
      reads this`mode, this`transport
    {
      mode == PlaySession && transport.kind != UnknownTrans && w.source.Some? && w.pull
    }

    /** The transport that was set up can be served. */
    ghost predicate Servable(w: World)
      requires w.source.Some?
      reads this`transport
    {
      match transport.kind
      case TcpUnicast => true
      case UdpUnicast => w.udpReady
      case _ => w.source.value.multicastable
    }

    /** The answer to a first PLAY. */
    ghost function PlayCode(w: World): int
      reads this`mode, this`transport
    {
      if mode != PlaySession || transport.kind == UnknownTrans then 455
      else if w.source.None? then 404
      else if !w.pull then 403
      else ServeCode(w)
    }

    ghost function ServeCode(w: World): int
      requires w.source.Some?
      reads this`transport
    {
      if Servable(w) then 200 else if transport.kind == UdpUnicast then 500 else 461
    }

    method AsConsumer(req: Request, source: Source, w: World) returns (err: bool)
      requires w.source == Some(source) && InOrder(replies) && req.verb == PLAY
      modifies this`replies, this`consumer
      ensures err == !w.written && InOrder(replies)
      ensures replies == old(replies) + [Reply(PLAY, req.cseq, ServeCode(w), w.written)]
      ensures StatusAfter(replies) == Moved(old(StatusAfter(replies)), replies[|replies| - 1])
      ensures ModeAfter(replies) == old(ModeAfter(replies))
      ensures !err && Servable(w) ==> consumer == match transport.kind
                                                  case TcpUnicast => TcpConsumer
                                                  case UdpUnicast => UdpConsumer
                                                  case _ => MulticastConsumer
      ensures err || !Servable(w) ==> consumer == old(consumer)
    {
      hide StatusAfter, ModeAfter, InOrder;
      match transport.kind
      case TcpUnicast =>
        err := Respond(req, 200, w);
        if err { return true; }
        consumer := TcpConsumer;
      case UdpUnicast =>
        if !w.udpReady {
          err := Respond(req, 500, w);
          return err;
        }
        err := Respond(req, 200, w);
        if err { return true; }
        consumer := UdpConsumer;
      case _ =>
        if !source.multicastable {
          err := Respond(req, 461, w);
          return err;
        }
        err := Respond(req, 200, w);
        if err { return true; }
        consumer := MulticastConsumer;
    }

    /** A second PLAY is not answered. A transport that cannot be served is
        refused, and yet the session counts as playing, without a consumer. */
    method OnPlay(req: Request, w: World) returns (err: bool)
      requires Valid() && (status == Ready || status == Playing) && req.verb == PLAY
      modifies this`replies, this`consumer, this`status
      ensures Valid()
      ensures old(status) == Playing ==> status == Playing && replies == old(replies) && consumer == old(consumer) && !err
      ensures old(status) == Ready ==> replies == old(replies) + [Reply(PLAY, req.cseq, PlayCode(w), w.written)]
      ensures old(status) == Ready ==> status == if PlayGranted(w) && w.written then Playing else Ready
      ensures old(status) == Ready && status == Playing ==> (consumer == NoConsumer <==> !Servable(w))
      ensures old(status) == Ready ==> err == !w.written
    {
      hide StatusAfter, ModeAfter, InOrder;
      if status == Playing { return false; }
      if mode != PlaySession || transport.kind == UnknownTrans {
        err := Respond(req, 455, w);
        return err;
      }
      if w.source.None? {
        err := Respond(req, 404, w);
        return err;
      }
      if !w.pull {
        err := Respond(req, 403, w);
        return err;
      }
      err := AsConsumer(req, w.source.value, w);
      if !err { status := Playing; }
    }

    ghost predicate Answered(before: seq<Reply>, cseq: string)
      reads this
    {
      |replies| == |before| + 1 && before <= replies && replies[|before|].cseq == cseq
    }

    ghost predicate Allowed(verb: Verb)
      reads this
    {
      match status
      case Init => verb != PLAY && verb != RECORD
      case Ready => verb == SETUP || verb == PLAY || verb == RECORD
      case Playing => verb == PLAY
      case Recording => verb == RECORD
    }

    method OnPreprocess(req: Request, w: World) returns (goOn: bool, err: bool)
      requires Valid()
      modifies this`replies, this`closed
      ensures Valid()
      ensures goOn <==> req.verb != OPTIONS && req.verb != TEARDOWN && Allowed(req.verb) && w.authorized
      ensures goOn ==> replies == old(replies) && closed == old(closed)
      ensures !goOn ==> err == !w.written && replies == old(replies) + [Reply(req.verb, req.cseq,
                          if req.verb == OPTIONS || req.verb == TEARDOWN then 200
                          else if !Allowed(req.verb) then 455 else 401, w.written)]
      ensures closed == (old(closed) || req.verb == TEARDOWN)
    {
      hide StatusAfter, ModeAfter, InOrder, Sound;
      if req.verb == OPTIONS {
        err := Respond(req, 200, w);
        return false, err;
      }
      if req.verb == TEARDOWN {
        err := Respond(req, 200, w);
        closed := true;
        return false, err;
      }
      match status {
        case Ready => goOn := req.verb == SETUP || req.verb == PLAY || req.verb == RECORD;
        case Playing => goOn := req.verb == PLAY;
        case Recording => goOn := req.verb == RECORD;
        case Init => goOn := !(req.verb == PLAY || req.verb == RECORD);
      }
      if !goOn {
        err := Respond(req, 455, w);
        return false, err;
      }
      if !w.authorized {
        err := Respond(req, 401, w);
        return false, err;
      }
      return true, false;
    }

    /** The status never moves back, and each change has its verb and
        its conditions; every request but a repeated PLAY is answered exactly
        once, with its own sequence number, unless it ends the session. */
    method OnRequest(req: Request, w: World) returns (r: Result<bool>)
      requires Valid() && req.address != ""
      requires w.parseUrl(vControl) != Some("") && w.parseUrl(aControl) != Some("")
      modifies this
      ensures r.Ok? ==> Valid()
      ensures old(status).Rank() <= status.Rank()
      ensures status == old(status)
              || (old(status) == Init && status == Ready && req.verb == SETUP)
              || (old(status) == Ready && status == Playing && req.verb == PLAY)
              || (old(status) == Ready && status == Recording && req.verb == RECORD)
      ensures old(status) == Init ==> (status == Ready <==> req.verb == SETUP && w.authorized && old(SetupGranted(req, w)))
      ensures old(status) == Ready ==>
                (status == Playing <==> req.verb == PLAY && w.authorized && old(PlayGranted(w)) && w.written)
      ensures old(status) == Ready ==>
                (status == Recording <==> req.verb == RECORD && w.authorized && w.push
                                          && mode == RecordSession && transport.kind == TcpUnicast)
      ensures r.Panic? ==> req.verb == DESCRIBE || req.verb == ANNOUNCE
      ensures if r.Panic? || (req.verb == PLAY && old(status) == Playing && w.authorized)
              then replies == old(replies) else Answered(old(replies), req.cseq)
      ensures closed == (old(closed) || req.verb == TEARDOWN)
    {
      hide StatusAfter, ModeAfter, InOrder, Sound, SetupGranted, PlayGranted, ChannelOf, Parsed, Names, HasUrlPrefix;
      hide Servable;
      var goOn, err := OnPreprocess(req, w);
      if !goOn { return Ok(err); }
      if req.verb == PLAY {
        err := OnPlay(req, w);
        return Ok(err);
      }
      var code :- Dispatch(req, w);
      err := Respond(req, code, w);
      return Ok(err);
    }

    /** All requests that are answered in one place. */
    method Dispatch(req: Request, w: World) returns (r: Result<int>)
      requires Valid() && req.verb != OPTIONS && req.verb != TEARDOWN && req.verb != PLAY && Allowed(req.verb)
      requires req.address != "" && w.parseUrl(vControl) != Some("") && w.parseUrl(aControl) != Some("")
      modifies this
      ensures r.Ok? ==> Sound()
      ensures r.Ok? ==>
                var a := Reply(req.verb, req.cseq, r.value, w.written);
                && status == Moved(old(status), a) && mode == Described(old(mode), a)
                && (a.SetsUp() ==> old(mode) != UnknownSession)
      ensures r.Panic? ==> req.verb == DESCRIBE || req.verb == ANNOUNCE
      ensures replies == old(replies) && closed == old(closed) && consumer == old(consumer)
      ensures req.verb != SETUP && req.verb != RECORD ==> status == old(status)
      ensures req.verb == SETUP ==> status == if old(SetupGranted(req, w)) then Ready else old(status)
      ensures req.verb == RECORD ==>
                status == if old(status) == Recording || (mode == RecordSession && transport.kind == TcpUnicast && w.push)
                          then Recording else old(status)
      ensures req.verb == RECORD ==> mode == old(mode) && transport == old(transport)
      ensures req.verb == SETUP ==> mode == old(mode)
      ensures r.Ok? && req.verb == OTHER ==> r.value == 455
    {
      hide StatusAfter, ModeAfter, InOrder, SetupGranted, PlayGranted, ChannelOf, Parsed, Names, HasUrlPrefix, Servable;
      match req.verb {
        case DESCRIBE => r := OnDescribe(req, w);
        case ANNOUNCE => r := OnAnnounce(req, w);
        case SETUP =>
          var code := OnSetup(req, w);
          r := Ok(code);
        case RECORD =>
          var code := OnRecord(req, w);
          r := Ok(code);
        case _ => r := Ok(455);
      }
    }

    /** The end of the session. */
    method Finish()
      modifies this
      ensures closed && status == Init && stream == NoStream && consumer == NoConsumer
      ensures replies == old(replies)
    {
      closed := true;
      status, stream, consumer := Init, NoStream, NoConsumer;
    }
  }

  /** What the status of a session says about its past and its fields. Ready
      needs a successful description and, later, a successful SETUP; playing
      and recording, later still, the answer that started them. */
  lemma StatusMeans(s: Session) returns (i: nat, j: nat, k: nat)
    requires s.Valid() && s.status != Init
    ensures i < j < |s.replies|
    ensures s.replies[i].verb in {DESCRIBE, ANNOUNCE} && s.replies[i].code == 200
    ensures s.replies[j].verb == SETUP && s.replies[j].code == 200
    ensures s.status == Playing ==>
              j < k < |s.replies| && s.replies[k].verb == PLAY && s.replies[k].code in {200, 461, 500} &&
              s.replies[k].written && s.mode == PlaySession && s.transport.kind != UnknownTrans && s.stream == NoStream
    ensures s.status == Recording ==>
              j < k < |s.replies| && s.replies[k].verb == RECORD && s.replies[k].code == 200 &&
              s.mode == RecordSession &&
              s.transport.kind == TcpUnicast && s.stream == TcpPushStream && s.consumer == NoConsumer
  {
    j, k := StatusNeeds(s.replies);
    i :| 0 <= i < j && s.replies[i].Describes();
  }

  /** Which request described the session last, if it has a mode at all. */
  lemma ModeMeans(s: Session) returns (i: nat)
    requires s.Valid() && s.mode != UnknownSession
    ensures i < |s.replies| && s.replies[i].verb in {DESCRIBE, ANNOUNCE} && s.replies[i].code == 200
    ensures forall k :: i < k < |s.replies| ==> s.replies[k].verb !in {DESCRIBE, ANNOUNCE} || s.replies[k].code != 200
    ensures s.mode == if s.replies[i].verb == DESCRIBE then PlaySession else RecordSession
  {
    i := ModeNeeds(s.replies);
  }

  // ---- Channels, in plain terms

  /** An address with the scheme of RTSP, in whatever case. */
  ghost predicate IsUrl(s: string) {
    |s| >= 7 && SameButCase(s[..7], "rtsp://")
  }

  lemma PrefixIs(s: string)
    ensures HasUrlPrefix(s) <==> IsUrl(s)
  {
    if |s| >= 7 {
      var x := s[..7];
      LowerIs(x);
      if IsUrl(s) {
        forall k | 0 <= k < 7 ensures ToLower(x)[k] == "rtsp://"[k] {
          assert SameLetter(x[k], "rtsp://"[k]);
        }
      }
    }
  }

  /** What the session compares an address with. */
  ghost function Compared(control: string, w: World): Option<string> {
    if IsUrl(control) then w.parseUrl(control) else Some(control)
  }

  /** What it takes for naming a control path. */
  ghost predicate EndsIn(address: string, control: string) {
    && control != ""
    && (|control| == |address| + 1 || (|control| <= |address| && address[|address| - |control|..] == control))
  }

  /** Channel 2 is that of the audio and channel 0 that of the video; an address
      that names both is for the audio. */
  lemma ChannelMeans(s: Session, req: Request, w: World)
    requires req.address != ""
    ensures
      var v, a := Compared(s.vControl, w), Compared(s.aControl, w);
      && (s.ChannelOf(req, w) == Some(2) <==> v.Some? && a.Some? && EndsIn(req.address, a.value))
      && (s.ChannelOf(req, w) == Some(0) <==>
          v.Some? && a.Some? && !EndsIn(req.address, a.value) && EndsIn(req.address, v.value))
      && (s.ChannelOf(req, w).Some? ==> s.ChannelOf(req, w).value in {0, 2})
  {
    hide IsUrl, HasUrlPrefix, Names;
    PrefixIs(s.vControl);
    PrefixIs(s.aControl);
    var v, a := ControlPath(s.vControl, w), ControlPath(s.aControl, w);
    if v.Some? { NamesWhat(req.address, v.value); }
    if a.Some? { NamesWhat(req.address, a.value); }
  }

  /** The control of a kind is that of its last medium. */
  lemma {:induction false} LastControlIs(front: seq<Media>, m: Media, rest: seq<Media>, before: string)
    requires forall i :: 0 <= i < |rest| ==> rest[i].kind != m.kind
    ensures LastControl(front + [m] + rest, m.kind, before) == m.control
    ensures LastControl(rest, m.kind, before) == before
  {
    if rest == [] {
      assert front + [m] + rest == front + [m];
    } else {
      var n := |rest| - 1;
      LastControlIs(front, m, rest[..n], before);
      assert (front + [m] + rest)[..|front| + 1 + n] == front + [m] + rest[..n];
    }
  }

  // ---- Who may ask for what, and what is answered, in plain terms

  lemma AllowedWhen(s: Session, verb: Verb)
    ensures s.Allowed(verb) <==>
            match s.status
            case Init => verb in {OPTIONS, DESCRIBE, ANNOUNCE, SETUP, TEARDOWN, OTHER}
            case Ready => verb in {SETUP, PLAY, RECORD}
            case Playing => verb == PLAY
            case Recording => verb == RECORD
  {
  }

  /** The answer to a SETUP, code by code: 500 when the address names no medium,
      451 when the transport is malformed or of the other mode, 403 without the
      permission, 461 for a transport that cannot be served, and 404 for multicast
      without a stream. */
  lemma SetupAnswers(s: Session, req: Request, w: World)
    ensures
      var code, i := s.SetupCode(req, w), s.ChannelOf(req, w);
      if i.None? then code == 500 && !s.SetupGranted(req, w)
      else
        var t := Parsed(s.transport, i.value, req.transport);
        var fits := t.1 && t.0.mode == s.mode;
        var play := s.mode != RecordSession;
        var multicast := t.0.kind == Multicast;
        var source := w.source.Some?;
        && (code == 451 <==> !fits)
        && (code == 403 <==> fits && if play then !w.pull else !w.push)
        && (code == 404 <==> fits && play && w.pull && multicast && !source)
        && (code == 461 <==> fits && if play then w.pull && multicast && source && !w.source.value.multicastable
                                     else w.push && t.0.kind != TcpUnicast)
        && (code == 200 <==> s.SetupGranted(req, w))
        && (code == 200 <==> fits && if play then w.pull && (multicast ==> source && w.source.value.multicastable)
                                     else w.push && t.0.kind == TcpUnicast)
        && code in {451, 403, 404, 461, 200}
  {
    hide Session.ChannelOf, Parsed;
  }

  /** The answer to a PLAY, code by code, and when it is granted: in play mode, with
      a transport set up, a stream to play and the permission; and when it can be
      served: over the connection always, over UDP with a socket, and by multicast
      if the stream has one. */
  lemma PlayAnswers(s: Session, w: World)
    ensures
      var code := s.PlayCode(w);
      var source := w.source.Some?;
      var sound := s.mode == PlaySession && s.transport.kind != UnknownTrans;
      var served := source && match s.transport.kind
                              case TcpUnicast => true
                              case UdpUnicast => w.udpReady
                              case _ => w.source.value.multicastable;
      && (code == 455 <==> !sound)
      && (code == 404 <==> sound && !source)
      && (code == 403 <==> sound && source && !w.pull)
      && (s.PlayGranted(w) <==> sound && source && w.pull)
      && (code == 500 <==> s.PlayGranted(w) && s.transport.kind == UdpUnicast && !served)
      && (code == 461 <==> s.PlayGranted(w) && s.transport.kind == Multicast && !served)
      && (code == 200 <==> s.PlayGranted(w) && served)
      && (source ==> (s.Servable(w) <==> served))
  {
  }

  /** A video or an audio without a format is what ends a session. */
  lemma FormatsNeeded(media: seq<Media>)
    ensures HaveFormats(media) <==>
            !exists i :: 0 <= i < |media| && media[i].formats == 0 && (media[i].kind == Video || media[i].kind == Audio)
  {
  }
}
