/**
 * What one connection of MiniSlipstreamSocksBridge.kt owes its two peers, as a function of the
 * bytes each of them has sent, and the steps that keep it.
 */
module BridgeSpec {
  import opened Bytes
  import opened Wrappers
  import opened SocksProtocol
  import opened Handshake
  import opened Verdicts

  /** The client's conversation, and the server's once the client has asked. */
  function Asks(cfg: Config, clientGot: seq<Byte>): Client {
    ClientRun(cfg, ClientGreeting, clientGot)
  }

  function Serves(cfg: Config, clientGot: seq<Byte>, remoteGot: seq<Byte>): Server
    requires Asks(cfg, clientGot).Asked?
  {
    ServerRun(cfg, Asks(cfg, clientGot).request, Phase.UpstreamGreeting, remoteGot)
  }

  function Head(cfg: Config): (r: seq<Byte>)
    ensures |r| == 3
  {
    SocksProtocol.UpstreamGreeting(cfg.HasAuth())
  }

  /** All that is owed to the client. */
  function ClientStream(cfg: Config, clientGot: seq<Byte>, remoteGot: seq<Byte>): seq<Byte> {
    match Asks(cfg, clientGot)
    case Asked(o, _, _) => (
      match Serves(cfg, clientGot, remoteGot)
      case Up(_, down) => o + ClientReply(0) + down
      case _ => o
    )
    case c => c.out
  }

  /** All that is owed to the server once it is connected: the handshake, then what the client sent. */
  function RemoteStream(cfg: Config, clientGot: seq<Byte>, remoteGot: seq<Byte>): seq<Byte> {
    match Asks(cfg, clientGot)
    case Asked(_, _, data) => (
      match Serves(cfg, clientGot, remoteGot)
      case Up(f, _) => Head(cfg) + f + data
      case s => Head(cfg) + s.out
    )
    case _ => []
  }

  /** A connection: toClient and toRemote are all that was ever put on the way to either peer. */
  datatype State = State(
    phase: Phase, hs: seq<Byte>, toClient: seq<Byte>, toRemote: seq<Byte>,
    early: seq<Byte>, request: Request, closing: bool, hasRemote: bool,
    clientGot: seq<Byte>, remoteGot: seq<Byte>
  )

  const HS_BUF := 1024

  /** The client has asked and the server is to be told. */
  predicate Asking(cfg: Config, s: State) {
    && Asks(cfg, s.clientGot) == Asked(s.toClient, s.request, s.early)
    && |s.early| <= HS_BUF && !s.closing
  }

  /** Between two events, every connection is where the bytes it has seen put it. */
  predicate Tracks(cfg: Config, s: State) {
    if s.closing then
      ClientPhase(s.phase) && !s.hasRemote && Failing(cfg, s)
    else if ClientPhase(s.phase) then
      && Asks(cfg, s.clientGot) == Waiting(s.toClient, s.phase, s.hs)
      && s.remoteGot == [] && s.toRemote == [] && s.early == [] && !s.hasRemote
    else if s.phase.UpstreamConnecting? then
      && Asking(cfg, s) && s.hasRemote
      && s.hs == [] && s.remoteGot == [] && s.toRemote == []
    else if UpstreamPhase(s.phase) then
      && Asking(cfg, s) && s.hasRemote
      && Head(cfg) <= s.toRemote
      && Serves(cfg, s.clientGot, s.remoteGot) == Pending(s.toRemote[3..], s.phase, s.hs)
    else
      && Asks(cfg, s.clientGot).Asked? && Serves(cfg, s.clientGot, s.remoteGot).Up?
      && s.toClient == ClientStream(cfg, s.clientGot, s.remoteGot)
      && s.toRemote == RemoteStream(cfg, s.clientGot, s.remoteGot)
      && s.hasRemote
  }

  /** A failed connection has told its client why, or has something else left to tell it. */
  predicate Failing(cfg: Config, s: State) {
    && s.toRemote <= RemoteStream(cfg, s.clientGot, s.remoteGot)
    && match Asks(cfg, s.clientGot)
       case Refused(o) => s.toClient == o
       case Asked(o, _, _) =>
         && !Serves(cfg, s.clientGot, s.remoteGot).Up?
         && (s.toClient == o || s.toClient == o + ClientReply(5))
       case _ => false
  }

  /** Nothing goes out that is not owed, but the report of a failure. */
  predicate Sound(cfg: Config, s: State) {
    && s.toClient <= ClientStream(cfg, s.clientGot, s.remoteGot) + ClientReply(5)
    && s.toRemote <= RemoteStream(cfg, s.clientGot, s.remoteGot)
  }

  // ---- the parse loops in flight ----

  predicate ClientLoop(cfg: Config, s: State) {
    && ClientPhase(s.phase) && !s.closing && !s.hasRemote
    && Asks(cfg, s.clientGot) == ClientRun(cfg, s.phase, s.hs).After(s.toClient)
    && s.remoteGot == [] && s.toRemote == [] && s.early == [] && |s.hs| <= HS_BUF
  }

  predicate ServerLoop(cfg: Config, s: State) {
    && UpstreamPhase(s.phase) && Asking(cfg, s) && s.hasRemote
    && Head(cfg) <= s.toRemote && |s.hs| <= HS_BUF
    && Serves(cfg, s.clientGot, s.remoteGot) == ServerRun(cfg, s.request, s.phase, s.hs).After(s.toRemote[3..])
  }

  lemma ClientArrives(cfg: Config, s: State, m: seq<Byte>)
    requires Tracks(cfg, s) && ClientPhase(s.phase) && !s.closing && |s.hs + m| <= HS_BUF
    ensures ClientLoop(cfg, s.(hs := s.hs + m, clientGot := s.clientGot + m))
  {
    hide ClientRun, ServerRun;
    ClientMore(cfg, ClientGreeting, s.clientGot, m);
  }

  lemma ServerArrives(cfg: Config, s: State, m: seq<Byte>)
    requires Tracks(cfg, s) && UpstreamPhase(s.phase) && !s.closing && |s.hs + m| <= HS_BUF
    ensures ServerLoop(cfg, s.(hs := s.hs + m, remoteGot := s.remoteGot + m))
  {
    hide ClientRun, ServerRun;
    ServerMore(cfg, s.request, Phase.UpstreamGreeting, s.remoteGot, m);
  }

  lemma ClientSound(cfg: Config, s: State)
    requires ClientLoop(cfg, s)
    ensures Sound(cfg, s)
  {
    hide ClientRun, ServerRun;
    var c := Asks(cfg, s.clientGot);
    assert s.toClient <= c.out;
    Longer(c.out, s.clientGot, cfg);
    assert c.out <= ClientStream(cfg, s.clientGot, s.remoteGot);
  }

  lemma Longer(o: seq<Byte>, clientGot: seq<Byte>, cfg: Config)
    requires o == Asks(cfg, clientGot).out
    ensures forall rg :: o <= ClientStream(cfg, clientGot, rg)
  {
    hide ClientRun, ServerRun;
  }

  lemma TracksSound(cfg: Config, s: State)
    requires Tracks(cfg, s)
    ensures Sound(cfg, s)
  {
    hide ClientRun, ServerRun;
    Longer(Asks(cfg, s.clientGot).out, s.clientGot, cfg);
    if s.closing {
    } else if UpstreamPhase(s.phase) {
      ServerSound(cfg, s, s.toRemote[3..]);
    }
  }

  lemma ServerSound(cfg: Config, s: State, f: seq<Byte>)
    requires Asking(cfg, s) && s.toRemote == Head(cfg) + f && f <= Serves(cfg, s.clientGot, s.remoteGot).out
    ensures Sound(cfg, s)
  {
    hide ClientRun, ServerRun;
    Longer(s.toClient, s.clientGot, cfg);
  }

  lemma ServerLoopSound(cfg: Config, s: State)
    requires ServerLoop(cfg, s)
    ensures Sound(cfg, s) && forall hs :: Sound(cfg, s.(hs := hs))
  {
    hide ClientRun, ServerRun;
    ServerSound(cfg, s, s.toRemote[3..]);
  }

  // ---- one message of the client ----

  lemma ClientWaits(cfg: Config, s: State)
    requires ClientLoop(cfg, s) && ClientRun(cfg, s.phase, s.hs) == Waiting([], s.phase, s.hs)
    ensures Tracks(cfg, s)
  {
    hide ClientRun, ServerRun;
    assert s.toClient + [] == s.toClient;
  }

  /** An accepted greeting or login: one answer and the next phase. */
  lemma ClientSteps(cfg: Config, s: State, answer: seq<Byte>, next: Phase, n: nat)
    requires ClientLoop(cfg, s) && n <= |s.hs| && ClientPhase(next)
    requires ClientRun(cfg, s.phase, s.hs) == ClientRun(cfg, next, s.hs[n..]).After(answer)
    ensures ClientLoop(cfg, s.(hs := s.hs[n..], toClient := s.toClient + answer, phase := next))
  {
    hide ClientRun, ServerRun;
    ClientAfter(ClientRun(cfg, next, s.hs[n..]), s.toClient, answer);
  }

  lemma ClientRefused(cfg: Config, s: State, answer: seq<Byte>, hs: seq<Byte>)
    requires ClientLoop(cfg, s) && ClientRun(cfg, s.phase, s.hs) == Refused(answer)
    ensures Tracks(cfg, s.(hs := hs, toClient := s.toClient + answer, closing := true))
    ensures Asks(cfg, s.clientGot).Refused?
  {
    hide ClientRun, ServerRun;
  }

  lemma ClientAsked(cfg: Config, s: State, r: Request, rest: seq<Byte>)
    requires ClientLoop(cfg, s) && ClientRun(cfg, s.phase, s.hs) == Asked([], r, rest) && |rest| <= HS_BUF
    ensures
      var s' := s.(hs := [], early := rest, request := r);
      && Tracks(cfg, s'.(phase := UpstreamConnecting, hasRemote := true))
      && Asking(cfg, s')
      && Failing(cfg, s')
      && !Serves(cfg, s.clientGot, s.remoteGot).Up?
  {
    hide ClientRun, ServerRun;
    assert s.toClient + [] == s.toClient;
    ServerStart(cfg, r);
  }

  lemma ServerStart(cfg: Config, r: Request)
    ensures ServerRun(cfg, r, Phase.UpstreamGreeting, []) == Pending([], Phase.UpstreamGreeting, [])
  {
  }

  // ---- one message of the server ----

  lemma Connected(cfg: Config, s: State)
    requires Tracks(cfg, s) && s.phase.UpstreamConnecting? && !s.closing
    ensures Tracks(cfg, s.(phase := Phase.UpstreamGreeting, toRemote := s.toRemote + Head(cfg)))
  {
    hide ClientRun, ServerRun;
    ServerStart(cfg, s.request);
    assert [] + Head(cfg) == Head(cfg) && Head(cfg)[3..] == [];
  }

  lemma ServerWaits(cfg: Config, s: State)
    requires ServerLoop(cfg, s) && ServerRun(cfg, s.request, s.phase, s.hs) == Pending([], s.phase, s.hs)
    ensures Tracks(cfg, s)
  {
    hide ClientRun, ServerRun;
    assert s.toRemote[3..] + [] == s.toRemote[3..];
  }

  lemma ServerSteps(cfg: Config, s: State, frame: seq<Byte>, next: Phase, n: nat)
    requires ServerLoop(cfg, s) && n <= |s.hs| && UpstreamPhase(next)
    requires ServerRun(cfg, s.request, s.phase, s.hs) == ServerRun(cfg, s.request, next, s.hs[n..]).After(frame)
    ensures ServerLoop(cfg, s.(hs := s.hs[n..], toRemote := s.toRemote + frame, phase := next))
  {
    hide ClientRun, ServerRun;
    assert (s.toRemote + frame)[3..] == s.toRemote[3..] + frame;
    ServerAfter(ServerRun(cfg, s.request, next, s.hs[n..]), s.toRemote[3..], frame);
  }

  lemma ServerFails(cfg: Config, s: State)
    requires ServerLoop(cfg, s) && ServerRun(cfg, s.request, s.phase, s.hs).Failed?
    ensures Failing(cfg, s) && Asking(cfg, s)
    ensures Asks(cfg, s.clientGot).Asked? && Serves(cfg, s.clientGot, s.remoteGot).Failed?
  {
    hide ClientRun, ServerRun;
  }

  /** A server that hangs up in the middle of its handshake has failed too. */
  lemma GivesUp(cfg: Config, s: State)
    requires Tracks(cfg, s) && !s.closing && (s.phase.UpstreamConnecting? || UpstreamPhase(s.phase))
    ensures Failing(cfg, s) && Asking(cfg, s) && Asks(cfg, s.clientGot).Asked?
  {
    hide ClientRun, ServerRun;
    if s.phase.UpstreamConnecting? {
      ServerStart(cfg, s.request);
    }
  }

  /** What failUpstream leaves behind. */
  lemma FailedTracks(cfg: Config, s: State, reported: bool)
    requires Failing(cfg, s) && Asking(cfg, s)
    ensures Tracks(cfg, s.(
      phase := ClientRequest, closing := true, hasRemote := false,
      toClient := if reported then s.toClient + ClientReply(5) else s.toClient))
  {
    hide ClientRun, ServerRun, ClientReply;
  }

  lemma RelayBegins(cfg: Config, s: State, n: nat)
    requires ServerLoop(cfg, s) && s.phase.UpstreamCommand? && n <= |s.hs|
    requires ServerRun(cfg, s.request, s.phase, s.hs) == Up([], s.hs[n..])
    ensures Tracks(cfg, s.(
      hs := [], phase := Phase.Relay, early := [],
      toClient := s.toClient + ClientReply(0) + s.hs[n..], toRemote := s.toRemote + s.early))
  {
    hide ClientRun, ServerRun, ClientReply;
    assert s.toRemote[3..] + [] == s.toRemote[3..];
    assert s.toRemote == Head(cfg) + s.toRemote[3..];
  }

  // ---- the relay ----

  lemma Upload(cfg: Config, s: State, m: seq<Byte>)
    requires Tracks(cfg, s) && s.phase.Relay? && !s.closing
    ensures Tracks(cfg, s.(clientGot := s.clientGot + m, toRemote := s.toRemote + m))
    ensures RemoteStream(cfg, s.clientGot + m, s.remoteGot) == RemoteStream(cfg, s.clientGot, s.remoteGot) + m
    ensures ClientStream(cfg, s.clientGot + m, s.remoteGot) == ClientStream(cfg, s.clientGot, s.remoteGot)
  {
    hide ClientRun, ServerRun, ClientReply;
    ClientMore(cfg, ClientGreeting, s.clientGot, m);
  }

  lemma Download(cfg: Config, s: State, m: seq<Byte>)
    requires Tracks(cfg, s) && s.phase.Relay? && !s.closing
    ensures Tracks(cfg, s.(remoteGot := s.remoteGot + m, toClient := s.toClient + m))
    ensures ClientStream(cfg, s.clientGot, s.remoteGot + m) == ClientStream(cfg, s.clientGot, s.remoteGot) + m
    ensures RemoteStream(cfg, s.clientGot, s.remoteGot + m) == RemoteStream(cfg, s.clientGot, s.remoteGot)
  {
    hide ClientRun, ServerRun, ClientReply;
    ServerMore(cfg, Asks(cfg, s.clientGot).request, Phase.UpstreamGreeting, s.remoteGot, m);
  }

  // ---- room in the buffers ----

  lemma ClientRoom(cfg: Config, s: State)
    requires ClientLoop(cfg, s) || Asking(cfg, s)
    ensures |s.toClient| <= 14
    ensures Asking(cfg, s) ==> RequestOk(s.request)
    ensures ClientLoop(cfg, s) ==> s.early == [] && ClientPhase(s.phase)
    ensures !s.closing && (Asking(cfg, s) ==> Asks(cfg, s.clientGot).Asked?)
  {
    hide ClientRun, ServerRun;
    ClientSizes(cfg, ClientGreeting, s.clientGot);
  }

  lemma ServerRoom(cfg: Config, s: State)
    requires ServerLoop(cfg, s)
    ensures |s.toRemote| <= 778 && RequestOk(s.request) && !s.closing
  {
    hide ClientRun, ServerRun, RequestOk;
    ClientRoom(cfg, s);
    ServerSizes(cfg, s.request, Phase.UpstreamGreeting, s.remoteGot);
  }

  lemma ServerHolds(cfg: Config, s: State)
    requires ServerLoop(cfg, s)
    ensures |s.toClient| <= 14 && |s.early| <= HS_BUF && |s.hs| <= HS_BUF && !s.closing && UpstreamPhase(s.phase)
  {
    hide ClientRun, ServerRun;
    ClientRoom(cfg, s);
  }

  lemma ClosingIsClient(cfg: Config, s: State)
    requires Tracks(cfg, s)
    ensures s.closing ==> ClientPhase(s.phase)
    ensures !s.closing && (UpstreamPhase(s.phase) || s.phase.UpstreamConnecting? || s.phase.Relay?) ==> s.hasRemote
  {
  }

  lemma ConnectingIsFresh(cfg: Config, s: State)
    requires Tracks(cfg, s) && s.phase.UpstreamConnecting? && !s.closing
    ensures s.toRemote == [] && s.hs == []
  {
  }

  /** In the relay, whoever has nothing left to be sent has been sent everything. */
  lemma RelayOwes(cfg: Config, s: State)
    requires Tracks(cfg, s) && s.phase.Relay? && !s.closing
    ensures s.toClient == ClientStream(cfg, s.clientGot, s.remoteGot)
    ensures s.toRemote == RemoteStream(cfg, s.clientGot, s.remoteGot)
  {
  }

  /** A handshake never jams: between two events its buffer has room for at least 511 bytes more. */
  lemma RoomToRead(cfg: Config, s: State)
    requires Tracks(cfg, s) && !s.closing && !s.phase.Relay?
    ensures |s.hs| <= HS_BUF - 511
  {
    hide ClientRun, ServerRun, RequestOk;
    ClientSizes(cfg, ClientGreeting, s.clientGot);
    if UpstreamPhase(s.phase) {
      ServerSizes(cfg, s.request, Phase.UpstreamGreeting, s.remoteGot);
    }
  }

  /**
   * End to end. A client that enters and makes its request and a server that passes and grants it get:
   * the client, its answers and then the server's bytes; the server, a login when it chose one, the
   * client's request and then the client's bytes.
   */
  lemma EndToEnd(
    cfg: Config, clientGot: seq<Byte>, t: seq<Byte>, r: Request, up: seq<Byte>,
    remoteGot: seq<Byte>, choice: Byte, t': seq<Byte>, down: seq<Byte>, u: seq<Byte>, p: seq<Byte>, o: seq<Byte>)
    requires Enters(cfg, clientGot, t) && Requests(t, r, up)
    requires Shows(cfg, u, p) && Passes(remoteGot, choice, u, p, t') && Grants(t', down) && Sent(choice, u, p, r, o)
    ensures ClientStream(cfg, clientGot, remoteGot) == Welcome(cfg) + [5, 0, 0, 1, 0, 0, 0, 0, 0, 0] + down
    ensures RemoteStream(cfg, clientGot, remoteGot)
      == [5, 1, if cfg.username != None && cfg.password != None then 2 else 0] + o + up
  {
    hide ClientRun, ServerRun, Enters, Requests, Passes, Grants, Shows, Sent, Welcome;
    AskedExactly(cfg, clientGot, r, up);
    UpExactly(cfg, r, remoteGot, u, p, o, down);
  }

  // ---- how the conversations end ----

  /** The kind of the client's conversation is settled by its unread messages. */
  lemma ClientKind(cfg: Config, s: State)
    requires ClientLoop(cfg, s)
    ensures Asks(cfg, s.clientGot).Asked? == ClientRun(cfg, s.phase, s.hs).Asked?
    ensures Asks(cfg, s.clientGot).Dropped? == ClientRun(cfg, s.phase, s.hs).Dropped?
  {
    hide ClientRun, ServerRun;
  }

  lemma ServerKind(cfg: Config, s: State)
    requires ServerLoop(cfg, s)
    ensures Asks(cfg, s.clientGot).Asked?
    ensures Serves(cfg, s.clientGot, s.remoteGot).Crashed? == ServerRun(cfg, s.request, s.phase, s.hs).Crashed?
  {
    hide ClientRun, ServerRun;
  }
}
