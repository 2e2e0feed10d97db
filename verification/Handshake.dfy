/**
 * What the handshakes of MiniSlipstreamSocksBridge.kt mean: for all the bytes one peer has sent so
 * far, where the conversation stands, what the bridge has answered and which bytes are left over.
 */
module Handshake {
  import opened Bytes
  import opened Wrappers
  import opened SocksProtocol

  datatype Phase = ClientGreeting | ClientAuth | ClientRequest
                 | UpstreamConnecting | UpstreamGreeting | UpstreamAuth | UpstreamCommand
                 | Relay

  predicate ClientPhase(p: Phase) {
    p.ClientGreeting? || p.ClientAuth? || p.ClientRequest?
  }

  predicate UpstreamPhase(p: Phase) {
    p.UpstreamGreeting? || p.UpstreamAuth? || p.UpstreamCommand?
  }

  /** Credentials asked of local clients, and those shown to the upstream server; a blank one counts as none. */
  datatype Config = Config(
    localUsername: Option<seq<Byte>>, localPassword: Option<seq<Byte>>,
    username: Option<seq<Byte>>, password: Option<seq<Byte>>
  )
  {
    predicate NeedAuth() {
      localUsername.Some? && localPassword.Some?
    }

    predicate HasAuth() {
      username.Some? && password.Some?
    }

    function Upstream(): Login {
      Login(OrEmpty(username), OrEmpty(password))
    }
  }

  function OrEmpty(s: Option<seq<Byte>>): seq<Byte> {
    if s.Some? then s.value else []
  }

  /** The method the bridge insists on, and the phase that follows its choice. */
  function Wanted(cfg: Config): (Byte, Phase) {
    if cfg.NeedAuth() then (2, ClientAuth) else (0, ClientRequest)
  }

  predicate LoginMatches(cfg: Config, l: Login) {
    l.user == OrEmpty(cfg.localUsername) && l.pass == OrEmpty(cfg.localPassword)
  }

  // ---- the client's side ----

  /** Where the client's conversation stands after some bytes, with all the answers so far. */
  datatype Client =
    | Waiting(out: seq<Byte>, phase: Phase, rest: seq<Byte>)
    | Asked(out: seq<Byte>, request: Request, rest: seq<Byte>)
    | Refused(out: seq<Byte>)
    | Dropped(out: seq<Byte>)
  {
    function After(before: seq<Byte>): Client {
      this.(out := before + out)
    }

    /** The same conversation with more bytes waiting. */
    function More(cfg: Config, more: seq<Byte>): Client {
      match this
      case Waiting(o, p, r) => if ClientPhase(p) then ClientRun(cfg, p, r + more).After(o) else this
      case Asked(o, q, r) => Asked(o, q, r + more)
      case _ => this
    }
  }

  /** All the messages in the bytes, from a phase on. */
  function ClientRun(cfg: Config, phase: Phase, b: seq<Byte>): Client
    requires ClientPhase(phase)
    decreases if phase.ClientGreeting? then 2 else if phase.ClientAuth? then 1 else 0
  {
    match phase
    case ClientGreeting => (
      match ParseClientGreeting(b, |b|)
      case NeedMore => Waiting([], phase, b)
      case Bad => Dropped([])
      case Ok(methods, n) =>
        Consumed(b, |b|);
        if Wanted(cfg).0 in methods then ClientRun(cfg, Wanted(cfg).1, b[n..]).After([5, Wanted(cfg).0])
        else Refused([5, 0xFF])
    )
    case ClientAuth => (
      match ParseClientAuth(b, |b|)
      case NeedMore => Waiting([], phase, b)
      case Bad => Dropped([])
      case Ok(l, n) =>
        Consumed(b, |b|);
        if LoginMatches(cfg, l) then ClientRun(cfg, ClientRequest, b[n..]).After([1, 0]) else Refused([1, 1])
    )
    case ClientRequest =>
      match ParseClientRequest(b, |b|)
      case NeedMore => Waiting([], phase, b)
      case Bad => Refused(ClientReply(7))
      case Ok(r, n) =>
        Consumed(b, |b|);
        Asked([], r, b[n..])
  }

  // ---- the upstream server's side ----

  datatype Server =
    | Pending(out: seq<Byte>, phase: Phase, rest: seq<Byte>)
    | Up(out: seq<Byte>, rest: seq<Byte>)
    | Failed(out: seq<Byte>)
    | Crashed(out: seq<Byte>)
  {
    function After(before: seq<Byte>): Server {
      this.(out := before + out)
    }

    function More(cfg: Config, r: Request, more: seq<Byte>): Server {
      match this
      case Pending(o, p, b) => if UpstreamPhase(p) then ServerRun(cfg, r, p, b + more).After(o) else this
      case Up(o, b) => Up(o, b + more)
      case _ => this
    }
  }

  /** All the replies in the bytes, from a phase on, for the client's request. */
  function ServerRun(cfg: Config, r: Request, phase: Phase, b: seq<Byte>): Server
    requires UpstreamPhase(phase)
    decreases if phase.UpstreamGreeting? then 2 else if phase.UpstreamAuth? then 1 else 0
  {
    match phase
    case UpstreamGreeting => (
      match ParseUpstreamGreetingReply(b, |b|)
      case NeedMore => Pending([], phase, b)
      case Bad => Failed([])
      case Ok(choice, n) =>
        Consumed(b, |b|);
        if choice != 2 then ServerRun(cfg, r, UpstreamCommand, b[n..]).After(Command(r, 0))
        else if AuthFrame(cfg.Upstream()).None? then Crashed([])
        else ServerRun(cfg, r, UpstreamAuth, b[n..]).After(AuthFrame(cfg.Upstream()).value)
    )
    case UpstreamAuth => (
      match ParseUpstreamAuthReply(b, |b|)
      case NeedMore => Pending([], phase, b)
      case Bad => Failed([])
      case Ok(_, n) =>
        Consumed(b, |b|);
        ServerRun(cfg, r, UpstreamCommand, b[n..]).After(Command(r, 0))
    )
    case UpstreamCommand =>
      match ParseUpstreamCommandReply(b, |b|)
      case NeedMore => Pending([], phase, b)
      case Bad => Failed([])
      case Ok(_, n) =>
        Consumed(b, |b|);
        Up([], b[n..])
  }

  // ---- one turn of the parse loops ----

  lemma GreetingMeans(cfg: Config, b: seq<Byte>)
    ensures
      var c, p := ClientRun(cfg, ClientGreeting, b), ParseClientGreeting(b, |b|);
      && (p.NeedMore? ==> c == Waiting([], ClientGreeting, b))
      && (p.Bad? ==> c == Dropped([]))
      && (p.Ok? ==> (
        && 1 <= p.consumed <= |b|
        && c == if Wanted(cfg).0 in p.value
           then ClientRun(cfg, Wanted(cfg).1, b[p.consumed..]).After([5, Wanted(cfg).0])
           else Refused([5, 0xFF])))
  {
    Consumed(b, |b|);
  }

  lemma AuthMeans(cfg: Config, b: seq<Byte>)
    ensures
      var c, p := ClientRun(cfg, ClientAuth, b), ParseClientAuth(b, |b|);
      && (p.NeedMore? ==> c == Waiting([], ClientAuth, b))
      && (p.Bad? ==> c == Dropped([]))
      && (p.Ok? ==> (
        && 1 <= p.consumed <= |b|
        && c == if LoginMatches(cfg, p.value) then ClientRun(cfg, ClientRequest, b[p.consumed..]).After([1, 0])
           else Refused([1, 1])))
  {
    Consumed(b, |b|);
  }

  lemma RequestMeans(cfg: Config, b: seq<Byte>)
    ensures
      var c, p := ClientRun(cfg, ClientRequest, b), ParseClientRequest(b, |b|);
      && (p.NeedMore? ==> c == Waiting([], ClientRequest, b))
      && (p.Bad? ==> c == Refused(ClientReply(7)))
      && (p.Ok? ==> (
        && 1 <= p.consumed <= |b|
        && c == Asked([], p.value, b[p.consumed..])))
  {
    Consumed(b, |b|);
  }

  lemma ChoiceMeans(cfg: Config, r: Request, b: seq<Byte>)
    ensures
      var c, p := ServerRun(cfg, r, Phase.UpstreamGreeting, b), ParseUpstreamGreetingReply(b, |b|);
      && (p.NeedMore? ==> c == Pending([], Phase.UpstreamGreeting, b))
      && (p.Bad? ==> c == Failed([]))
      && (p.Ok? ==> (
        && 1 <= p.consumed <= |b|
        && c == if p.value != 2 then ServerRun(cfg, r, Phase.UpstreamCommand, b[p.consumed..]).After(Command(r, 0))
           else if AuthFrame(cfg.Upstream()).None? then Crashed([])
           else ServerRun(cfg, r, Phase.UpstreamAuth, b[p.consumed..]).After(AuthFrame(cfg.Upstream()).value)))
  {
    Consumed(b, |b|);
  }

  lemma LoginReplyMeans(cfg: Config, r: Request, b: seq<Byte>)
    ensures
      var c, p := ServerRun(cfg, r, Phase.UpstreamAuth, b), ParseUpstreamAuthReply(b, |b|);
      && (p.NeedMore? ==> c == Pending([], Phase.UpstreamAuth, b))
      && (p.Bad? ==> c == Failed([]))
      && (p.Ok? ==> (
        && 1 <= p.consumed <= |b|
        && c == ServerRun(cfg, r, Phase.UpstreamCommand, b[p.consumed..]).After(Command(r, 0))))
  {
    Consumed(b, |b|);
  }

  lemma CommandReplyMeans(cfg: Config, r: Request, b: seq<Byte>)
    ensures
      var c, p := ServerRun(cfg, r, Phase.UpstreamCommand, b), ParseUpstreamCommandReply(b, |b|);
      && (p.NeedMore? ==> c == Pending([], Phase.UpstreamCommand, b))
      && (p.Bad? ==> c == Failed([]))
      && (p.Ok? ==> (
        && 1 <= p.consumed <= |b|
        && c == Up([], b[p.consumed..])))
  {
    Consumed(b, |b|);
  }

  // ---- fragmentation ----

  lemma TailAppend(a: seq<Byte>, b: seq<Byte>, n: nat)
    requires n <= |a|
    ensures (a + b)[n..] == a[n..] + b
  {
  }

  lemma ClientAfter(c: Client, a: seq<Byte>, b: seq<Byte>)
    ensures c.After(b).After(a) == c.After(a + b)
    ensures c.After([]) == c
  {
    assert a + (b + c.out) == (a + b) + c.out;
  }

  lemma ClientMoreAfter(cfg: Config, c: Client, a: seq<Byte>, more: seq<Byte>)
    ensures c.After(a).More(cfg, more) == c.More(cfg, more).After(a)
  {
    hide ClientRun;
    match c
    case Waiting(o, p, r) =>
      if ClientPhase(p) {
        ClientAfter(ClientRun(cfg, p, r + more), a, o);
      }
    case _ =>
  }

  /** Bytes that come later continue from where the earlier ones left the conversation. */
  lemma {:induction false} ClientMore(cfg: Config, phase: Phase, a: seq<Byte>, b: seq<Byte>)
    requires ClientPhase(phase)
    ensures ClientRun(cfg, phase, a + b) == ClientRun(cfg, phase, a).More(cfg, b)
    decreases if phase.ClientGreeting? then 2 else if phase.ClientAuth? then 1 else 0
  {
    hide ParseClientGreeting, ParseClientAuth, ParseClientRequest, LoginMatches, ClientReply, ClientRun;
    Settled(a, |a|, a + b, |a + b|);
    ClientAfter(ClientRun(cfg, phase, a + b), [], []);
    match phase {
      case ClientGreeting =>
        GreetingMeans(cfg, a);
        GreetingMeans(cfg, a + b);
        var p := ParseClientGreeting(a, |a|);
        if p.Ok? {
          TailAppend(a, b, p.consumed);
          if Wanted(cfg).0 in p.value {
            var next := Wanted(cfg).1;
            ClientMore(cfg, next, a[p.consumed..], b);
            ClientMoreAfter(cfg, ClientRun(cfg, next, a[p.consumed..]), [5, Wanted(cfg).0], b);
          }
        }
      case ClientAuth =>
        AuthMeans(cfg, a);
        AuthMeans(cfg, a + b);
        var p := ParseClientAuth(a, |a|);
        if p.Ok? {
          TailAppend(a, b, p.consumed);
          if LoginMatches(cfg, p.value) {
            ClientMore(cfg, ClientRequest, a[p.consumed..], b);
            ClientMoreAfter(cfg, ClientRun(cfg, ClientRequest, a[p.consumed..]), [1, 0], b);
          }
        }
      case ClientRequest =>
        RequestMeans(cfg, a);
        RequestMeans(cfg, a + b);
        var p := ParseClientRequest(a, |a|);
        if p.Ok? {
          TailAppend(a, b, p.consumed);
        }
    }
  }

  lemma ServerAfter(c: Server, a: seq<Byte>, b: seq<Byte>)
    ensures c.After(b).After(a) == c.After(a + b)
    ensures c.After([]) == c
  {
    assert a + (b + c.out) == (a + b) + c.out;
  }

  lemma ServerMoreAfter(cfg: Config, r: Request, c: Server, a: seq<Byte>, more: seq<Byte>)
    ensures c.After(a).More(cfg, r, more) == c.More(cfg, r, more).After(a)
  {
    hide ServerRun;
    match c
    case Pending(o, p, b) =>
      if UpstreamPhase(p) {
        ServerAfter(ServerRun(cfg, r, p, b + more), a, o);
      }
    case _ =>
  }

  lemma {:induction false} ServerMore(cfg: Config, r: Request, phase: Phase, a: seq<Byte>, b: seq<Byte>)
    requires UpstreamPhase(phase)
    ensures ServerRun(cfg, r, phase, a + b) == ServerRun(cfg, r, phase, a).More(cfg, r, b)
    decreases if phase.UpstreamGreeting? then 2 else if phase.UpstreamAuth? then 1 else 0
  {
    hide ServerRun, ParseUpstreamGreetingReply, ParseUpstreamAuthReply;
    Consumed(a, |a|);
    if phase.UpstreamCommand? {
      ServerMoreCommand(cfg, r, a, b);
    } else if phase.UpstreamAuth? {
      if ParseUpstreamAuthReply(a, |a|).Ok? {
        ServerMore(cfg, r, UpstreamCommand, a[ParseUpstreamAuthReply(a, |a|).consumed..], b);
      }
      ServerMoreAuth(cfg, r, a, b);
    } else {
      if ParseUpstreamGreetingReply(a, |a|).Ok? {
        var next := if ParseUpstreamGreetingReply(a, |a|).value != 2 then UpstreamCommand else UpstreamAuth;
        ServerMore(cfg, r, next, a[ParseUpstreamGreetingReply(a, |a|).consumed..], b);
      }
      ServerMoreGreeting(cfg, r, a, b);
    }
  }

  lemma ServerMoreGreeting(cfg: Config, r: Request, a: seq<Byte>, b: seq<Byte>)
    requires ParseUpstreamGreetingReply(a, |a|).Ok? ==>
      var p := ParseUpstreamGreetingReply(a, |a|);
      var next := if p.value != 2 then UpstreamCommand else UpstreamAuth;
      && p.consumed <= |a|
      && ServerRun(cfg, r, next, a[p.consumed..] + b) == ServerRun(cfg, r, next, a[p.consumed..]).More(cfg, r, b)
    ensures ServerRun(cfg, r, UpstreamGreeting, a + b) == ServerRun(cfg, r, UpstreamGreeting, a).More(cfg, r, b)
  {
    hide ParseUpstreamGreetingReply, ParseUpstreamAuthReply, ParseUpstreamCommandReply, AuthFrame, Command;
    Settled(a, |a|, a + b, |a + b|);
    Consumed(a, |a|);
    ServerAfter(ServerRun(cfg, r, UpstreamGreeting, a + b), [], []);
    match ParseUpstreamGreetingReply(a, |a|)
    case Ok(choice, n) =>
      TailAppend(a, b, n);
      if choice != 2 {
        ServerMoreAfter(cfg, r, ServerRun(cfg, r, UpstreamCommand, a[n..]), Command(r, 0), b);
      } else if AuthFrame(cfg.Upstream()).Some? {
        ServerMoreAfter(cfg, r, ServerRun(cfg, r, UpstreamAuth, a[n..]), AuthFrame(cfg.Upstream()).value, b);
      }
    case _ =>
  }

  lemma ServerMoreAuth(cfg: Config, r: Request, a: seq<Byte>, b: seq<Byte>)
    requires ParseUpstreamAuthReply(a, |a|).Ok? ==>
      var p := ParseUpstreamAuthReply(a, |a|);
      && p.consumed <= |a|
      && ServerRun(cfg, r, UpstreamCommand, a[p.consumed..] + b)
         == ServerRun(cfg, r, UpstreamCommand, a[p.consumed..]).More(cfg, r, b)
    ensures ServerRun(cfg, r, UpstreamAuth, a + b) == ServerRun(cfg, r, UpstreamAuth, a).More(cfg, r, b)
  {
    hide ParseUpstreamGreetingReply, ParseUpstreamAuthReply, ParseUpstreamCommandReply, AuthFrame, Command;
    Settled(a, |a|, a + b, |a + b|);
    Consumed(a, |a|);
    ServerAfter(ServerRun(cfg, r, UpstreamAuth, a + b), [], []);
    match ParseUpstreamAuthReply(a, |a|)
    case Ok(_, n) =>
      TailAppend(a, b, n);
      ServerMoreAfter(cfg, r, ServerRun(cfg, r, UpstreamCommand, a[n..]), Command(r, 0), b);
    case _ =>
  }

  lemma ServerMoreCommand(cfg: Config, r: Request, a: seq<Byte>, b: seq<Byte>)
    ensures ServerRun(cfg, r, UpstreamCommand, a + b) == ServerRun(cfg, r, UpstreamCommand, a).More(cfg, r, b)
  {
    hide ParseUpstreamGreetingReply, ParseUpstreamAuthReply, ParseUpstreamCommandReply, AuthFrame, Command;
    Settled(a, |a|, a + b, |a + b|);
    Consumed(a, |a|);
    ServerAfter(ServerRun(cfg, r, UpstreamCommand, a + b), [], []);
    match ParseUpstreamCommandReply(a, |a|)
    case Ok(_, n) => TailAppend(a, b, n);
    case _ =>
  }

  // ---- any way of cutting the stream ----

  function Flat(parts: seq<seq<Byte>>): seq<Byte> {
    if parts == [] then [] else parts[0] + Flat(parts[1..])
  }

  /** Feeding the reads one after the other. */
  function Feed(cfg: Config, c: Client, parts: seq<seq<Byte>>): Client
    decreases |parts|
  {
    if parts == [] then c else Feed(cfg, c.More(cfg, parts[0]), parts[1..])
  }

  function FeedServer(cfg: Config, r: Request, c: Server, parts: seq<seq<Byte>>): Server
    decreases |parts|
  {
    if parts == [] then c else FeedServer(cfg, r, c.More(cfg, r, parts[0]), parts[1..])
  }

  /** However the peer's bytes are split across reads, only their concatenation matters. */
  lemma {:induction false} Fragmentation(cfg: Config, first: seq<Byte>, parts: seq<seq<Byte>>)
    ensures Feed(cfg, ClientRun(cfg, ClientGreeting, first), parts)
      == ClientRun(cfg, ClientGreeting, first + Flat(parts))
    decreases |parts|
  {
    hide ClientRun;
    if parts == [] {
      assert first + Flat(parts) == first;
    } else {
      ClientMore(cfg, ClientGreeting, first, parts[0]);
      Fragmentation(cfg, first + parts[0], parts[1..]);
      assert first + parts[0] + Flat(parts[1..]) == first + Flat(parts);
    }
  }

  lemma {:induction false} ServerFragmentation(cfg: Config, r: Request, first: seq<Byte>, parts: seq<seq<Byte>>)
    ensures FeedServer(cfg, r, ServerRun(cfg, r, UpstreamGreeting, first), parts)
      == ServerRun(cfg, r, UpstreamGreeting, first + Flat(parts))
    decreases |parts|
  {
    hide ServerRun;
    if parts == [] {
      assert first + Flat(parts) == first;
    } else {
      ServerMore(cfg, r, UpstreamGreeting, first, parts[0]);
      ServerFragmentation(cfg, r, first + parts[0], parts[1..]);
      assert first + parts[0] + Flat(parts[1..]) == first + Flat(parts);
    }
  }

  // ---- sizes ----

  /** Answers to the client stay within 14 bytes, and an unfinished message within 512. */
  lemma {:induction false} ClientSizes(cfg: Config, phase: Phase, b: seq<Byte>)
    requires ClientPhase(phase)
    ensures |ClientRun(cfg, phase, b).out| <= 14
    ensures ClientRun(cfg, phase, b).Waiting? ==>
      |ClientRun(cfg, phase, b).rest| < 513 && ClientPhase(ClientRun(cfg, phase, b).phase)
    ensures phase.ClientAuth? ==> |ClientRun(cfg, phase, b).out| <= 12
    ensures phase.ClientRequest? ==> |ClientRun(cfg, phase, b).out| <= 10
    ensures ClientRun(cfg, phase, b).Asked? ==> RequestOk(ClientRun(cfg, phase, b).request)
    decreases if phase.ClientGreeting? then 2 else if phase.ClientAuth? then 1 else 0
  {
    hide ParseClientGreeting, ParseClientAuth, ParseClientRequest, LoginMatches;
    NeverJams(b, |b|);
    Consumed(b, |b|);
    match phase
    case ClientGreeting => {
      match ParseClientGreeting(b, |b|)
      case Ok(_, n) => ClientSizes(cfg, Wanted(cfg).1, b[n..]);
      case _ =>
    }
    case ClientAuth => {
      match ParseClientAuth(b, |b|)
      case Ok(_, n) => ClientSizes(cfg, ClientRequest, b[n..]);
      case _ =>
    }
    case ClientRequest =>
  }

  /** Frames to the server stay within 775 bytes, and an unfinished reply within 261. */
  lemma {:induction false} ServerSizes(cfg: Config, r: Request, phase: Phase, b: seq<Byte>)
    requires UpstreamPhase(phase) && RequestOk(r)
    ensures |ServerRun(cfg, r, phase, b).out| <= 775
    ensures ServerRun(cfg, r, phase, b).Pending? ==>
      |ServerRun(cfg, r, phase, b).rest| < 262 && UpstreamPhase(ServerRun(cfg, r, phase, b).phase)
    ensures phase.UpstreamAuth? ==> |ServerRun(cfg, r, phase, b).out| <= 262
    ensures phase.UpstreamCommand? ==> |ServerRun(cfg, r, phase, b).out| == 0
    decreases if phase.UpstreamGreeting? then 2 else if phase.UpstreamAuth? then 1 else 0
  {
    hide ParseUpstreamGreetingReply, ParseUpstreamAuthReply, ParseUpstreamCommandReply;
    NeverJams(b, |b|);
    Consumed(b, |b|);
    match phase
    case UpstreamGreeting => {
      match ParseUpstreamGreetingReply(b, |b|)
      case Ok(_, n) =>
        ServerSizes(cfg, r, UpstreamCommand, b[n..]);
        ServerSizes(cfg, r, UpstreamAuth, b[n..]);
      case _ =>
    }
    case UpstreamAuth => {
      match ParseUpstreamAuthReply(b, |b|)
      case Ok(_, n) => ServerSizes(cfg, r, UpstreamCommand, b[n..]);
      case _ =>
    }
    case UpstreamCommand =>
  }

  // ---- a message in front of others ----

  lemma GreetingFirst(methods: seq<Byte>, rest: seq<Byte>)
    requires MethodsOk(methods)
    ensures
      var b := Greeting(methods) + rest;
      ParseClientGreeting(b, |b|) == Ok(methods, 2 + |methods|) && b[2 + |methods|..] == rest
  {
    var b := Greeting(methods) + rest;
    GreetingParsed(b, |b|, methods, 2 + |methods|);
  }

  lemma AuthFirst(l: Login, rest: seq<Byte>)
    requires LoginOk(l)
    ensures
      var b, n := AuthMessage(l) + rest, 3 + |l.user| + |l.pass|;
      ParseClientAuth(b, |b|) == Ok(l, n) && b[n..] == rest
  {
    BuiltFramesParse(l, Request(0, [], []), rest);
  }

  lemma RequestFirst(r: Request, rsv: Byte, rest: seq<Byte>)
    requires RequestOk(r)
    ensures
      var b, n := Command(r, rsv) + rest, 5 + |r.rawAddr|;
      ParseClientRequest(b, |b|) == Ok(r, n) && b[n..] == rest
  {
    var b := Command(r, rsv) + rest;
    assert b[2] == rsv && b[..|b|] == b;
    RequestParsed(b, |b|, r, 5 + |r.rawAddr|);
  }

  lemma TakeGreeting(b: seq<Byte>)
    requires ParseClientGreeting(b, |b|).Ok?
    ensures
      var p := ParseClientGreeting(b, |b|);
      p.consumed <= |b| && MethodsOk(p.value) && b == Greeting(p.value) + b[p.consumed..]
  {
    var p := ParseClientGreeting(b, |b|);
    GreetingParsed(b, |b|, p.value, p.consumed);
    assert b[..|b|] == b;
  }

  lemma TakeAuth(b: seq<Byte>)
    requires ParseClientAuth(b, |b|).Ok?
    ensures
      var p := ParseClientAuth(b, |b|);
      p.consumed <= |b| && LoginOk(p.value) && b == AuthMessage(p.value) + b[p.consumed..]
  {
    var p := ParseClientAuth(b, |b|);
    AuthParsed(b, |b|, p.value, p.consumed);
    assert b[..|b|] == b;
  }

  lemma TakeRequest(b: seq<Byte>) returns (rsv: Byte)
    requires ParseClientRequest(b, |b|).Ok?
    ensures
      var p := ParseClientRequest(b, |b|);
      p.consumed <= |b| && RequestOk(p.value) && b == Command(p.value, rsv) + b[p.consumed..]
  {
    var p := ParseClientRequest(b, |b|);
    RequestParsed(b, |b|, p.value, p.consumed);
    assert b[..|b|] == b;
    rsv := b[2];
  }
}
