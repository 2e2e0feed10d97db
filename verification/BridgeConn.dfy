/**
 * One connection of MiniSlipstreamSocksBridge.kt: the client handshake, the upstream handshake and
 * the relay, over sockets that move any number of bytes, end or fail whenever they like.
 */
module BridgeConn {
  import opened Bytes
  import opened Wrappers
  import opened SocksProtocol
  import opened Handshake
  import opened ByteBuffers
  import opened BridgeSpec
  import opened BridgeIo

  /** What a read or a write came to. */
  datatype Io = Threw | Eof | Moved(n: nat)

  /** The outside world of one connection: its script is read on, and idle once it has run out. */
  class Net {
    var script: seq<Outcome>
    var at: nat
    /** Whether any outcome so far was an error or an end of stream. */
    ghost var faulty: bool

    ghost predicate Valid()
      reads this
    {
      at <= |script| && (faulty <==> exists i :: 0 <= i < at && IsFault(script[i]))
    }

    constructor (script: seq<Outcome>)
      ensures Valid() && this.script == script && at == 0 && !faulty
    {
      this.script, at, faulty := script, 0, false;
    }

    function Next(): Outcome
      reads this
    {
      At(script, at)
    }

    predicate Spent()
      reads this
    {
      at >= |script|
    }

    /** The outcome used last. */
    ghost predicate Last(o: Outcome)
      reads this
    {
      0 < at <= |script| && script[at - 1] == o
    }

    method Use() returns (o: Outcome)
      requires Valid()
      modifies this`at, this`faulty
      ensures faulty == (old(faulty) || IsFault(o))
      ensures Valid() && o == old(Next()) && at == old(at) + (if old(Spent()) then 0 else 1)
      ensures o != Idles ==> at > old(at) && Last(o)
    {
      o := Next();
      if at < |script| {
        faulty := faulty || IsFault(o);
        at := at + 1;
      }
    }

    method Offer(more: seq<Outcome>)
      requires Valid()
      modifies this`script
      ensures Valid() && script == old(script) + more
    {
      ghost var was := script;
      script := script + more;
      assert forall i :: 0 <= i < at ==> script[i] == was[i];
    }
  }

  /** The bridge's counters, shared by all its connections. */
  class Counters {
    var activeClients: int
    var halfClosedClients: int

    constructor ()
      ensures activeClients == 0 && halfClosedClients == 0
    {
      activeClients, halfClosedClients := 0, 0;
    }
  }

  class Conn {
    const cfg: Config
    const counters: Counters
    const net: Net
    const hs: ByteBuffer
    const toRemote: ByteBuffer
    const toClient: ByteBuffer
    var phase: Phase
    var hasRemote: bool
    var clientEof: bool
    var remoteEof: bool
    var closeAfterFlush: bool
    var cmd: Byte
    var rawAddr: seq<Byte>
    var portBytes: seq<Byte>
    var earlyData: Option<seq<Byte>>
    var lastActivityMs: int
    var halfClosedAtMs: int
    ghost var clientGot: seq<Byte>
    ghost var clientSent: seq<Byte>
    ghost var remoteGot: seq<Byte>
    ghost var remoteSent: seq<Byte>
    /** Whether each peer has been told that no more will come. */
    ghost var clientShut: bool
    ghost var remoteShut: bool

    ghost function Repr(): (r: set<object>)
      ensures this in r
    {
      {this, net, hs, hs.data, toRemote, toRemote.data, toClient, toClient.data}
    }

    /** The buffers are apart, and as large as they were made. */
    ghost predicate Apart() {
      && hs != toRemote && hs != toClient && toRemote != toClient
      && hs.data != toRemote.data && hs.data != toClient.data && toRemote.data != toClient.data
      && hs.data.Length == HS_BUF && toRemote.data.Length == RELAY_BUF && toClient.data.Length == RELAY_BUF
    }

    ghost predicate Shape()
      reads net, hs, hs.data, toRemote, toRemote.data, toClient, toClient.data
    {
      Apart() && net.Valid() && hs.Valid() && toRemote.Valid() && toClient.Valid()
    }

    lemma Distinct()
      requires Shape()
      ensures Apart() && hs.Valid() && toRemote.Valid() && toClient.Valid() && net.Valid()
    {
    }

    ghost function Snap(): State
      reads this`phase, this`hasRemote, this`closeAfterFlush, this`cmd, this`rawAddr, this`portBytes, this`earlyData
      reads this`clientGot, this`clientSent, this`remoteGot, this`remoteSent
      reads hs`content, toRemote`content, toClient`content
    {
      State(phase, hs.content, clientSent + toClient.content, remoteSent + toRemote.content,
        OrEmpty(earlyData), Request(cmd, rawAddr, portBytes), closeAfterFlush, hasRemote, clientGot, remoteGot)
    }

    /** What has been read and written so far, and how the event has ended. */
    ghost function Now(end: End): Wire
      reads net`at, this`clientGot, this`clientEof, this`remoteSent, this`remoteGot, this`remoteEof, this`clientSent
      reads toRemote`content, toClient`content
    {
      Wire(net.at,
        Lane(clientGot, clientEof, toRemote.content, remoteSent),
        Lane(remoteGot, remoteEof, toClient.content, clientSent), end)
    }

    /** What the client asked for. */
    ghost function Wish(): Request
      reads this`cmd, this`rawAddr, this`portBytes
    {
      Request(cmd, rawAddr, portBytes)
    }

    /** What the client's next message makes of the connection. */
    ghost function NextMessage(): Turn
      reads net`at, this`clientGot, this`clientEof, this`remoteSent, this`remoteGot, this`remoteEof, this`clientSent
      reads net`script, toRemote`content, toClient`content, hs`content, this`phase
    {
      ClientMessage(cfg, net.script, phase, hs.content, Now(Open))
    }

    /** What all its messages so far make of it. */
    ghost function AfterMessages(): Wire
      reads net`at, this`clientGot, this`clientEof, this`remoteSent, this`remoteGot, this`remoteEof, this`clientSent
      reads net`script, toRemote`content, toClient`content, hs`content, this`phase
    {
      ClientWire(cfg, net.script, phase, hs.content, Now(Open))
    }

    /** And those it still sends. */
    ghost function AfterListening(): Wire
      reads net`at, this`clientGot, this`clientEof, this`remoteSent, this`remoteGot, this`remoteEof, this`clientSent
      reads net`script, toRemote`content, toClient`content, hs`content, this`phase
    {
      ClientHeard(cfg, net.script, phase, hs.content, Now(Open))
    }

    /** The same for the server. */
    ghost function NextReply(): Turn
      reads net`at, this`clientGot, this`clientEof, this`remoteSent, this`remoteGot, this`remoteEof, this`clientSent
      reads net`script, toRemote`content, toClient`content, hs`content, this`phase
      reads this`cmd, this`rawAddr, this`portBytes, this`earlyData
    {
      ServerMessage(cfg, net.script, Wish(), OrEmpty(earlyData), phase, hs.content, Now(Open))
    }

    /** All its replies so far. */
    ghost function AfterReplies(): Wire
      reads net`at, this`clientGot, this`clientEof, this`remoteSent, this`remoteGot, this`remoteEof, this`clientSent
      reads net`script, toRemote`content, toClient`content, hs`content, this`phase
      reads this`cmd, this`rawAddr, this`portBytes, this`earlyData
    {
      ServerWire(cfg, net.script, Wish(), OrEmpty(earlyData), phase, hs.content, Now(Open))
    }

    /** And those it still sends. */
    ghost function AfterHearing(): Wire
      reads net`at, this`clientGot, this`clientEof, this`remoteSent, this`remoteGot, this`remoteEof, this`clientSent
      reads net`script, toRemote`content, toClient`content, hs`content, this`phase
      reads this`cmd, this`rawAddr, this`portBytes, this`earlyData
    {
      ServerHeard(cfg, net.script, Wish(), OrEmpty(earlyData), phase, hs.content, Now(Open))
    }

    /** What has been read and written once the sockets have been served, whatever they do. */
    ghost function AfterService(): Wire
      reads net`at, this`clientGot, this`clientEof, this`remoteSent, this`remoteGot, this`remoteEof, this`clientSent
      reads net`script, toRemote`content, toClient`content, hs`content
      reads this`phase, this`closeAfterFlush, this`cmd, this`rawAddr, this`portBytes, this`earlyData
    {
      ServiceWire(cfg, net.script,
        Stage(phase, hs.content, closeAfterFlush, Wish(), OrEmpty(earlyData)), Now(Open))
    }

    /** What has been read and written once the connect has come to something. */
    ghost function AfterConnect(): Wire
      reads net`at, this`clientGot, this`clientEof, this`remoteSent, this`remoteGot, this`remoteEof, this`clientSent
      reads net`script, toRemote`content, toClient`content
    {
      ConnectWire(cfg, net.script, Now(Open))
    }

    /** Where a connection stands after finishConnect. */
    ghost predicate ConnectedAs(o: Outcome)
      reads this`phase, this`closeAfterFlush, this`hasRemote, hs`content
    {
      match o
      case Connects => phase.UpstreamGreeting? && !closeAfterFlush && hs.content == []
      case Throws => phase.ClientRequest? && closeAfterFlush && !hasRemote
      case _ => phase.UpstreamConnecting? && !closeAfterFlush
    }

    /** A peer's end is seen only while relaying, and passed on exactly when nothing is left to write. */
    ghost predicate Ends()
      reads this`phase, this`closeAfterFlush, this`clientEof, this`remoteEof, this`halfClosedAtMs
      reads this`clientShut, this`remoteShut, toRemote`content, toClient`content
    {
      && (clientEof || remoteEof ==> phase.Relay? && !closeAfterFlush)
      && (clientEof || remoteEof <==> halfClosedAtMs > 0)
      && halfClosedAtMs >= 0
      && (remoteShut <==> clientEof && toRemote.content == [])
      && (clientShut <==> remoteEof && toClient.content == [])
      && !(clientShut && remoteShut)
    }

    ghost predicate Valid()
      reads Repr()
    {
      Shape() && Tracks(cfg, Snap()) && Ends() && Blamed()
    }

    constructor (cfg: Config, counters: Counters, t: int, script: seq<Outcome>)
      requires t > 0
      ensures Valid() && fresh(Repr()) && net.script == script && net.at == 0
      ensures this.cfg == cfg && this.counters == counters && lastActivityMs == t && halfClosedAtMs == 0
      ensures phase == Phase.ClientGreeting && clientGot == [] && clientSent == [] && !closeAfterFlush
      ensures hs.content == [] && toClient.content == []
    {
      hide Net.Valid, ByteBuffer.Valid, Tracks, Asks, Snap, Shape, Ends, Blamed;
      this.cfg, this.counters := cfg, counters;
      net := new Net(script);
      hs := new ByteBuffer(HS_BUF);
      toRemote := new ByteBuffer(RELAY_BUF);
      toClient := new ByteBuffer(RELAY_BUF);
      phase, hasRemote := Phase.ClientGreeting, false;
      clientEof, remoteEof, closeAfterFlush := false, false, false;
      cmd, rawAddr, portBytes, earlyData := 0, [], [], None;
      lastActivityMs, halfClosedAtMs := t, 0;
      clientGot, clientSent, remoteGot, remoteSent := [], [], [], [];
      clientShut, remoteShut := false, false;
      new;
      Started();
    }

    /** The world goes on. */
    method Offer(more: seq<Outcome>)
      requires Valid()
      modifies net`script
      ensures Valid() && net.script == old(net.script) + more
    {
      hide ByteBuffer.Valid, Tracks, Ends, Blamed;
      net.Offer(more);
    }

    lemma NetBounded()
      requires Valid()
      ensures net.at <= |net.script|
    {
      hide Tracks, Ends, Blamed, ByteBuffer.Valid;
    }

    /** What a connecting client has been told, or is about to be. */
    lemma Sends()
      requires Valid() && phase.UpstreamConnecting?
      ensures Asks(cfg, clientGot).Asked? && clientSent + toClient.content == Asks(cfg, clientGot).out
    {
      hide Shape, Ends, Blamed, Asks;
      OpenUpstream();
    }

    lemma Started()
      requires net.Valid() && hs.Valid() && toRemote.Valid() && toClient.Valid()
      requires Apart() && hs.content == [] && toRemote.content == [] && toClient.content == []
      requires phase == Phase.ClientGreeting && !hasRemote && !clientEof && !remoteEof && !closeAfterFlush
      requires earlyData == None && halfClosedAtMs == 0 && !clientShut && !remoteShut
      requires clientGot == [] && clientSent == [] && remoteGot == [] && remoteSent == []
      ensures Valid()
    {
      hide Net.Valid, ByteBuffer.Valid;
      NothingAsked(cfg);
    }

    static lemma NothingAsked(cfg: Config)
      ensures Asks(cfg, []) == Waiting([], Phase.ClientGreeting, [])
    {
    }

    /** In the relay nothing is lost, doubled or reordered, and an end passed on means all was delivered. */
    lemma Delivered()
      requires Valid() && phase.Relay?
      ensures clientSent + toClient.content == ClientStream(cfg, clientGot, remoteGot)
      ensures remoteSent + toRemote.content == RemoteStream(cfg, clientGot, remoteGot)
      ensures remoteShut ==> remoteSent == RemoteStream(cfg, clientGot, remoteGot)
      ensures clientShut ==> clientSent == ClientStream(cfg, clientGot, remoteGot)
    {
      hide ClientStream, RemoteStream, Asks, Serves, ByteBuffer.Valid;
      assert clientSent + [] == clientSent && remoteSent + [] == remoteSent;
    }

    /** A connection is only given up for a reason: the client was refused, or the server failed. */
    ghost predicate BlamedBy(faulty: bool)
      reads this`closeAfterFlush, this`clientGot, this`remoteGot
    {
      closeAfterFlush ==>
        || Asks(cfg, clientGot).Refused?
        || (Asks(cfg, clientGot).Asked? && (faulty || Serves(cfg, clientGot, remoteGot).Failed?))
    }

    ghost predicate Blamed()
      reads this`closeAfterFlush, this`clientGot, this`remoteGot, net`faulty
    {
      BlamedBy(net.faulty)
    }

    /** What must have happened for a connection to be closed for a reason. */
    ghost predicate Caused(why: Cause, from: nat)
      reads this, net, toClient
    {
      match why
      case Done => Complete()
      case Broke => from < net.at && net.Last(Throws)
      case HungUp => from < net.at && net.Last(Outcome.Ends)
      case Dropped => Asks(cfg, clientGot).Dropped?
      case Crashed => Asks(cfg, clientGot).Asked? && Serves(cfg, clientGot, remoteGot).Crashed?
      case Flushed => closeAfterFlush && Blamed() && toClient.content == []
    }

    // ---- buffer and channel helpers ----

    /** readInto on the client's socket. */
    method ReadClient(buf: ByteBuffer) returns (r: Io, ghost m: seq<Byte>)
      requires Shape() && (buf == hs || buf == toRemote)
      modifies net`at, net`faulty, buf`pos, buf`content, buf.data, this`clientGot
      ensures Shape() && net.at >= old(net.at)
      ensures buf.content == old(buf.content) + m && clientGot == old(clientGot) + m
      ensures
        var o, room := old(net.Next()), old(buf.data.Length - |buf.content|);
        if room == 0 then r == Moved(0) && m == [] && net.at == old(net.at)
        else
          && m == Arriving(o, room)
          && r == (if o.Throws? then Threw else if o.Ends? then Eof else Moved(|m|))
          && net.at == old(net.at) + (if old(net.Spent()) then 0 else 1)
      ensures r.Threw? ==> net.at > old(net.at) && net.Last(Throws)
      ensures net.faulty == (old(net.faulty) || r.Threw? || r.Eof?)
      ensures r.Eof? ==> net.at > old(net.at) && net.Last(Outcome.Ends)
      ensures !r.Moved? ==> m == []
    {
      hide ByteBuffer.Valid;
      m := [];
      if buf.Remaining() == 0 {
        return Moved(0), m;
      }
      var o := net.Use();
      if o.Throws? {
        return Threw, m;
      }
      if o.Ends? {
        return Eof, m;
      }
      var bytes := Arriving(o, buf.Remaining());
      buf.Put(bytes);
      clientGot := clientGot + bytes;
      return Moved(|bytes|), bytes;
    }

    /** readInto on the upstream socket. */
    method ReadRemote(buf: ByteBuffer) returns (r: Io, ghost m: seq<Byte>)
      requires Shape() && (buf == hs || buf == toClient)
      modifies net`at, net`faulty, buf`pos, buf`content, buf.data, this`remoteGot
      ensures Shape() && net.at >= old(net.at)
      ensures buf.content == old(buf.content) + m && remoteGot == old(remoteGot) + m
      ensures
        var o, room := old(net.Next()), old(buf.data.Length - |buf.content|);
        if room == 0 then r == Moved(0) && m == [] && net.at == old(net.at)
        else
          && m == Arriving(o, room)
          && r == (if o.Throws? then Threw else if o.Ends? then Eof else Moved(|m|))
          && net.at == old(net.at) + (if old(net.Spent()) then 0 else 1)
      ensures r.Threw? ==> net.at > old(net.at) && net.Last(Throws)
      ensures net.faulty == (old(net.faulty) || r.Threw? || r.Eof?)
      ensures r.Eof? ==> net.at > old(net.at) && net.Last(Outcome.Ends)
      ensures !r.Moved? ==> m == []
    {
      hide ByteBuffer.Valid;
      m := [];
      if buf.Remaining() == 0 {
        return Moved(0), m;
      }
      var o := net.Use();
      if o.Throws? {
        return Threw, m;
      }
      if o.Ends? {
        return Eof, m;
      }
      var bytes := Arriving(o, buf.Remaining());
      buf.Put(bytes);
      remoteGot := remoteGot + bytes;
      return Moved(|bytes|), bytes;
    }

    /** drain towards the client. */
    method DrainClient() returns (r: Io)
      requires Shape()
      modifies net`at, net`faulty, toClient`pos, toClient`content, toClient.data, this`clientSent
      ensures Shape() && !r.Eof? && net.at >= old(net.at)
      ensures Now(Broken(r.Threw?)) == FlushDown(net.script, old(Now(Open)))
      ensures clientSent + toClient.content == old(clientSent + toClient.content) && Snap() == old(Snap())
      ensures old(toClient.content) == [] ==>
        r == Moved(0) && net.at == old(net.at) && toClient.content == [] && clientSent == old(clientSent)
      ensures r.Threw? ==> net.at > old(net.at) && net.Last(Throws)
      ensures old(net.faulty) || r.Threw? ==> net.faulty
      ensures old(net.Spent()) ==>
        net.Spent() && !r.Threw? && clientSent == old(clientSent) && toClient.content == old(toClient.content)
    {
      hide ByteBuffer.Valid;
      if toClient.Position() == 0 {
        return Moved(0);
      }
      var o := net.Use();
      if o.Throws? {
        return Threw;
      }
      var w := Leaving(o, toClient.Position());
      clientSent := clientSent + toClient.content[..w];
      toClient.ShiftDown(w);
      return Moved(w);
    }

    /** drain towards the upstream server. */
    method DrainRemote() returns (r: Io)
      requires Shape()
      modifies net`at, net`faulty, toRemote`pos, toRemote`content, toRemote.data, this`remoteSent
      ensures Shape() && !r.Eof? && net.at >= old(net.at)
      ensures Now(Broken(r.Threw?)) == FlushUp(net.script, old(Now(Open)))
      ensures remoteSent + toRemote.content == old(remoteSent + toRemote.content) && Snap() == old(Snap())
      ensures old(toRemote.content) == [] ==>
        r == Moved(0) && net.at == old(net.at) && toRemote.content == [] && remoteSent == old(remoteSent)
      ensures r.Threw? ==> net.at > old(net.at) && net.Last(Throws)
      ensures old(net.faulty) || r.Threw? ==> net.faulty
      ensures old(net.Spent()) ==>
        net.Spent() && remoteSent == old(remoteSent) && toRemote.content == old(toRemote.content)
    {
      hide ByteBuffer.Valid;
      if toRemote.Position() == 0 {
        return Moved(0);
      }
      var o := net.Use();
      if o.Throws? {
        return Threw;
      }
      var w := Leaving(o, toRemote.Position());
      remoteSent := remoteSent + toRemote.content[..w];
      toRemote.ShiftDown(w);
      return Moved(w);
    }

    /** queue towards the client, where the bytes fit. */
    method TellClient(bytes: seq<Byte>)
      requires Shape() && |toClient.content| + |bytes| <= RELAY_BUF
      modifies toClient`pos, toClient`content, toClient.data
      ensures Shape()
      ensures clientSent + toClient.content == old(clientSent + toClient.content) + bytes
      ensures toClient.content == old(toClient.content) + bytes
      ensures Now(Open) == old(Now(Open)).SayDown(bytes)
      ensures Snap() == old(Snap()).(toClient := old(Snap()).toClient + bytes)
    {
      toClient.Queue(bytes);
    }

    /** queue towards the upstream server, where the bytes fit. */
    method TellRemote(bytes: seq<Byte>)
      requires Shape() && |toRemote.content| + |bytes| <= RELAY_BUF
      modifies toRemote`pos, toRemote`content, toRemote.data
      ensures Shape()
      ensures remoteSent + toRemote.content == old(remoteSent + toRemote.content) + bytes
      ensures toRemote.content == old(toRemote.content) + bytes
      ensures Now(Open) == old(Now(Open)).SayUp(bytes)
      ensures Snap() == old(Snap()).(toRemote := old(Snap()).toRemote + bytes)
    {
      toRemote.Queue(bytes);
    }

    /** consume on the handshake buffer. */
    method Eat(n: nat)
      requires Shape() && n <= |hs.content|
      modifies hs`pos, hs`content, hs.data
      ensures Shape() && hs.content == old(hs.content)[n..]
      ensures Snap() == old(Snap()).(hs := hs.content)
    {
      hs.Consume(n);
    }

    method ClearHs()
      requires Shape()
      modifies hs`pos, hs`content
      ensures Shape() && hs.content == []
      ensures Snap() == old(Snap()).(hs := [])
    {
      hs.Clear();
    }

    method Touch()
      modifies this`lastActivityMs
      ensures lastActivityMs > 0
    {
      lastActivityMs := Clock();
    }

    /** System.currentTimeMillis, after 1970. */
    static method Clock() returns (t: int)
      ensures t > 0
    {
      t :| t > 0;
    }

    /** markHalfClosed. */
    method MarkHalfClosed()
      requires halfClosedAtMs >= 0
      modifies this`halfClosedAtMs, counters`halfClosedClients
      ensures halfClosedAtMs > 0
      ensures counters.halfClosedClients
        == old(counters.halfClosedClients) + (if old(halfClosedAtMs) == 0 then 1 else 0)
    {
      if halfClosedAtMs == 0 {
        halfClosedAtMs := Clock();
        counters.halfClosedClients := counters.halfClosedClients + 1;
      }
    }

    // ---- the client's handshake ----

    /** The parse loop at its head: more to do, or at rest. */
    static ghost predicate InClientLoop(cfg: Config, more: bool, s: State) {
      if more then ClientLoop(cfg, s) else Tracks(cfg, s)
    }

    static ghost function Rank(p: Phase): nat {
      match p
      case ClientGreeting => 3
      case ClientAuth => 2
      case ClientRequest => 1
      case UpstreamGreeting => 3
      case UpstreamAuth => 2
      case UpstreamCommand => 1
      case _ => 0
    }

    /** What has arrived, as a parser sees it. */
    lemma Seen()
      requires Shape()
      ensures
        var b, buf := hs.content, hs.data[..];
        && hs.Position() == |b| <= HS_BUF
        && ParseClientGreeting(buf, hs.Position()) == ParseClientGreeting(b, |b|)
        && ParseClientAuth(buf, hs.Position()) == ParseClientAuth(b, |b|)
        && ParseClientRequest(buf, hs.Position()) == ParseClientRequest(b, |b|)
        && ParseUpstreamGreetingReply(buf, hs.Position()) == ParseUpstreamGreetingReply(b, |b|)
        && ParseUpstreamAuthReply(buf, hs.Position()) == ParseUpstreamAuthReply(b, |b|)
        && ParseUpstreamCommandReply(buf, hs.Position()) == ParseUpstreamCommandReply(b, |b|)
    {
      OnlyArrived(hs.data[..], hs.Position());
      assert hs.data[..][..hs.Position()] == hs.content;
    }

    /** The connection after a message, its flush still to come. */
    ghost predicate Turned(more: bool, end: End, t: Turn)
      reads this, net, hs, toRemote, toClient
    {
      && Now(end) == t.wire && (more <==> t.kind.More?)
      && (more ==> end.Open? && phase == t.phase && hs.content == t.hs)
    }

    lemma ClientFacts()
      requires Shape() && ClientLoop(cfg, Snap())
      ensures
        var b, buf, c := hs.content, hs.data[..], ClientRun(cfg, phase, hs.content);
        && hs.Valid() && hs.Position() == |b|
        && ParseClientGreeting(buf, hs.Position()) == ParseClientGreeting(b, |b|)
        && ParseClientAuth(buf, hs.Position()) == ParseClientAuth(b, |b|)
        && ParseClientRequest(buf, hs.Position()) == ParseClientRequest(b, |b|)
        && (Asks(cfg, clientGot).Asked? <==> c.Asked?)
        && (c.Dropped? ==> Caused(Cause.Dropped, net.at))
        && (c == Waiting([], phase, b) ==> Tracks(cfg, Snap()))
      ensures Sound(cfg, Snap()) && !closeAfterFlush && Blamed() && ClientPhase(phase)
    {
      hide ClientRun, ServerRun, Asks, Tracks, ClientLoop, Sound, ByteBuffer.Valid;
      hide ParseClientGreeting, ParseClientAuth, ParseClientRequest;
      Seen();
      ClientKind(cfg, Snap());
      ClientSound(cfg, Snap());
      ClientRoom(cfg, Snap());
      if ClientRun(cfg, phase, hs.content) == Waiting([], phase, hs.content) {
        ClientWaits(cfg, Snap());
      }
    }

    /** consume and queue: a message is answered, and the next one awaited. */
    method Admit(n: nat, answer: seq<Byte>, next: Phase)
      requires Shape() && ClientLoop(cfg, Snap()) && n <= |hs.content| && ClientPhase(next) && |answer| <= 20
      requires ClientRun(cfg, phase, hs.content) == ClientRun(cfg, next, hs.content[n..]).After(answer)
      modifies hs`pos, hs`content, hs.data, toClient`pos, toClient`content, toClient.data, this`phase
      ensures Shape() && Sound(cfg, Snap()) && ClientLoop(cfg, Snap())
      ensures phase == next && hs.content == old(hs.content)[n..]
      ensures Now(Open) == old(Now(Open)).SayDown(answer)
    {
      hide ClientRun, ServerRun, Asks, ClientLoop, Sound, ByteBuffer.Valid, Net.Valid, ClientPhase;
      ghost var s := Snap();
      ClientRoom(cfg, s);
      Eat(n);
      TellClient(answer);
      phase := next;
      ClientSteps(cfg, s, answer, next, n);
      ClientSound(cfg, Snap());
    }

    /** The same with an answer that turns the client away: it is closed once that has gone out. */
    method Refuse(answer: seq<Byte>, ghost s: State)
      requires Shape() && ClientLoop(cfg, s) && |answer| <= 20 && Snap() == s.(hs := hs.content)
      requires ClientRun(cfg, s.phase, s.hs) == Refused(answer)
      modifies toClient`pos, toClient`content, toClient.data, this`closeAfterFlush
      ensures Shape() && Sound(cfg, Snap()) && Tracks(cfg, Snap()) && Blamed()
      ensures Now(Open) == old(Now(Open)).SayDown(answer)
    {
      hide ClientRun, ServerRun, Asks, Tracks, ClientLoop, Sound, ByteBuffer.Valid, Net.Valid, ClientPhase;
      ClientRoom(cfg, s);
      TellClient(answer);
      closeAfterFlush := true;
      ClientRefused(cfg, s, answer, hs.content);
      TracksSound(cfg, Snap());
    }

    method GreetingStep() returns (more: bool, end: End)
      requires Shape() && ClientLoop(cfg, Snap()) && phase.ClientGreeting?
      modifies hs`pos, hs`content, hs.data, toClient`pos, toClient`content, toClient.data, this`phase,
        this`closeAfterFlush
      ensures Shape() && Sound(cfg, Snap())
      ensures end.Open? ==> InClientLoop(cfg, more, Snap()) && Blamed()
      ensures more ==> end.Open? && Rank(phase) < old(Rank(phase))
      ensures net.at >= old(net.at) && (end.Closed? ==> end.why != Done && Caused(end.why, old(net.at)))
      ensures Asks(cfg, clientGot).Asked? ==> more
      ensures Turned(more, end, old(NextMessage()))
    {
      hide ClientRun, ServerRun, Asks, Tracks, ClientLoop, Sound, Asking, Failing, ByteBuffer.Valid, ClientReply;
      hide Snap, Shape, Now, Caused, Blamed, OpenWire, ParseClientGreeting, ParseClientAuth, ParseClientRequest;
      more, end := false, Open;
      ghost var s := Snap();
      Distinct();
      SnapIs();
      NowIs(Open);
      ClientFacts();
      GreetingMeans(cfg, hs.content);
      match ParseClientGreeting(hs.data[..], hs.Position())
      case NeedMore =>
      case Bad =>
        end := Closed(Cause.Dropped);
      case Ok(methods, n) =>
        var wanted := Wanted(cfg);
        if wanted.0 in methods {
          Admit(n, [5, wanted.0], wanted.1);
          more := true;
        } else {
          Eat(n);
          Refuse([5, 0xFF], s);
        }
        NotBlamed();
    }

    method AuthStep() returns (more: bool, end: End)
      requires Shape() && ClientLoop(cfg, Snap()) && phase.ClientAuth?
      modifies hs`pos, hs`content, hs.data, toClient`pos, toClient`content, toClient.data, this`phase,
        this`closeAfterFlush
      ensures Shape() && Sound(cfg, Snap())
      ensures end.Open? ==> InClientLoop(cfg, more, Snap()) && Blamed()
      ensures more ==> end.Open? && Rank(phase) < old(Rank(phase))
      ensures net.at >= old(net.at) && (end.Closed? ==> end.why != Done && Caused(end.why, old(net.at)))
      ensures Asks(cfg, clientGot).Asked? ==> more
      ensures Turned(more, end, old(NextMessage()))
    {
      hide ClientRun, ServerRun, Asks, Tracks, ClientLoop, Sound, Asking, Failing, ByteBuffer.Valid, ClientReply;
      hide Snap, Shape, Now, Caused, Blamed, OpenWire, ParseClientGreeting, ParseClientAuth, ParseClientRequest;
      more, end := false, Open;
      ghost var s := Snap();
      Distinct();
      SnapIs();
      NowIs(Open);
      ClientFacts();
      AuthMeans(cfg, hs.content);
      match ParseClientAuth(hs.data[..], hs.Position())
      case NeedMore =>
      case Bad =>
        end := Closed(Cause.Dropped);
      case Ok(l, n) =>
        if LoginMatches(cfg, l) {
          Admit(n, [1, 0], ClientRequest);
          more := true;
        } else {
          Eat(n);
          Refuse([1, 1], s);
        }
        NotBlamed();
    }

    method RequestStep() returns (end: End)
      requires Shape() && ClientLoop(cfg, Snap()) && phase.ClientRequest?
      modifies net`at, net`faulty, hs`pos, hs`content, hs.data, toClient`pos, toClient`content, toClient.data,
        this`clientSent
      modifies this`phase, this`closeAfterFlush, this`hasRemote, this`lastActivityMs
      modifies this`cmd, this`rawAddr, this`portBytes, this`earlyData
      ensures Shape() && Sound(cfg, Snap())
      ensures end.Open? ==> Tracks(cfg, Snap()) && Blamed()
      ensures net.at >= old(net.at) && (end.Closed? ==> end.why != Done && Caused(end.why, old(net.at)))
      ensures old(net.Spent()) && Asks(cfg, clientGot).Asked? ==>
        end.Open? && net.Spent() && clientSent == old(clientSent) && phase.UpstreamConnecting? && !closeAfterFlush
      ensures Turned(false, end, old(NextMessage()))
    {
      hide ClientRun, ServerRun, Asks, Tracks, ClientLoop, Sound, Asking, Failing, ByteBuffer.Valid, ClientReply;
      hide Snap, Shape, Now, Caused, Blamed, OpenWire, ParseClientGreeting, ParseClientAuth, ParseClientRequest;
      end := Open;
      Distinct();
      SnapIs();
      ClientFacts();
      RequestMeans(cfg, hs.content);
      match ParseClientRequest(hs.data[..], hs.Position())
      case NeedMore =>
      case Bad =>
        Refuse(ClientReply(7), Snap());
      case Ok(r, n) =>
        end := Accept(r, n);
    }

    lemma NoneKept()
      requires ClientLoop(cfg, Snap())
      ensures OrEmpty(earlyData) == []
    {
      hide ClientLoop;
      ClientRoom(cfg, Snap());
    }

    /** What the request asks for is kept, and what follows it waits for the relay. */
    method KeepRequest(r: Request, n: nat)
      requires Shape() && 1 <= n <= |hs.content| && OrEmpty(earlyData) == []
      modifies hs`pos, hs`content, hs.data, this`cmd, this`rawAddr, this`portBytes, this`earlyData
      ensures Shape() && |old(hs.content)[n..]| <= HS_BUF
      ensures Snap() == old(Snap()).(hs := [], early := old(hs.content)[n..], request := r)
    {
      hide ByteBuffer.Valid, Net.Valid;
      Eat(n);
      assert |hs.content| <= HS_BUF by {
        assert hs.Position() <= HS_BUF;
      }
      cmd, rawAddr, portBytes := r.cmd, r.rawAddr, r.portBytes;
      if hs.Position() > 0 {
        earlyData := Some(hs.Copy());
        ClearHs();
      }
    }

    /** The client's request is complete; what follows it waits for the relay. */
    method Accept(r: Request, n: nat) returns (end: End)
      requires Shape() && ClientLoop(cfg, Snap())
      requires 1 <= n <= |hs.content| && ClientRun(cfg, phase, hs.content) == Asked([], r, hs.content[n..])
      modifies net`at, net`faulty, hs`pos, hs`content, hs.data, toClient`pos, toClient`content, toClient.data,
        this`clientSent
      modifies this`phase, this`closeAfterFlush, this`hasRemote, this`lastActivityMs
      modifies this`cmd, this`rawAddr, this`portBytes, this`earlyData
      ensures Shape() && Sound(cfg, Snap())
      ensures end.Open? ==> Tracks(cfg, Snap()) && Blamed()
      ensures net.at >= old(net.at) && (end.Closed? ==> end.why != Done && Caused(end.why, old(net.at)))
      ensures old(net.Spent()) && Asks(cfg, clientGot).Asked? ==>
        end.Open? && net.Spent() && clientSent == old(clientSent) && phase.UpstreamConnecting? && !closeAfterFlush
      ensures Now(end) == OpenWire(net.script, old(Now(Open)))
    {
      hide ClientRun, ServerRun, Asks, Tracks, ClientLoop, Sound, Asking, Failing, ByteBuffer.Valid, ClientReply;
      hide Snap, Shape, Now, Caused, Blamed, OpenWire, Serves;
      ghost var s := Snap();
      Distinct();
      SnapIs();
      NoneKept();
      KeepRequest(r, n);
      ClientAsked(cfg, s, r, s.hs[n..]);
      end := StartUpstream();
    }

    lemma AskingFacts()
      requires Asking(cfg, Snap())
      ensures Asks(cfg, clientGot).Asked? && !closeAfterFlush
    {
      hide Asks;
    }

    method MarkConnecting()
      modifies this`phase, this`hasRemote, this`lastActivityMs
      ensures Snap() == old(Snap()).(phase := UpstreamConnecting, hasRemote := true) && phase.UpstreamConnecting?
    {
      hasRemote := true;
      phase := UpstreamConnecting;
      Touch();
    }

    /** startUpstream; opening the socket may fail. */
    method StartUpstream() returns (end: End)
      requires Shape() && Asking(cfg, Snap()) && Failing(cfg, Snap())
      requires Tracks(cfg, Snap().(phase := UpstreamConnecting, hasRemote := true))
      modifies net`at, net`faulty, toClient`pos, toClient`content, toClient.data, this`clientSent
      modifies this`phase, this`closeAfterFlush, this`hasRemote, this`lastActivityMs
      ensures Shape() && Sound(cfg, Snap())
      ensures end.Open? ==> Tracks(cfg, Snap()) && Blamed()
      ensures net.at >= old(net.at) && (end.Closed? ==> end.why != Done && Caused(end.why, old(net.at)))
      ensures old(net.Spent()) && Asks(cfg, clientGot).Asked? ==>
        end.Open? && net.Spent() && clientSent == old(clientSent) && phase.UpstreamConnecting? && !closeAfterFlush
      ensures Now(end) == OpenWire(net.script, old(Now(Open)))
    {
      hide ClientRun, ServerRun, Asks, Tracks, ClientLoop, Sound, Asking, Failing, ByteBuffer.Valid, ClientReply;
      hide Snap, Shape, Now, Caused, Blamed, FailWire, Serves;
      AskingFacts();
      var o := Ask();
      if o.Throws? {
        ghost var since := net.at;
        end := FailUpstream();
        if end.Closed? {
          CausedSince(end.why, old(net.at), since);
        }
        return;
      }
      MarkConnecting();
      NotBlamed();
      TracksSound(cfg, Snap());
      end := Open;
    }

    /** failUpstream: the report goes out only if nothing else is pending, then the connection closes. */
    method FailUpstream() returns (end: End)
      requires Shape() && Asking(cfg, Snap()) && Failing(cfg, Snap())
      requires Asks(cfg, clientGot).Asked? && (net.faulty || Serves(cfg, clientGot, remoteGot).Failed?)
      modifies net`at, net`faulty, toClient`pos, toClient`content, toClient.data, this`clientSent
      modifies this`phase, this`closeAfterFlush, this`hasRemote
      ensures Shape() && Sound(cfg, Snap())
      ensures end.Open? ==> Tracks(cfg, Snap()) && Blamed() && toClient.content != []
      ensures net.at >= old(net.at) && (end.Closed? ==> end.why != Done && Caused(end.why, old(net.at)))
      ensures phase.ClientRequest? && closeAfterFlush && !hasRemote
      ensures clientSent + toClient.content
        == old(clientSent + toClient.content) + if old(toClient.content) == [] then ClientReply(5) else []
      ensures old(net.Spent()) ==> end.Open? && clientSent == old(clientSent) && net.Spent()
      ensures Now(end) == FailWire(net.script, old(Now(Open)))
    {
      hide ClientRun, ServerRun, Asks, Serves, Tracks, ClientLoop, Sound, Asking, Failing, ByteBuffer.Valid,
        ClientReply, Caused, Snap, Shape;
      Distinct();
      MarkFailed();
      TracksSound(cfg, Snap());
      var w := DrainClient();
      CausedNow(old(net.at));
      Distinct();
      end := if w.Threw? then Closed(Broke) else if toClient.Position() == 0 then Closed(Flushed) else Open;
    }

    lemma CausedNow(from: nat)
      ensures from < net.at && net.Last(Throws) ==> Caused(Broke, from)
      ensures from < net.at && net.Last(Outcome.Ends) ==> Caused(HungUp, from)
      ensures closeAfterFlush && Blamed() && toClient.content == [] ==> Caused(Flushed, from)
    {
    }

    lemma CausedSince(why: Cause, from: nat, since: nat)
      requires from <= since && Caused(why, since)
      ensures Caused(why, from)
    {
    }

    lemma OpenUpstream()
      requires Tracks(cfg, Snap())
      ensures UpstreamPhase(phase) || phase.UpstreamConnecting? ==> !closeAfterFlush && hasRemote
      ensures phase.Relay? ==> !closeAfterFlush
    {
      hide Tracks, UpstreamPhase;
      ClosingIsClient(cfg, Snap());
      PhasesApart(phase);
    }

    static lemma PhasesApart(p: Phase)
      ensures UpstreamPhase(p) || p.UpstreamConnecting? || p.Relay? ==> !ClientPhase(p)
      ensures UpstreamPhase(p) ==> !p.Relay?
    {
    }

    /** The report of a failure, unless something else still waits for the client. */
    method Report() returns (ghost told: bool)
      requires Shape() && |toClient.content| <= 14
      modifies toClient`pos, toClient`content, toClient.data
      ensures Shape() && toClient.content != [] && told == (old(toClient.content) == [])
      ensures Snap() == old(Snap()).(toClient := old(Snap()).toClient + if told then ClientReply(5) else [])
      ensures
        var w := old(Now(Open));
        Now(Open) == if w.down.waiting == [] then w.SayDown(ClientReply(5)) else w
    {
      hide ByteBuffer.Valid, Net.Valid, Shape, ClientReply;
      Distinct();
      told := toClient.content == [];
      assert Snap().toClient + [] == Snap().toClient;
      if toClient.Position() == 0 {
        TellClient(ClientReply(5));
      }
    }

    /** Everything failUpstream does before it flushes. */
    method MarkFailed()
      requires Shape() && Asking(cfg, Snap()) && Failing(cfg, Snap())
      requires Asks(cfg, clientGot).Asked? && (net.faulty || Serves(cfg, clientGot, remoteGot).Failed?)
      modifies toClient`pos, toClient`content, toClient.data
      modifies this`phase, this`closeAfterFlush, this`hasRemote
      ensures Shape() && Tracks(cfg, Snap()) && toClient.content != [] && Blamed()
      ensures phase.ClientRequest? && closeAfterFlush && !hasRemote
      ensures clientSent + toClient.content
        == old(clientSent + toClient.content) + if old(toClient.content) == [] then ClientReply(5) else []
      ensures var w := old(Now(Open));
        Now(Open) == if w.down.waiting == [] then w.SayDown(ClientReply(5)) else w
    {
      hide ClientRun, ServerRun, Asks, Serves, Tracks, ClientLoop, Sound, Asking, Failing, ByteBuffer.Valid,
        ClientReply, Shape;
      ghost var s := Snap();
      ClientRoom(cfg, s);
      hasRemote := false;
      ghost var told := Report();
      closeAfterFlush := true;
      phase := ClientRequest;
      assert s.toClient + [] == s.toClient && clientSent + [] == clientSent;
      FailedTracks(cfg, s, told);
    }

    /** flush towards the client. */
    method FlushClient(ghost from: nat) returns (end: End)
      requires Shape() && Blamed() && from <= net.at
      modifies net`at, net`faulty, toClient`pos, toClient`content, toClient.data, this`clientSent
      ensures Shape() && Snap() == old(Snap()) && Blamed() && net.at >= old(net.at)
      ensures end == Open || (end == Closed(Broke) && Caused(Broke, from))
      ensures Now(end) == FlushDown(net.script, old(Now(Open)))
      ensures old(net.Spent()) ==> net.Spent() && end.Open? && clientSent == old(clientSent)
      ensures old(toClient.content) == [] ==>
        end.Open? && net.at == old(net.at) && toClient.content == [] && clientSent == old(clientSent)
    {
      hide Asks, ByteBuffer.Valid, Snap, Shape, Now, Caused, Blamed, BlamedBy, FlushDown;
      Distinct();
      BlameIs();
      ghost var faulty := net.faulty;
      var w := DrainClient();
      StillBlamed(faulty);
      CausedNow(from);
      end := if w.Threw? then Closed(Broke) else Open;
    }

    lemma NowIs(end: End)
      ensures Now(end).end == end && Now(end).at == net.at
      ensures Now(end).down.sent == clientSent && Now(end).down.waiting == toClient.content
      ensures Now(end).up.sent == remoteSent && Now(end).up.waiting == toRemote.content
      ensures forall why :: Now(Closed(why)) == Now(Open).(end := Closed(why))
    {
    }

    /** A message of the client, if one is complete. */
    method ClientStep() returns (more: bool, end: End)
      requires Shape() && ClientLoop(cfg, Snap())
      modifies net`at, net`faulty, hs`pos, hs`content, hs.data, toClient`pos, toClient`content, toClient.data,
        this`clientSent
      modifies this`phase, this`closeAfterFlush, this`hasRemote, this`lastActivityMs
      modifies this`cmd, this`rawAddr, this`portBytes, this`earlyData
      ensures Shape() && Sound(cfg, Snap())
      ensures end.Open? ==> InClientLoop(cfg, more, Snap()) && Blamed()
      ensures more ==> Rank(phase) < old(Rank(phase))
      ensures old(net.Spent()) && Asks(cfg, clientGot).Asked? ==>
        && end.Open? && net.Spent() && clientSent == old(clientSent)
        && (more || (phase.UpstreamConnecting? && !closeAfterFlush))
      ensures net.at >= old(net.at) && (end.Closed? ==> end.why != Done && Caused(end.why, old(net.at)))
      ensures Turned(more, end, old(NextMessage()))
    {
      hide ClientRun, ServerRun, Asks, Tracks, ClientLoop, Sound, Asking, Failing, ByteBuffer.Valid, ClientReply;
      hide Snap, Shape, Now, Caused, Blamed, BlamedBy, ClientMessage, Turned;
      ClientFacts();
      match phase {
        case ClientGreeting => more, end := GreetingStep();
        case ClientAuth => more, end := AuthStep();
        case ClientRequest =>
          end := RequestStep();
          more := false;
      }
    }

    /** One turn of the parse loop: a message, and what it made the bridge answer. */
    method ClientTurn() returns (more: bool, end: End)
      requires Shape() && ClientLoop(cfg, Snap())
      modifies net`at, net`faulty, hs`pos, hs`content, hs.data, toClient`pos, toClient`content, toClient.data,
        this`clientSent
      modifies this`phase, this`closeAfterFlush, this`hasRemote, this`lastActivityMs
      modifies this`cmd, this`rawAddr, this`portBytes, this`earlyData
      ensures Shape() && Sound(cfg, Snap())
      ensures end.Open? ==> InClientLoop(cfg, more, Snap()) && Blamed()
      ensures more ==> Rank(phase) < old(Rank(phase))
      ensures old(net.Spent()) && Asks(cfg, clientGot).Asked? ==>
        && end.Open? && net.Spent() && clientSent == old(clientSent)
        && (more || (phase.UpstreamConnecting? && !closeAfterFlush))
      ensures net.at >= old(net.at) && (end.Closed? ==> end.why != Done && Caused(end.why, old(net.at)))
      ensures old(AfterMessages()) == if more && end.Open? then AfterMessages() else Now(end)
    {
      hide ClientRun, ServerRun, Asks, Tracks, ClientLoop, Sound, Asking, Failing, ByteBuffer.Valid, ClientReply;
      hide Snap, Shape, Now, Caused, Blamed, BlamedBy, ClientMessage, ClientWire, FlushDown, InClientLoop;
      Distinct();
      ClientGoes(cfg, net.script, phase, hs.content, Now(Open));
      more, end := ClientStep();
      NowIs(end);
      if end.Open? {
        NowIs(Open);
        end := FlushClient(old(net.at));
        NowIs(end);
      }
    }

    /** The parse loop of readClientHandshake. */
    method ParseMessages() returns (end: End)
      requires Shape() && ClientLoop(cfg, Snap())
      modifies net`at, net`faulty, hs`pos, hs`content, hs.data
      modifies toClient`pos, toClient`content, toClient.data, this`clientSent
      modifies this`phase, this`closeAfterFlush, this`hasRemote, this`lastActivityMs
      modifies this`cmd, this`rawAddr, this`portBytes, this`earlyData
      ensures Shape() && Sound(cfg, Snap())
      ensures end.Open? ==> Tracks(cfg, Snap()) && Blamed()
      ensures net.at >= old(net.at) && (end.Closed? ==> end.why != Done && Caused(end.why, old(net.at)))
      ensures old(net.Spent()) && Asks(cfg, clientGot).Asked? ==>
        end.Open? && phase.UpstreamConnecting? && !closeAfterFlush && clientSent == old(clientSent) && net.Spent()
      ensures Now(end) == old(AfterMessages())
    {
      hide ClientRun, ServerRun, Asks, Serves, Tracks, ClientLoop, Sound, Asking, Failing, ByteBuffer.Valid,
        ClientReply, Shape, Caused, Blamed, BlamedBy, Snap, Now, AfterMessages;
      ghost var quiet := net.Spent();
      var progressed := true;
      end := Open;
      NotClosing();
      while progressed
        invariant end.Open? && Shape() && InClientLoop(cfg, progressed, Snap()) && Blamed() && net.at >= old(net.at)
        invariant quiet && Asks(cfg, clientGot).Asked? ==>
          && clientSent == old(clientSent) && net.Spent()
          && (progressed || (phase.UpstreamConnecting? && !closeAfterFlush))
        invariant old(AfterMessages()) == if progressed then AfterMessages() else Now(Open)
        decreases progressed, Rank(phase)
      {
        ghost var since := net.at;
        progressed, end := ClientTurn();
        if !end.Open? {
          CausedSince(end.why, old(net.at), since);
          return;
        }
      }
      TracksSound(cfg, Snap());
    }

    lemma NotClosing()
      requires ClientLoop(cfg, Snap())
      ensures !closeAfterFlush && Blamed()
    {
      hide ClientLoop;
      ClientRoom(cfg, Snap());
    }

    /** The read of a client's handshake. */
    method HearClient() returns (r: Io, ghost m: seq<Byte>)
      requires Shape()
      modifies net`at, net`faulty, hs`pos, hs`content, hs.data, this`clientGot
      ensures Shape() && |hs.content| <= HS_BUF && net.at >= old(net.at)
      ensures Snap() == old(Snap()).(hs := old(hs.content) + m, clientGot := old(clientGot) + m)
      ensures hs.content == old(hs.content) + m && clientGot == old(clientGot) + m
      ensures !r.Moved? ==> Snap() == old(Snap())
      ensures
        var o, w := old(net.Next()), old(Now(Open));
        if |old(hs.content)| >= HS_BUF then
          r == Moved(0) && hs.content == old(hs.content) && Now(Open) == w && net.at == old(net.at)
        else
          && m == Arriving(o, HS_BUF - |old(hs.content)|) && 
             Now(if r.Eof? then Closed(HungUp) else Broken(r.Threw?)) == HearUp(net.script, w, m)
          && r == (if o.Throws? then Threw else if o.Ends? then Eof else Moved(|m|))
          && net.at == After(net.script, old(net.at))
      ensures r.Threw? ==> net.at > old(net.at) && net.Last(Throws)
      ensures r.Eof? ==> net.at > old(net.at) && net.Last(Outcome.Ends)
      ensures net.faulty == (old(net.faulty) || r.Threw? || r.Eof?)
    {
      hide ByteBuffer.Valid, Arriving;
      r, m := ReadClient(hs);
      assert |hs.content| <= HS_BUF by {
        assert hs.Position() <= HS_BUF;
      }
    }

    /** readClientHandshake. */
    method ReadClientHandshake() returns (end: End)
      requires Shape() && Tracks(cfg, Snap()) && ClientPhase(phase) && !closeAfterFlush
      modifies net`at, net`faulty, this`clientGot, hs`pos, hs`content, hs.data
      modifies toClient`pos, toClient`content, toClient.data, this`clientSent
      modifies this`phase, this`closeAfterFlush, this`hasRemote, this`lastActivityMs
      modifies this`cmd, this`rawAddr, this`portBytes, this`earlyData
      ensures Shape() && Sound(cfg, Snap())
      ensures end.Open? ==> Tracks(cfg, Snap()) && Blamed()
      ensures net.at >= old(net.at) && (end.Closed? ==> end.why != Done && Caused(end.why, old(net.at)))
      ensures old(|hs.content|) < HS_BUF ==>
        && clientGot == old(clientGot) + Arriving(old(net.Next()), HS_BUF - |old(hs.content)|)
        && (old(net.at) + 1 >= |net.script| && old(net.Next()).Gives? && Asks(cfg, clientGot).Asked? ==>
             end.Open? && phase.UpstreamConnecting? && !closeAfterFlush && clientSent == old(clientSent) && net.Spent())
      ensures Now(end) == old(AfterListening())
    {
      hide ClientRun, ServerRun, Asks, Serves, Tracks, ClientLoop, Sound, Asking, Failing, ByteBuffer.Valid,
        ClientReply, Shape, Snap, Now, Caused, Blamed, BlamedBy, Arriving, ClientWire, HearUp;
      ghost var s := Snap();
      SnapIs();
      NowIs(Open);
      TracksSound(cfg, s);
      var n, m := HearClient();
      NowIs(Open);
      if !n.Moved? {
        CausedNow(old(net.at));
        end := Closed(if n.Threw? then Broke else HungUp);
        NowIs(end);
        return;
      }
      if n.n > 0 {
        Touch();
      }
      ClientArrives(cfg, s, m);
      ghost var since := net.at;
      end := ParseMessages();
      if end.Closed? {
        CausedSince(end.why, old(net.at), since);
      }
    }

    // ---- the upstream handshake ----

    /** onConnectable: the connection is up, or failed, or not there yet. */
    method OnConnectable() returns (end: End)
      requires Shape() && Tracks(cfg, Snap()) && phase.UpstreamConnecting? && !closeAfterFlush
      modifies net`at, net`faulty, hs`pos, hs`content, toClient`pos, toClient`content, toClient.data, this`clientSent
      modifies toRemote`pos, toRemote`content, toRemote.data
      modifies this`phase, this`closeAfterFlush, this`hasRemote, this`lastActivityMs
      ensures Shape() && Sound(cfg, Snap())
      ensures end.Open? ==> Tracks(cfg, Snap()) && Blamed() && !phase.Relay?
      ensures net.at >= old(net.at) && (end.Closed? ==> end.why != Done && Caused(end.why, old(net.at)))
      ensures
        var o := old(net.Next());
        && (o.Connects? ==>
             && end.Open? && phase.UpstreamGreeting? && hs.content == []
             && remoteSent + toRemote.content == old(remoteSent + toRemote.content) + Head(cfg)
             && clientSent + toClient.content == old(clientSent + toClient.content))
        && (o.Throws? ==>
             && phase.ClientRequest? && closeAfterFlush && !hasRemote
             && clientSent + toClient.content
                == old(clientSent + toClient.content) + if old(toClient.content) == [] then ClientReply(5) else [])
        && (!o.Connects? && !o.Throws? ==> end.Open? && Snap() == old(Snap()))
        && (o.Throws? && old(net.at) + 1 >= |net.script| ==> end.Open? && clientSent == old(clientSent))
      ensures Now(end) == ConnectWire(cfg, net.script, old(Now(Open)))
      ensures ConnectedAs(old(net.Next()))
    {
      hide ClientRun, ServerRun, Asks, Serves, Tracks, ClientLoop, ServerLoop, Sound, Asking, Failing,
        ByteBuffer.Valid, ClientReply, Snap, Shape, Caused, Blamed, Head, Now, FailWire, Wire.SayUp;
      Distinct();
      OpenUpstream();
      TracksSound(cfg, Snap());
      NowIs(Open);
      var o := Ask();
      NotBlamed();
      end := Open;
      if o.Throws? {
        end := GiveUp(old(net.at));
      } else if o.Connects? {
        MarkConnected();
        NotBlamed();
      }
    }

    /** The greeting goes out, and the server's answer is awaited. */
    method MarkConnected()
      requires Shape() && Tracks(cfg, Snap()) && phase.UpstreamConnecting? && !closeAfterFlush
      modifies hs`pos, hs`content, toRemote`pos, toRemote`content, toRemote.data
      modifies this`phase, this`lastActivityMs
      ensures Shape() && Sound(cfg, Snap()) && Tracks(cfg, Snap()) && phase.UpstreamGreeting? && hs.content == []
      ensures remoteSent + toRemote.content == old(remoteSent + toRemote.content) + Head(cfg)
      ensures Now(Open) == old(Now(Open)).SayUp(Head(cfg))
    {
      hide ClientRun, ServerRun, Asks, Serves, Tracks, Sound, Asking, Failing, ByteBuffer.Valid, Shape, Net.Valid;
      Distinct();
      ghost var s := Snap();
      ConnectingIsFresh(cfg, s);
      TellRemote(SocksProtocol.UpstreamGreeting(cfg.HasAuth()));
      phase := Phase.UpstreamGreeting;
      ClearHs();
      Touch();
      Connected(cfg, s);
      TracksSound(cfg, Snap());
    }

    lemma GivesUpNow()
      requires Tracks(cfg, Snap()) && !closeAfterFlush && (phase.UpstreamConnecting? || UpstreamPhase(phase))
      ensures Failing(cfg, Snap()) && Asking(cfg, Snap()) && Asks(cfg, clientGot).Asked?
    {
      hide Tracks, Failing, Asking, Asks;
      GivesUp(cfg, Snap());
    }

    /** The server has failed in the middle of its handshake. */
    method GiveUp(ghost from: nat) returns (end: End)
      requires Shape() && Tracks(cfg, Snap()) && !closeAfterFlush && net.faulty && from <= net.at
      requires phase.UpstreamConnecting? || UpstreamPhase(phase)
      modifies net`at, net`faulty, toClient`pos, toClient`content, toClient.data, this`clientSent
      modifies this`phase, this`closeAfterFlush, this`hasRemote
      ensures Shape() && Sound(cfg, Snap())
      ensures end.Open? ==> Tracks(cfg, Snap()) && Blamed()
      ensures net.at >= old(net.at) && (end.Closed? ==> end.why != Done && Caused(end.why, from))
      ensures phase.ClientRequest? && closeAfterFlush && !hasRemote
      ensures clientSent + toClient.content
        == old(clientSent + toClient.content) + if old(toClient.content) == [] then ClientReply(5) else []
      ensures old(net.Spent()) ==> end.Open? && clientSent == old(clientSent) && net.Spent()
      ensures Now(end) == FailWire(net.script, old(Now(Open)))
    {
      hide ClientRun, ServerRun, Asks, Serves, Tracks, ClientLoop, ServerLoop, Sound, Asking, Failing,
        ByteBuffer.Valid, ClientReply, Snap, Shape, Caused, Blamed, Now, FailWire;
      GivesUpNow();
      ghost var since := net.at;
      end := FailUpstream();
      if end.Closed? {
        CausedSince(end.why, from, since);
      }
    }

    /** What the world does next. */
    method Ask() returns (o: Outcome)
      requires Shape()
      modifies net`at, net`faulty
      ensures Shape() && o == old(net.Next()) && net.faulty == (old(net.faulty) || IsFault(o))
      ensures net.at == After(net.script, old(net.at))
      ensures
        var w := old(Now(Open));
        o == At(net.script, w.at) && Now(Open) == w.(at := After(net.script, w.at))
      ensures o != Idles ==> net.at > old(net.at) && net.Last(o)
    {
      hide ByteBuffer.Valid;
      o := net.Use();
    }

    static ghost predicate InServerLoop(cfg: Config, more: bool, s: State) {
      if more then ServerLoop(cfg, s) else Tracks(cfg, s)
    }

    /** What holds at the head of the server's parse loop. */
    lemma ServerHas()
      requires Shape() && ServerLoop(cfg, Snap())
      ensures hasRemote && !closeAfterFlush && UpstreamPhase(phase) && RequestOk(Wish())
      ensures Snap().request == Wish() && Snap().early == OrEmpty(earlyData) && |OrEmpty(earlyData)| <= HS_BUF
      ensures |toClient.content| <= 14 && |toRemote.content| <= 778 && |hs.content| <= HS_BUF
      ensures ServerRun(cfg, Wish(), phase, hs.content).Crashed? ==> Caused(Cause.Crashed, net.at)
      ensures Sound(cfg, Snap()) && forall hs :: Sound(cfg, Snap().(hs := hs))
    {
      hide ClientRun, ServerRun, Asks, Serves, Tracks, ServerLoop, Sound, Asking, Failing, ByteBuffer.Valid, RequestOk;
      ServerHolds(cfg, Snap());
      ServerRoom(cfg, Snap());
      ServerLoopSound(cfg, Snap());
      ServerKind(cfg, Snap());
      Looped();
    }

    lemma Looped()
      requires ServerLoop(cfg, Snap())
      ensures hasRemote
    {
      hide ServerRun, Asking, Serves;
    }

    lemma ChoiceFacts()
      requires Shape() && ServerLoop(cfg, Snap()) && phase.UpstreamGreeting?
      ensures
        var p := ParseUpstreamGreetingReply(hs.content, |hs.content|);
        && hs.Position() == |hs.content| && p == ParseUpstreamGreetingReply(hs.data[..], hs.Position())
        && Sound(cfg, Snap()) && !closeAfterFlush
        && (p.NeedMore? ==> Tracks(cfg, Snap()))
        && (p.Bad? ==>
             && Asking(cfg, Snap()) && Failing(cfg, Snap())
             && Asks(cfg, clientGot).Asked? && Serves(cfg, clientGot, remoteGot).Failed?)
    {
      hide ClientRun, ServerRun, Asks, Serves, Tracks, ServerLoop, Sound, Asking, Failing, ByteBuffer.Valid;
      hide ParseUpstreamGreetingReply;
      Seen();
      ChoiceMeans(cfg, Snap().request, hs.content);
      ServerRoom(cfg, Snap());
      ServerLoopSound(cfg, Snap());
      if ParseUpstreamGreetingReply(hs.content, |hs.content|).NeedMore? {
        ServerWaits(cfg, Snap());
      } else if ParseUpstreamGreetingReply(hs.content, |hs.content|).Bad? {
        ServerFails(cfg, Snap());
      }
    }

    /** The connection after a reply, its flush still to come if the server is still there. */
    ghost predicate Answered(more: bool, end: End, t: Turn)
      reads this, net, hs, toRemote, toClient
    {
      && Now(end) == t.wire && (more <==> t.kind.More?)
      && (more ==> end.Open? && phase == t.phase && hs.content == t.hs)
      && (t.kind.Relays? <==> end.Open? && phase.Relay?)
      && (t.kind.More? || t.kind.Rest? <==> end.Open? && hasRemote && !phase.Relay?)
    }

    method ChoiceStep() returns (more: bool, end: End)
      requires Shape() && ServerLoop(cfg, Snap()) && phase.UpstreamGreeting?
      modifies net`at, net`faulty, hs`pos, hs`content, hs.data, toClient`pos, toClient`content, toClient.data,
        this`clientSent
      modifies toRemote`pos, toRemote`content, toRemote.data
      modifies this`phase, this`closeAfterFlush, this`hasRemote
      ensures Shape() && Sound(cfg, Snap())
      ensures end.Open? ==> InServerLoop(cfg, more, Snap()) && Blamed() && !phase.Relay?
      ensures more ==> end.Open? && Rank(phase) < old(Rank(phase))
      ensures net.at >= old(net.at) && (end.Closed? ==> end.why != Done && Caused(end.why, old(net.at)))
      ensures Answered(more, end, old(NextReply()))
    {
      hide ClientRun, ServerRun, Asks, Serves, Tracks, ClientLoop, ServerLoop, Sound, Asking, Failing,
        ByteBuffer.Valid, ClientReply, ParseUpstreamGreetingReply, ParseUpstreamAuthReply,
        ParseUpstreamCommandReply, Shape, Snap, Caused, Blamed, Now, Command, AuthFrame, FailWire;
      ServerHas();
      Distinct();
      ChoiceFacts();
      NotBlamed();
      more, end := false, Open;
      match ParseUpstreamGreetingReply(hs.data[..], hs.Position())
      case NeedMore =>
      case Bad =>
        end := FailUpstream();
      case Ok(choice, n) =>
        more, end := TakeChoice(choice, n);
        NotBlamed();
    }

    /** Blame is settled by what has been seen; one more fault only adds to it. */
    lemma StillBlamed(before: bool)
      requires BlamedBy(before) && (before ==> net.faulty)
      ensures Blamed()
    {
      hide Asks, Serves;
    }

    lemma BlameIs()
      requires Blamed()
      ensures BlamedBy(net.faulty)
    {
    }

    lemma NotBlamed()
      ensures !closeAfterFlush ==> Blamed()
    {
    }

    method TakeChoice(choice: Byte, n: nat) returns (more: bool, end: End)
      requires Shape() && ServerLoop(cfg, Snap()) && phase.UpstreamGreeting? && !closeAfterFlush
      requires ParseUpstreamGreetingReply(hs.content, |hs.content|) == Ok(choice, n)
      modifies hs`pos, hs`content, hs.data, toRemote`pos, toRemote`content, toRemote.data, this`phase
      ensures Shape() && Sound(cfg, Snap())
      ensures more ==> ServerLoop(cfg, Snap()) && end.Open? && Rank(phase) < old(Rank(phase)) && !phase.Relay?
      ensures !more ==> end == Closed(Cause.Crashed) && Caused(Cause.Crashed, net.at)
      ensures Answered(more, end, old(NextReply()))
    {
      hide ClientRun, ServerRun, Asks, Serves, Tracks, ClientLoop, ServerLoop, Sound, Asking, Failing,
        ByteBuffer.Valid, ClientReply, ParseUpstreamGreetingReply, ParseUpstreamAuthReply,
        ParseUpstreamCommandReply, Shape, Snap, Caused, Blamed, Now, Command, AuthFrame, ServerMessage;
      ghost var s := Snap();
      SnapIs();
      Distinct();
      ServerHas();
      ChoiceMeans(cfg, s.request, hs.content);
      ChoiceMessage(cfg, net.script, Wish(), OrEmpty(earlyData), hs.content, Now(Open), choice, n);
      Eat(n);
      if choice == 2 {
        more := SendLogin(s, n);
        NowIs(Open);
        end := if more then Open else Closed(Cause.Crashed);
      } else {
        SendCommand(s, n);
        more, end := true, Open;
      }
    }

    static lemma CommandSize(r: Request)
      requires RequestOk(r)
      ensures |Command(r, 0)| <= 1000
    {
    }

    static lemma FrameSize(l: Login)
      ensures AuthFrame(l).Some? ==> |AuthFrame(l).value| <= 1000
    {
    }

    /** The answer to an accepted reply, and the phase that waits for the next one. */
    method SendFrame(f: seq<Byte>, next: Phase, ghost s: State, ghost n: nat)
      requires Shape() && ServerLoop(cfg, s) && n <= |s.hs| && Snap() == s.(hs := s.hs[n..])
      requires UpstreamPhase(next) && |f| <= 1000
      requires ServerRun(cfg, s.request, s.phase, s.hs) == ServerRun(cfg, s.request, next, s.hs[n..]).After(f)
      modifies toRemote`pos, toRemote`content, toRemote.data, this`phase
      ensures Shape() && Sound(cfg, Snap()) && ServerLoop(cfg, Snap()) && phase == next
      ensures Now(Open) == old(Now(Open)).SayUp(f) && hs.content == old(hs.content)
    {
      hide ClientRun, ServerRun, Asks, Serves, Tracks, ServerLoop, Sound, Asking, Failing, ByteBuffer.Valid;
      ServerRoom(cfg, s);
      assert |toRemote.content| <= |s.toRemote|;
      TellRemote(f);
      phase := next;
      ServerSteps(cfg, s, f, next, n);
      ServerLoopSound(cfg, Snap());
    }

    /** The request, as the server is told it. */
    method SendCommand(ghost s: State, ghost n: nat)
      requires Shape() && ServerLoop(cfg, s) && n <= |s.hs| && Snap() == s.(hs := s.hs[n..])
      requires s.request == Wish() && RequestOk(Wish())
      requires ServerRun(cfg, s.request, s.phase, s.hs)
        == ServerRun(cfg, s.request, Phase.UpstreamCommand, s.hs[n..]).After(Command(s.request, 0))
      modifies toRemote`pos, toRemote`content, toRemote.data, this`phase
      ensures Shape() && Sound(cfg, Snap()) && ServerLoop(cfg, Snap()) && phase.UpstreamCommand?
      ensures Now(Open) == old(Now(Open)).SayUp(Command(Wish(), 0)) && hs.content == old(hs.content)
    {
      hide ClientRun, ServerRun, Asks, Serves, Tracks, ClientLoop, ServerLoop, Sound, Asking, Failing,
        ByteBuffer.Valid, ClientReply, ParseUpstreamGreetingReply, ParseUpstreamAuthReply,
        ParseUpstreamCommandReply, Shape, Snap, Caused, Blamed, Now, Command, AuthFrame, FailWire;
      CommandSize(Wish());
      var f := SocksProtocol.UpstreamCommand(cmd, rawAddr, portBytes);
      SendFrame(f, Phase.UpstreamCommand, s, n);
    }

    /** The login, unless it is too long to be told. */
    method SendLogin(ghost s: State, ghost n: nat) returns (ok: bool)
      requires Shape() && ServerLoop(cfg, s) && n <= |s.hs| && Snap() == s.(hs := s.hs[n..])
      requires AuthFrame(cfg.Upstream()).Some? ==>
        ServerRun(cfg, s.request, s.phase, s.hs)
        == ServerRun(cfg, s.request, Phase.UpstreamAuth, s.hs[n..]).After(AuthFrame(cfg.Upstream()).value)
      modifies toRemote`pos, toRemote`content, toRemote.data, this`phase
      ensures ok == AuthFrame(cfg.Upstream()).Some? && hs.content == old(hs.content)
      ensures if ok then
          && Shape() && Sound(cfg, Snap()) && ServerLoop(cfg, Snap()) && phase.UpstreamAuth?
          && Now(Open) == old(Now(Open)).SayUp(AuthFrame(cfg.Upstream()).value)
        else Shape() && Snap() == old(Snap()) && Now(Open) == old(Now(Open)) && phase == old(phase)
    {
      hide ClientRun, ServerRun, Asks, Serves, Tracks, ClientLoop, ServerLoop, Sound, Asking, Failing,
        ByteBuffer.Valid, ClientReply, ParseUpstreamGreetingReply, ParseUpstreamAuthReply,
        ParseUpstreamCommandReply, Shape, Snap, Caused, Blamed, Now, Command, AuthFrame, FailWire;
      Distinct();
      FrameSize(cfg.Upstream());
      var f := SocksProtocol.UpstreamAuth(cfg.Upstream());
      ok := f.Some?;
      if ok {
        SendFrame(f.value, Phase.UpstreamAuth, s, n);
      }
    }

    lemma LoginReplyFacts()
      requires Shape() && ServerLoop(cfg, Snap()) && phase.UpstreamAuth?
      ensures
        var p := ParseUpstreamAuthReply(hs.content, |hs.content|);
        && hs.Position() == |hs.content| && p == ParseUpstreamAuthReply(hs.data[..], hs.Position())
        && Sound(cfg, Snap()) && !closeAfterFlush
        && (p.NeedMore? ==> Tracks(cfg, Snap()))
        && (p.Bad? ==>
             && Asking(cfg, Snap()) && Failing(cfg, Snap())
             && Asks(cfg, clientGot).Asked? && Serves(cfg, clientGot, remoteGot).Failed?)
    {
      hide ClientRun, ServerRun, Asks, Serves, Tracks, ServerLoop, Sound, Asking, Failing, ByteBuffer.Valid;
      hide ParseUpstreamAuthReply;
      Seen();
      LoginReplyMeans(cfg, Snap().request, hs.content);
      ServerRoom(cfg, Snap());
      ServerLoopSound(cfg, Snap());
      if ParseUpstreamAuthReply(hs.content, |hs.content|).NeedMore? {
        ServerWaits(cfg, Snap());
      } else if ParseUpstreamAuthReply(hs.content, |hs.content|).Bad? {
        ServerFails(cfg, Snap());
      }
    }

    method LoginReplyStep() returns (more: bool, end: End)
      requires Shape() && ServerLoop(cfg, Snap()) && phase.UpstreamAuth?
      modifies net`at, net`faulty, hs`pos, hs`content, hs.data, toClient`pos, toClient`content, toClient.data,
        this`clientSent
      modifies toRemote`pos, toRemote`content, toRemote.data
      modifies this`phase, this`closeAfterFlush, this`hasRemote
      ensures Shape() && Sound(cfg, Snap())
      ensures end.Open? ==> InServerLoop(cfg, more, Snap()) && Blamed() && !phase.Relay?
      ensures more ==> end.Open? && Rank(phase) < old(Rank(phase))
      ensures net.at >= old(net.at) && (end.Closed? ==> end.why != Done && Caused(end.why, old(net.at)))
      ensures Answered(more, end, old(NextReply()))
    {
      hide ClientRun, ServerRun, Asks, Serves, Tracks, ClientLoop, ServerLoop, Sound, Asking, Failing,
        ByteBuffer.Valid, ClientReply, ParseUpstreamGreetingReply, ParseUpstreamAuthReply,
        ParseUpstreamCommandReply, Shape, Snap, Caused, Blamed, Now, Command, AuthFrame, FailWire;
      ServerHas();
      Distinct();
      LoginReplyFacts();
      NotBlamed();
      more, end := false, Open;
      match ParseUpstreamAuthReply(hs.data[..], hs.Position())
      case NeedMore =>
      case Bad =>
        end := FailUpstream();
      case Ok(_, n) =>
        TakeLoginReply(n);
        more := true;
    }

    method TakeLoginReply(n: nat)
      requires Shape() && ServerLoop(cfg, Snap()) && phase.UpstreamAuth?
      requires ParseUpstreamAuthReply(hs.content, |hs.content|).Ok?
      requires ParseUpstreamAuthReply(hs.content, |hs.content|).consumed == n
      modifies hs`pos, hs`content, hs.data, toRemote`pos, toRemote`content, toRemote.data, this`phase
      ensures Shape() && Sound(cfg, Snap()) && ServerLoop(cfg, Snap()) && phase.UpstreamCommand?
      ensures Answered(true, Open, old(NextReply()))
    {
      hide ClientRun, ServerRun, Asks, Serves, Tracks, ClientLoop, ServerLoop, Sound, Asking, Failing,
        ByteBuffer.Valid, ClientReply, ParseUpstreamGreetingReply, ParseUpstreamAuthReply,
        ParseUpstreamCommandReply, Shape, Snap, Caused, Blamed, Now, Command, AuthFrame, FailWire;
      ghost var s := Snap();
      SnapIs();
      Distinct();
      ServerHas();
      LoginReplyMeans(cfg, s.request, hs.content);
      Eat(n);
      SendCommand(s, n);
    }

    lemma CommandReplyFacts()
      requires Shape() && ServerLoop(cfg, Snap()) && phase.UpstreamCommand?
      ensures
        var p := ParseUpstreamCommandReply(hs.content, |hs.content|);
        && hs.Position() == |hs.content| && p == ParseUpstreamCommandReply(hs.data[..], hs.Position())
        && Sound(cfg, Snap()) && !closeAfterFlush
        && (p.NeedMore? ==> Tracks(cfg, Snap()))
        && (p.Bad? ==>
             && Asking(cfg, Snap()) && Failing(cfg, Snap())
             && Asks(cfg, clientGot).Asked? && Serves(cfg, clientGot, remoteGot).Failed?)
    {
      hide ClientRun, ServerRun, Asks, Serves, Tracks, ServerLoop, Sound, Asking, Failing, ByteBuffer.Valid;
      hide ParseUpstreamCommandReply;
      Seen();
      CommandReplyMeans(cfg, Snap().request, hs.content);
      ServerRoom(cfg, Snap());
      ServerLoopSound(cfg, Snap());
      if ParseUpstreamCommandReply(hs.content, |hs.content|).NeedMore? {
        ServerWaits(cfg, Snap());
      } else if ParseUpstreamCommandReply(hs.content, |hs.content|).Bad? {
        ServerFails(cfg, Snap());
      }
    }

    method CommandReplyStep() returns (end: End)
      requires Shape() && ServerLoop(cfg, Snap()) && phase.UpstreamCommand?
      modifies net`at, net`faulty, hs`pos, hs`content, hs.data, toClient`pos, toClient`content, toClient.data,
        this`clientSent
      modifies toRemote`pos, toRemote`content, toRemote.data
      modifies this`phase, this`closeAfterFlush, this`hasRemote, this`earlyData
      ensures Shape() && Sound(cfg, Snap())
      ensures end.Open? ==> Tracks(cfg, Snap()) && Blamed()
      ensures phase.Relay? ==> !closeAfterFlush
      ensures net.at >= old(net.at) && (end.Closed? ==> end.why != Done && Caused(end.why, old(net.at)))
      ensures Answered(false, end, old(NextReply()))
    {
      hide ClientRun, ServerRun, Asks, Serves, Tracks, ClientLoop, ServerLoop, Sound, Asking, Failing,
        ByteBuffer.Valid, ClientReply, ParseUpstreamGreetingReply, ParseUpstreamAuthReply,
        ParseUpstreamCommandReply, Shape, Snap, Caused, Blamed, Now, Command, AuthFrame, FailWire;
      ServerHas();
      Distinct();
      CommandReplyFacts();
      NotBlamed();
      end := Open;
      match ParseUpstreamCommandReply(hs.data[..], hs.Position())
      case NeedMore =>
      case Bad =>
        end := FailUpstream();
      case Ok(_, n) =>
        BeginRelay(n);
        NotBlamed();
    }

    /** The client is told, and the reply is done with. */
    method Grant(n: nat)
      requires Shape() && n <= |hs.content| && |toClient.content| <= 14
      modifies hs`pos, hs`content, hs.data, toClient`pos, toClient`content, toClient.data
      ensures Shape() && |toClient.content| <= 24 && hs.content == old(hs.content)[n..]
      ensures Snap() == old(Snap()).(hs := hs.content, toClient := old(Snap()).toClient + ClientReply(0))
      ensures Now(Open) == old(Now(Open)).SayDown(ClientReply(0))
    {
      hide ByteBuffer.Valid, Net.Valid, ClientReply;
      Distinct();
      Eat(n);
      TellClient(ClientReply(0));
    }

    /** Early bytes of the client go to the server. */
    method ReleaseEarly()
      requires Shape() && |toRemote.content| + |OrEmpty(earlyData)| <= RELAY_BUF
      modifies toRemote`pos, toRemote`content, toRemote.data, this`earlyData
      ensures Shape()
      ensures Snap() == old(Snap()).(early := [], toRemote := old(Snap()).toRemote + old(OrEmpty(earlyData)))
      ensures Now(Open) == old(Now(Open)).SayUp(old(OrEmpty(earlyData)))
    {
      hide ByteBuffer.Valid, Net.Valid, Shape;
      assert Snap().toRemote + [] == Snap().toRemote && toRemote.content + [] == toRemote.content;
      if earlyData.Some? {
        TellRemote(earlyData.value);
      }
      earlyData := None;
    }

    /** What followed the server's reply goes to the client. */
    method ReleaseRest()
      requires Shape() && |toClient.content| + |hs.content| <= RELAY_BUF
      modifies hs`pos, hs`content, toClient`pos, toClient`content, toClient.data, this`phase
      ensures Shape() && phase.Relay?
      ensures Snap()
        == old(Snap()).(hs := [], phase := Phase.Relay, toClient := old(Snap()).toClient + old(hs.content))
      ensures Now(Open) == old(Now(Open)).SayDown(old(hs.content))
    {
      hide ByteBuffer.Valid, Net.Valid, Shape;
      Distinct();
      assert Snap().toClient + [] == Snap().toClient && toClient.content + [] == toClient.content;
      if hs.Position() > 0 {
        TellClient(hs.Copy());
        ClearHs();
      }
      phase := Phase.Relay;
    }

    /** What was held back goes on its way. */
    method Release(n: nat)
      requires Shape() && n <= |hs.content| <= HS_BUF && |OrEmpty(earlyData)| <= HS_BUF
      requires |toClient.content| <= 14 && |toRemote.content| <= 778
      modifies hs`pos, hs`content, hs.data, toClient`pos, toClient`content, toClient.data
      modifies toRemote`pos, toRemote`content, toRemote.data
      modifies this`phase, this`earlyData
      ensures Shape() && phase.Relay?
      ensures
        var s, rest := old(Snap()), old(hs.content)[n..];
        && Snap() == s.(hs := [], phase := Phase.Relay, early := [],
             toClient := s.toClient + ClientReply(0) + rest, toRemote := s.toRemote + s.early)
        && Now(Open) == old(Now(Open)).SayDown(ClientReply(0) + rest).SayUp(s.early)
    {
      hide ByteBuffer.Valid, ClientReply, Net.Valid, Snap, Now, Shape, OrEmpty, Wire.SayUp, Wire.SayDown;
      Distinct();
      ghost var s, w := Snap(), Now(Open);
      SnapIs();
      Grant(n);
      SayMore(w, ClientReply(0), hs.content, s.early);
      ReleaseEarly();
      ReleaseRest();
    }

    /** The server has granted the request. */
    method BeginRelay(n: nat)
      requires Shape() && ServerLoop(cfg, Snap()) && phase.UpstreamCommand?
      requires ParseUpstreamCommandReply(hs.content, |hs.content|).Ok?
      requires ParseUpstreamCommandReply(hs.content, |hs.content|).consumed == n
      modifies hs`pos, hs`content, hs.data, toClient`pos, toClient`content, toClient.data
      modifies toRemote`pos, toRemote`content, toRemote.data
      modifies this`phase, this`earlyData
      ensures Shape() && Sound(cfg, Snap()) && Tracks(cfg, Snap()) && phase.Relay? && !closeAfterFlush
      ensures Answered(false, Open, old(NextReply()))
    {
      hide ClientRun, ServerRun, Asks, Serves, Tracks, ClientLoop, ServerLoop, Sound, Asking, Failing,
        ByteBuffer.Valid, ClientReply, ParseUpstreamGreetingReply, ParseUpstreamAuthReply,
        ParseUpstreamCommandReply, Shape, Snap, Caused, Blamed, Now, Command, AuthFrame, FailWire;
      ghost var s := Snap();
      SnapIs();
      Distinct();
      ServerHas();
      CommandReplyMeans(cfg, s.request, hs.content);
      Release(n);
      RelayBegins(cfg, s, n);
      SnapIs();
      TracksSound(cfg, Snap());
      OpenUpstream();
    }

    /** A reply of the server, if one is complete. */
    method ServerStep() returns (more: bool, end: End)
      requires Shape() && ServerLoop(cfg, Snap())
      modifies net`at, net`faulty, hs`pos, hs`content, hs.data, toClient`pos, toClient`content, toClient.data,
        this`clientSent
      modifies toRemote`pos, toRemote`content, toRemote.data
      modifies this`phase, this`closeAfterFlush, this`hasRemote, this`earlyData
      ensures Shape() && Sound(cfg, Snap())
      ensures end.Open? ==> InServerLoop(cfg, more, Snap()) && Blamed()
      ensures more ==> end.Open? && Rank(phase) < old(Rank(phase)) && earlyData == old(earlyData)
      ensures net.at >= old(net.at) && (end.Closed? ==> end.why != Done && Caused(end.why, old(net.at)))
      ensures end.Open? && phase.Relay? ==> !closeAfterFlush && !more
      ensures Answered(more, end, old(NextReply()))
    {
      hide ClientRun, ServerRun, Asks, Serves, Tracks, ClientLoop, ServerLoop, Sound, Asking, Failing,
        ByteBuffer.Valid, ClientReply;
      hide Shape, Snap, Caused, Blamed, Now, ServerMessage, Answered;
      ServerHas();
      match phase {
        case UpstreamGreeting => more, end := ChoiceStep();
        case UpstreamAuth => more, end := LoginReplyStep();
        case UpstreamCommand =>
          end := CommandReplyStep();
          more := false;
      }
    }

    /** flush towards the server. */
    method FlushRemote(ghost from: nat) returns (end: End)
      requires Shape() && Blamed() && from <= net.at
      modifies net`at, net`faulty, toRemote`pos, toRemote`content, toRemote.data, this`remoteSent
      ensures Shape() && Snap() == old(Snap()) && Blamed() && net.at >= old(net.at)
      ensures end == Open || (end == Closed(Broke) && Caused(Broke, from))
      ensures Now(end) == FlushUp(net.script, old(Now(Open)))
    {
      hide Asks, ByteBuffer.Valid, Snap, Shape, Now, Caused, Blamed, BlamedBy, FlushUp;
      Distinct();
      BlameIs();
      ghost var faulty := net.faulty;
      var w := DrainRemote();
      StillBlamed(faulty);
      CausedNow(from);
      end := if w.Threw? then Closed(Broke) else Open;
    }

    /** One turn of the parse loop, and what it sent upstream. */
    method ServerTurn() returns (more: bool, end: End)
      requires Shape() && ServerLoop(cfg, Snap())
      modifies net`at, net`faulty, hs`pos, hs`content, hs.data, toClient`pos, toClient`content, toClient.data,
        this`clientSent
      modifies toRemote`pos, toRemote`content, toRemote.data, this`remoteSent
      modifies this`phase, this`closeAfterFlush, this`hasRemote, this`lastActivityMs, this`earlyData
      ensures Shape() && Sound(cfg, Snap())
      ensures end.Open? ==> InServerLoop(cfg, more, Snap()) && Blamed()
      ensures more ==> Rank(phase) < old(Rank(phase)) && earlyData == old(earlyData)
      ensures net.at >= old(net.at) && (end.Closed? ==> end.why != Done && Caused(end.why, old(net.at)))
      ensures end.Open? && phase.Relay? ==> !closeAfterFlush && !more
      ensures old(AfterReplies())
        == if end.Closed? then Now(end)
           else if more then AfterReplies()
           else if phase.Relay? then RelayWire(net.script, Now(Open))
           else Now(Open)
    {
      hide ClientRun, ServerRun, Asks, Serves, Tracks, ClientLoop, ServerLoop, Sound, Asking, Failing,
        ByteBuffer.Valid, ClientReply;
      hide Shape, Snap, Caused, Blamed, BlamedBy, Now, ServerMessage, ServerWire, FlushUp, RelayWire, InServerLoop;
      Distinct();
      ServerGoes(cfg, net.script, Wish(), OrEmpty(earlyData), phase, hs.content, Now(Open));
      more, end := ServerStep();
      if end.Open? && hasRemote && !phase.Relay? {
        end := FlushRemote(old(net.at));
        NowIs(end);
      }
    }

    /** The parse loop of readUpstreamHandshake. */
    method ParseReplies() returns (end: End)
      requires Shape() && ServerLoop(cfg, Snap())
      modifies net`at, net`faulty, hs`pos, hs`content, hs.data, toClient`pos, toClient`content, toClient.data,
        this`clientSent
      modifies toRemote`pos, toRemote`content, toRemote.data, this`remoteSent
      modifies this`phase, this`closeAfterFlush, this`hasRemote, this`lastActivityMs, this`earlyData
      ensures Shape() && Sound(cfg, Snap())
      ensures end.Open? ==> Tracks(cfg, Snap()) && Blamed()
      ensures phase.Relay? && end.Open? ==> !closeAfterFlush
      ensures net.at >= old(net.at) && (end.Closed? ==> end.why != Done && Caused(end.why, old(net.at)))
      ensures old(AfterReplies())
        == if end.Open? && phase.Relay? then RelayWire(net.script, Now(Open)) else Now(end)
    {
      hide ClientRun, ServerRun, Asks, Serves, Tracks, ClientLoop, ServerLoop, Sound, Asking, Failing,
        ByteBuffer.Valid, ClientReply;
      hide Shape, Snap, Caused, Blamed, Now, AfterReplies, RelayWire;
      ServerHas();
      NotBlamed();
      var progressed := true;
      end := Open;
      while progressed
        invariant end.Open? && Shape() && InServerLoop(cfg, progressed, Snap()) && Blamed() && net.at >= old(net.at)
        invariant phase.Relay? ==> !closeAfterFlush && !progressed
        invariant old(AfterReplies())
          == if progressed then AfterReplies()
             else if phase.Relay? then RelayWire(net.script, Now(Open))
             else Now(Open)
        decreases progressed, Rank(phase)
      {
        ghost var since := net.at;
        progressed, end := ServerTurn();
        if !end.Open? {
          CausedSince(end.why, old(net.at), since);
          return;
        }
      }
      TracksSound(cfg, Snap());
    }

    /** The read of a server's handshake. */
    method HearRemote() returns (r: Io, ghost m: seq<Byte>)
      requires Shape()
      modifies net`at, net`faulty, hs`pos, hs`content, hs.data, this`remoteGot
      ensures Shape() && |hs.content| <= HS_BUF && net.at >= old(net.at)
      ensures Snap() == old(Snap()).(hs := old(hs.content) + m, remoteGot := old(remoteGot) + m)
      ensures hs.content == old(hs.content) + m && remoteGot == old(remoteGot) + m
      ensures !r.Moved? ==> Snap() == old(Snap())
      ensures
        var o, w := old(net.Next()), old(Now(Open));
        if |old(hs.content)| >= HS_BUF then
          r == Moved(0) && hs.content == old(hs.content) && Now(Open) == w && net.at == old(net.at)
        else
          && m == Arriving(o, HS_BUF - |old(hs.content)|) && Now(Broken(r.Threw?)) == HearDown(net.script, w, m)
          && r == (if o.Throws? then Threw else if o.Ends? then Eof else Moved(|m|))
          && net.at == After(net.script, old(net.at))
      ensures r.Threw? ==> net.at > old(net.at) && net.Last(Throws)
      ensures r.Eof? ==> net.at > old(net.at) && net.Last(Outcome.Ends)
      ensures net.faulty == (old(net.faulty) || r.Threw? || r.Eof?)
    {
      hide ByteBuffer.Valid, Arriving;
      r, m := ReadRemote(hs);
      assert |hs.content| <= HS_BUF by {
        assert hs.Position() <= HS_BUF;
      }
    }

    /** What has just arrived is parsed. */
    method Heed(some: bool, ghost s: State, ghost m: seq<Byte>, ghost from: nat) returns (end: End)
      requires Shape() && Tracks(cfg, s) && UpstreamPhase(s.phase) && !s.closing && |s.hs + m| <= HS_BUF
      requires Snap() == s.(hs := s.hs + m, remoteGot := s.remoteGot + m) && from <= net.at
      modifies net`at, net`faulty, hs`pos, hs`content, hs.data, toClient`pos, toClient`content, toClient.data,
        this`clientSent
      modifies toRemote`pos, toRemote`content, toRemote.data, this`remoteSent
      modifies this`phase, this`closeAfterFlush, this`hasRemote, this`lastActivityMs, this`earlyData
      ensures Shape() && Sound(cfg, Snap())
      ensures end.Open? ==> Tracks(cfg, Snap()) && Blamed()
      ensures phase.Relay? && end.Open? ==> !closeAfterFlush
      ensures net.at >= old(net.at) && (end.Closed? ==> end.why != Done && Caused(end.why, from))
      ensures old(AfterReplies())
        == if end.Open? && phase.Relay? then RelayWire(net.script, Now(Open)) else Now(end)
    {
      hide ClientRun, ServerRun, Asks, Serves, Tracks, ClientLoop, ServerLoop, Sound, Asking, Failing,
        ByteBuffer.Valid, ClientReply;
      hide Shape, Snap, Now, Caused, Blamed, BlamedBy, AfterReplies, RelayWire;
      Distinct();
      ServerArrives(cfg, s, m);
      if some {
        Touch();
      }
      ghost var since := net.at;
      end := ParseReplies();
      if end.Closed? {
        CausedSince(end.why, from, since);
      }
    }

    /** The read and the parse loop of readUpstreamHandshake. */
    method HearServer() returns (end: End)
      requires Shape() && Tracks(cfg, Snap()) && UpstreamPhase(phase) && !closeAfterFlush
      modifies net`at, net`faulty, hs`pos, hs`content, hs.data, toClient`pos, toClient`content, toClient.data,
        this`clientSent
      modifies toRemote`pos, toRemote`content, toRemote.data, this`remoteSent
      modifies this`phase, this`closeAfterFlush, this`hasRemote, this`lastActivityMs, this`earlyData
      modifies this`remoteGot
      ensures Shape() && Sound(cfg, Snap())
      ensures end.Open? ==> Tracks(cfg, Snap()) && Blamed()
      ensures phase.Relay? && end.Open? ==> !closeAfterFlush
      ensures net.at >= old(net.at) && (end.Closed? ==> end.why != Done && Caused(end.why, old(net.at)))
      ensures old(|hs.content|) < HS_BUF ==>
        remoteGot == old(remoteGot) + Arriving(old(net.Next()), HS_BUF - |old(hs.content)|)
      ensures old(AfterHearing())
        == if end.Open? && phase.Relay? then RelayWire(net.script, Now(Open)) else Now(end)
    {
      hide ClientRun, ServerRun, Asks, Serves, Tracks, ClientLoop, ServerLoop, Sound, Asking, Failing,
        ByteBuffer.Valid, ClientReply;
      hide Shape, Snap, Now, Caused, Blamed, BlamedBy, Arriving, ServerWire, RelayWire, FailWire, HearDown;
      ghost var s := Snap();
      SnapIs();
      NowIs(Open);
      Distinct();
      TracksSound(cfg, s);
      var n, m := HearRemote();
      if n.Threw? {
        CausedNow(old(net.at));
        return Closed(Broke);
      }
      if n.Eof? {
        end := GiveUp(old(net.at));
        return;
      }
      end := Heed(n.n > 0, s, m, old(net.at));
    }

    /** readUpstreamHandshake; the first pass of the relay follows at once. */
    method ReadUpstreamHandshake() returns (end: End)
      requires Shape() && Tracks(cfg, Snap()) && UpstreamPhase(phase) && !closeAfterFlush && Ends()
      modifies net`at, net`faulty, hs`pos, hs`content, hs.data, toClient`pos, toClient`content, toClient.data,
        this`clientSent
      modifies toRemote`pos, toRemote`content, toRemote.data, this`remoteSent
      modifies this`phase, this`closeAfterFlush, this`hasRemote, this`lastActivityMs, this`earlyData
      modifies this`clientGot, this`remoteGot
      modifies this`clientEof, this`remoteEof, this`halfClosedAtMs, this`clientShut, this`remoteShut,
        counters`halfClosedClients
      ensures Shape() && Sound(cfg, Snap())
      ensures end.Open? ==> Tracks(cfg, Snap()) && Blamed() && Ends()
      ensures net.at >= old(net.at) && (end.Closed? ==> Caused(end.why, old(net.at)))
      ensures halfClosedAtMs >= 0
      ensures counters.halfClosedClients == old(counters.halfClosedClients) + Half(halfClosedAtMs)
      ensures Now(end) == old(AfterHearing())
    {
      hide ClientRun, ServerRun, Asks, Serves, Tracks, ClientLoop, ServerLoop, Sound, Asking, Failing,
        ByteBuffer.Valid, ClientReply;
      hide Complete, Snap, Shape, AfterHearing, RelayWire, Now, Caused, Blamed, Ends;
      Distinct();
      IdleEnds();
      end := HearServer();
      EndsIdle();
      if end.Open? && phase.Relay? {
        ghost var since := net.at;
        end := RelayTurn();
        TracksSound(cfg, Snap());
        if end.Closed? {
          CausedSince(end.why, old(net.at), since);
        }
      }
    }

    // ---- the relay ----

    static function Half(halfClosedAtMs: int): int {
      if halfClosedAtMs > 0 then 1 else 0
    }

    /** Both streams are over and all that was owed to either peer has been written. */
    ghost predicate Complete()
      reads this
    {
      && clientEof && remoteEof
      && clientSent == ClientStream(cfg, clientGot, remoteGot)
      && remoteSent == RemoteStream(cfg, clientGot, remoteGot)
    }

    lemma SnapIs()
      ensures Snap().phase == phase && Snap().closing == closeAfterFlush && Snap().hs == hs.content
      ensures Snap().early == OrEmpty(earlyData) && Snap().request == Wish()
      ensures Snap().clientGot == clientGot && Snap().remoteGot == remoteGot
    {
    }

    /** Client to server: a read into the relay's buffer. */
    method FillUp() returns (r: Io, ghost m: seq<Byte>)
      requires Shape() && !clientEof && |toRemote.content| < RELAY_BUF
      modifies net`at, net`faulty, this`clientGot, toRemote`pos, toRemote`content, toRemote.data
      ensures Shape() && net.at >= old(net.at) && (r.Threw? ==> net.at > old(net.at) && net.Last(Throws))
      ensures Snap() == old(Snap()).(clientGot := old(clientGot) + m, toRemote := old(Snap()).toRemote + m)
      ensures
        var w := old(Now(Open));
        Now(Broken(r.Threw?)).(up := Now(Open).up.(ended := r.Eof?)) == w.WithUp(Fill(net.script, w.Up()))
    {
      hide ByteBuffer.Valid, Arriving;
      r, m := ReadClient(toRemote);
    }

    method TakeFromClient() returns (progress: bool, ok: bool)
      requires Shape() && Tracks(cfg, Snap()) && phase.Relay? && !closeAfterFlush && halfClosedAtMs >= 0
      modifies net`at, net`faulty, this`clientGot, toRemote`pos, toRemote`content, toRemote.data
      modifies this`clientEof, this`halfClosedAtMs, counters`halfClosedClients
      ensures Shape() && Tracks(cfg, Snap())
      ensures net.at >= old(net.at) && (!ok ==> net.at > old(net.at) && net.Last(Throws))
      ensures
        var w := old(Now(Open));
        Now(Broken(!ok)) == w.WithUp(Fill(net.script, w.Up()))
      ensures halfClosedAtMs > 0 <==> old(halfClosedAtMs) > 0 || (clientEof && !old(clientEof))
      ensures halfClosedAtMs >= 0 && (old(clientEof) ==> clientEof && toRemote.content == old(toRemote.content))
      ensures counters.halfClosedClients
        == old(counters.halfClosedClients) + Half(halfClosedAtMs) - old(Half(halfClosedAtMs))
    {
      hide Asks, Serves, Tracks, ByteBuffer.Valid, Fill, Snap, Shape, ClientStream, RemoteStream, Apart, Net.Last;
      Distinct();
      progress, ok := false, true;
      ghost var w := Now(Open);
      FillStops(net.script, w.Up());
      if !clientEof && toRemote.Remaining() > 0 {
        ghost var s := Snap();
        SnapIs();
        var n, m := FillUp();
        BridgeSpec.Upload(cfg, s, m);
        if n.Threw? {
          return false, false;
        }
        if n.Eof? {
          clientEof := true;
          MarkHalfClosed();
        } else if n.n > 0 {
          progress := true;
        }
      }
    }

    /** Then what the server takes is written. */
    method Upload() returns (progress: bool, ok: bool)
      requires Shape() && Tracks(cfg, Snap()) && phase.Relay? && !closeAfterFlush && halfClosedAtMs >= 0
      modifies net`at, net`faulty, this`clientGot, toRemote`pos, toRemote`content, toRemote.data, this`remoteSent
      modifies this`clientEof, this`halfClosedAtMs, counters`halfClosedClients
      ensures Shape() && Tracks(cfg, Snap())
      ensures net.at >= old(net.at) && (!ok ==> net.at > old(net.at) && net.Last(Throws))
      ensures
        var w := old(Now(Open));
        Now(Broken(!ok)) == w.WithUp(Carry(net.script, w.Up()))
      ensures old(clientEof) ==> clientEof && (old(toRemote.content) == [] ==> toRemote.content == [])
      ensures halfClosedAtMs > 0 <==> old(halfClosedAtMs) > 0 || (clientEof && !old(clientEof))
      ensures halfClosedAtMs >= 0
      ensures counters.halfClosedClients
        == old(counters.halfClosedClients) + Half(halfClosedAtMs) - old(Half(halfClosedAtMs))
    {
      hide Tracks, ByteBuffer.Valid, Snap, Shape, Fill, Flush;
      Distinct();
      progress, ok := TakeFromClient();
      FlushStops(net.script, Now(Broken(!ok)).Up());
      if !ok {
        return;
      }
      var w := DrainRemote();
      if w.Threw? {
        return progress, false;
      }
      progress := progress || w.n > 0;
    }

    /** Server to client: a read into the relay's buffer. */
    method FillDown() returns (r: Io, ghost m: seq<Byte>)
      requires Shape() && !remoteEof && |toClient.content| < RELAY_BUF
      modifies net`at, net`faulty, this`remoteGot, toClient`pos, toClient`content, toClient.data
      ensures Shape() && net.at >= old(net.at) && (r.Threw? ==> net.at > old(net.at) && net.Last(Throws))
      ensures Snap() == old(Snap()).(remoteGot := old(remoteGot) + m, toClient := old(Snap()).toClient + m)
      ensures
        var w := old(Now(Open));
        Now(Broken(r.Threw?)).(down := Now(Open).down.(ended := r.Eof?)) == w.WithDown(Fill(net.script, w.Down()))
    {
      hide ByteBuffer.Valid, Arriving;
      r, m := ReadRemote(toClient);
    }

    method TakeFromRemote() returns (progress: bool, ok: bool)
      requires Shape() && Tracks(cfg, Snap()) && phase.Relay? && !closeAfterFlush && halfClosedAtMs >= 0
      modifies net`at, net`faulty, this`remoteGot, toClient`pos, toClient`content, toClient.data
      modifies this`remoteEof, this`halfClosedAtMs, counters`halfClosedClients
      ensures Shape() && Tracks(cfg, Snap())
      ensures net.at >= old(net.at) && (!ok ==> net.at > old(net.at) && net.Last(Throws))
      ensures
        var w := old(Now(Open));
        Now(Broken(!ok)) == w.WithDown(Fill(net.script, w.Down()))
      ensures halfClosedAtMs > 0 <==> old(halfClosedAtMs) > 0 || (remoteEof && !old(remoteEof))
      ensures halfClosedAtMs >= 0 && (old(remoteEof) ==> remoteEof && toClient.content == old(toClient.content))
      ensures counters.halfClosedClients
        == old(counters.halfClosedClients) + Half(halfClosedAtMs) - old(Half(halfClosedAtMs))
    {
      hide Asks, Serves, Tracks, ByteBuffer.Valid, Fill, Snap, Shape, ClientStream, RemoteStream, Apart, Net.Last;
      Distinct();
      progress, ok := false, true;
      ghost var w := Now(Open);
      FillStops(net.script, w.Down());
      if !remoteEof && toClient.Remaining() > 0 {
        ghost var s := Snap();
        SnapIs();
        var n, m := FillDown();
        BridgeSpec.Download(cfg, s, m);
        if n.Threw? {
          return false, false;
        }
        if n.Eof? {
          remoteEof := true;
          MarkHalfClosed();
        } else if n.n > 0 {
          progress := true;
        }
      }
    }

    /** Then what the client takes is written. */
    method Download() returns (progress: bool, ok: bool)
      requires Shape() && Tracks(cfg, Snap()) && phase.Relay? && !closeAfterFlush && halfClosedAtMs >= 0
      modifies net`at, net`faulty, this`remoteGot, toClient`pos, toClient`content, toClient.data, this`clientSent
      modifies this`remoteEof, this`halfClosedAtMs, counters`halfClosedClients
      ensures Shape() && Tracks(cfg, Snap())
      ensures net.at >= old(net.at) && (!ok ==> net.at > old(net.at) && net.Last(Throws))
      ensures
        var w := old(Now(Open));
        Now(Broken(!ok)) == w.WithDown(Carry(net.script, w.Down()))
      ensures old(remoteEof) ==> remoteEof && (old(toClient.content) == [] ==> toClient.content == [])
      ensures halfClosedAtMs > 0 <==> old(halfClosedAtMs) > 0 || (remoteEof && !old(remoteEof))
      ensures halfClosedAtMs >= 0
      ensures counters.halfClosedClients
        == old(counters.halfClosedClients) + Half(halfClosedAtMs) - old(Half(halfClosedAtMs))
    {
      hide Tracks, ByteBuffer.Valid, Snap, Shape, Fill, Flush;
      Distinct();
      progress, ok := TakeFromRemote();
      FlushStops(net.script, Now(Broken(!ok)).Down());
      if !ok {
        return;
      }
      var w := DrainClient();
      if w.Threw? {
        return progress, false;
      }
      progress := progress || w.n > 0;
    }

    /** An end goes on to the other peer once everything before it has been written. */
    method PassOn() returns (end: End)
      requires Shape() && Tracks(cfg, Snap()) && phase.Relay? && !closeAfterFlush
      modifies this`clientShut, this`remoteShut
      ensures remoteShut <==> old(remoteShut) || (clientEof && toRemote.content == [])
      ensures clientShut <==> old(clientShut) || (remoteEof && toClient.content == [])
      ensures remoteShut && !old(remoteShut) ==> remoteSent == RemoteStream(cfg, clientGot, remoteGot)
      ensures clientShut && !old(clientShut) ==> clientSent == ClientStream(cfg, clientGot, remoteGot)
      ensures end == if clientEof && remoteEof && toRemote.content == [] && toClient.content == []
        then Closed(Done) else Open
      ensures end.Closed? ==> Complete()
      ensures var w := old(Now(Open));
        Now(end) == w.ClosedIf(w.up.ended && w.down.ended && w.up.waiting == [] && w.down.waiting == [], Done)
    {
      hide ClientRun, ServerRun, Asks, Serves, Tracks, ClientLoop, ServerLoop, Sound, Asking, Failing,
        ByteBuffer.Valid, ClientReply;
      RelayOwes(cfg, Snap());
      assert toRemote.content == [] ==> Snap().toRemote == remoteSent;
      assert toClient.content == [] ==> Snap().toClient == clientSent;
      if clientEof && toRemote.Position() == 0 {
        remoteShut := true;
      }
      if remoteEof && toClient.Position() == 0 {
        clientShut := true;
      }
      if clientEof && remoteEof && toRemote.Position() == 0 && toClient.Position() == 0 {
        return Closed(Done);
      }
      end := Open;
    }

    /** Both directions in turn. */
    method Pump() returns (ok: bool)
      requires Shape() && Tracks(cfg, Snap()) && phase.Relay? && !closeAfterFlush && halfClosedAtMs >= 0
      requires halfClosedAtMs > 0 <==> clientEof || remoteEof
      modifies net`at, net`faulty, this`clientGot, this`remoteGot
      modifies toClient`pos, toClient`content, toClient.data, this`clientSent
      modifies toRemote`pos, toRemote`content, toRemote.data, this`remoteSent
      modifies this`lastActivityMs, this`clientEof, this`remoteEof, this`halfClosedAtMs, counters`halfClosedClients
      ensures Shape() && Tracks(cfg, Snap())
      ensures net.at >= old(net.at) && (!ok ==> net.at > old(net.at) && net.Last(Throws))
      ensures old(clientEof && toRemote.content == []) ==> clientEof && toRemote.content == []
      ensures old(remoteEof && toClient.content == []) ==> remoteEof && toClient.content == []
      ensures halfClosedAtMs >= 0 && (halfClosedAtMs > 0 <==> clientEof || remoteEof)
      ensures counters.halfClosedClients
        == old(counters.halfClosedClients) + Half(halfClosedAtMs) - old(Half(halfClosedAtMs))
      ensures Now(Broken(!ok)) == CarryBoth(net.script, old(Now(Open)))
    {
      hide ClientRun, ServerRun, Asks, Serves, Tracks, ClientLoop, ServerLoop, Sound, Asking, Failing,
        ByteBuffer.Valid, ClientReply, Complete, Snap, Shape, Caused, Blamed, BlamedBy, Carry;
      Distinct();
      var up, down;
      ghost var w := Now(Open);
      up, ok := Upload();
      CarriesBoth(net.script, w, Now(Broken(!ok)));
      if !ok {
        return;
      }
      down, ok := Download();
      if !ok {
        return;
      }
      if up || down {
        Touch();
      }
    }

    /** relay: one pass in both directions, and the ends passed on. */
    method RelayTurn() returns (end: End)
      requires Shape() && Tracks(cfg, Snap()) && phase.Relay? && !closeAfterFlush && Ends()
      modifies net`at, net`faulty, this`clientGot, this`remoteGot
      modifies toClient`pos, toClient`content, toClient.data, this`clientSent
      modifies toRemote`pos, toRemote`content, toRemote.data, this`remoteSent
      modifies this`lastActivityMs, this`clientEof, this`remoteEof, this`halfClosedAtMs
      modifies this`clientShut, this`remoteShut, counters`halfClosedClients
      ensures Shape() && Tracks(cfg, Snap())
      ensures end.Open? ==> Ends() && Blamed()
      ensures net.at >= old(net.at) && (end.Closed? ==> Caused(end.why, old(net.at)))
      ensures halfClosedAtMs >= 0
      ensures counters.halfClosedClients
        == old(counters.halfClosedClients) + Half(halfClosedAtMs) - old(Half(halfClosedAtMs))
      ensures Now(end) == RelayWire(net.script, old(Now(Open)))
    {
      hide ClientRun, ServerRun, Asks, Serves, Tracks, ClientLoop, ServerLoop, Sound, Asking, Failing,
        ByteBuffer.Valid, ClientReply, Complete, Snap, Shape, Caused, Blamed, BlamedBy, RelayWire, CarryBoth, Now;
      Distinct();
      RelayOver(net.script, Now(Open));
      var ok := Pump();
      CausedNow(old(net.at));
      NowIs(Broken(!ok));
      if !ok {
        return Closed(Broke);
      }
      end := PassOn();
      NotBlamed();
      if end.Closed? {
        CausedDone(old(net.at));
      }
    }

    lemma CausedDone(from: nat)
      requires Complete()
      ensures Caused(Done, from)
    {
    }

    // ---- events ----

    lemma ServedClient()
      requires ClientPhase(phase)
      ensures
        var f := FlushDown(net.script, Now(Open));
        AfterService()
        == if f.end.Closed? || closeAfterFlush then f.ClosedIf(f.down.waiting == [], Flushed)
           else ClientHeard(cfg, net.script, phase, hs.content, f)
    {
      hide FlushDown, ClientHeard, Now;
    }

    lemma ServedUpstream()
      requires UpstreamPhase(phase)
      ensures
        var f := FlushDown(net.script, FlushUp(net.script, Now(Open)));
        AfterService()
        == if f.end.Closed? then f
           else ServerHeard(cfg, net.script, Wish(), OrEmpty(earlyData), phase, hs.content, f)
    {
      hide FlushDown, FlushUp, ServerHeard, Now;
    }

    lemma ServedRelay()
      ensures phase.Relay? ==> AfterService() == RelayWire(net.script, Now(Open))
      ensures phase.UpstreamConnecting? ==> AfterService() == Now(Open)
    {
      hide RelayWire, Now;
    }

    /** A handshaking client's socket is ready. */
    method ServeClient() returns (end: End)
      requires Shape() && Tracks(cfg, Snap()) && ClientPhase(phase) && Ends() && Blamed()
      modifies net`at, net`faulty, this`clientGot, hs`pos, hs`content, hs.data
      modifies toClient`pos, toClient`content, toClient.data, this`clientSent
      modifies this`phase, this`closeAfterFlush, this`hasRemote, this`lastActivityMs, this`earlyData
      modifies this`cmd, this`rawAddr, this`portBytes
      ensures Shape() && Sound(cfg, Snap())
      ensures end.Open? ==> Tracks(cfg, Snap()) && Blamed() && Ends()
      ensures net.at >= old(net.at) && (end.Closed? ==> end.why != Done && Caused(end.why, old(net.at)))
      ensures old(closeAfterFlush && toClient.content == []) ==> end == Closed(Flushed)
      ensures old(!closeAfterFlush && toClient.content == [] && |hs.content| < HS_BUF) ==>
        && clientGot == old(clientGot) + Arriving(old(net.Next()), HS_BUF - |old(hs.content)|)
        && (old(net.at) + 1 >= |net.script| && old(net.Next()).Gives? && Asks(cfg, clientGot).Asked? ==>
             end.Open? && phase.UpstreamConnecting? && !closeAfterFlush && clientSent == old(clientSent) && net.Spent())
      ensures Now(end) == old(AfterService())
    {
      hide ClientRun, ServerRun, Asks, Serves, Tracks, ClientLoop, ServerLoop, Sound, Asking, Failing,
        ByteBuffer.Valid, ClientReply, Snap, Shape, Caused, Blamed, BlamedBy, Arriving, ClientPhase, Ends,
        ClientHeard, FlushDown, Now, AfterService;
      Distinct();
      ServedClient();
      PhasesApart(phase);
      IdleEnds();
      var done;
      done, end := FlushReply();
      if !done {
        ghost var since := net.at;
        end := ReadClientHandshake();
        if end.Closed? {
          CausedSince(end.why, old(net.at), since);
        }
      }
      EndsIdle();
    }

    /** The flush that comes first; a connection that is to be closed goes no further. */
    method FlushReply() returns (done: bool, end: End)
      requires Shape() && Tracks(cfg, Snap()) && Blamed()
      modifies net`at, net`faulty, toClient`pos, toClient`content, toClient.data, this`clientSent
      ensures Shape() && Sound(cfg, Snap()) && Snap() == old(Snap()) && Tracks(cfg, Snap()) && Blamed()
      ensures net.at >= old(net.at) && (end.Closed? ==> done && end.why != Done && Caused(end.why, old(net.at)))
      ensures old(toClient.content) == [] ==>
        net.at == old(net.at) && clientSent == old(clientSent) && toClient.content == []
        && done == closeAfterFlush && (done ==> end == Closed(Flushed))
      ensures
        var f := FlushDown(net.script, old(Now(Open)));
        && (done <==> closeAfterFlush || f.end.Closed?) && (!done ==> end.Open?)
        && Now(end) == f.ClosedIf(done && f.down.waiting == [], Flushed)
    {
      hide ClientRun, ServerRun, Asks, Serves, Tracks, ClientLoop, ServerLoop, Sound, Asking, Failing,
        ByteBuffer.Valid, ClientReply, Snap, Shape, Caused, Blamed, BlamedBy, Now, ClientPhase, Ends, FlushDown;
      Distinct();
      TracksSound(cfg, Snap());
      end := FlushClient(net.at);
      NowIs(end);
      CausedNow(old(net.at));
      Distinct();
      done := closeAfterFlush || end.Closed?;
      if end.Open? && closeAfterFlush && toClient.Position() == 0 {
        end := Closed(Flushed);
      }
    }

    /** Before the relay neither side has ended. */
    lemma IdleEnds()
      requires Ends() && !phase.Relay?
      ensures !clientEof && !remoteEof && halfClosedAtMs == 0 && !clientShut && !remoteShut
    {
    }

    lemma EndsIdle()
      requires !clientEof && !remoteEof && halfClosedAtMs == 0 && !clientShut && !remoteShut
      ensures Ends()
    {
    }

    /** A socket is ready while the upstream handshake is under way. */
    method ServeUpstream() returns (end: End)
      requires Shape() && Tracks(cfg, Snap()) && UpstreamPhase(phase) && Ends() && Blamed()
      modifies net`at, net`faulty, hs`pos, hs`content, hs.data, toClient`pos, toClient`content, toClient.data,
        this`clientSent
      modifies toRemote`pos, toRemote`content, toRemote.data, this`remoteSent
      modifies this`phase, this`closeAfterFlush, this`hasRemote, this`lastActivityMs, this`earlyData
      modifies this`clientGot, this`remoteGot
      modifies this`clientEof, this`remoteEof, this`halfClosedAtMs, this`clientShut, this`remoteShut,
        counters`halfClosedClients
      ensures Shape() && Sound(cfg, Snap())
      ensures end.Open? ==> Tracks(cfg, Snap()) && Blamed() && Ends()
      ensures net.at >= old(net.at) && (end.Closed? ==> Caused(end.why, old(net.at)))
      ensures halfClosedAtMs >= 0
      ensures counters.halfClosedClients == old(counters.halfClosedClients) + Half(halfClosedAtMs)
      ensures Now(end) == old(AfterService())
    {
      hide ClientRun, ServerRun, Asks, Serves, Tracks, ClientLoop, ServerLoop, Sound, Asking, Failing,
        ByteBuffer.Valid, ClientReply, Caused, Snap, Shape, Now, AfterService, ServerHeard, FlushUp, FlushDown,
        Blamed, Ends, UpstreamPhase, ClientPhase, OrEmpty;
      Distinct();
      ServedUpstream();
      OpenUpstream();
      TracksSound(cfg, Snap());
      PhasesApart(phase);
      IdleEnds();
      end := FlushBoth();
      EndsIdle();
      NowIs(end);
      if end.Open? {
        ghost var since := net.at;
        end := ReadUpstreamHandshake();
        if end.Closed? {
          CausedSince(end.why, old(net.at), since);
        }
      }
    }

    /** The two flushes before the server is heard. */
    method FlushBoth() returns (end: End)
      requires Shape() && Blamed()
      modifies net`at, net`faulty, toClient`pos, toClient`content, toClient.data, this`clientSent
      modifies toRemote`pos, toRemote`content, toRemote.data, this`remoteSent
      ensures Shape() && Snap() == old(Snap()) && Blamed() && net.at >= old(net.at)
      ensures end == Open || (end == Closed(Broke) && Caused(Broke, old(net.at)))
      ensures Now(end) == FlushDown(net.script, FlushUp(net.script, old(Now(Open))))
    {
      hide Asks, ByteBuffer.Valid, Snap, Shape, Now, Caused, Blamed, BlamedBy, FlushUp, FlushDown;
      Distinct();
      end := FlushRemote(net.at);
      NowIs(end);
      DownStops(net.script, Now(end));
      if end.Open? {
        end := FlushClient(old(net.at));
      }
    }

    /** service: whatever the two sockets now do, the connection stays where its bytes put it. */
    method Service() returns (end: End)
      requires Valid()
      modifies Repr(), counters`halfClosedClients
      ensures Shape() && Sound(cfg, Snap())
      ensures end.Open? ==> Valid()
      ensures net.at >= old(net.at) && (end.Closed? ==> Caused(end.why, old(net.at)))
      ensures halfClosedAtMs >= 0 && net.script == old(net.script)
      ensures counters.halfClosedClients
        == old(counters.halfClosedClients) + Half(halfClosedAtMs) - old(Half(halfClosedAtMs))
      ensures old(ClientPhase(phase) && !closeAfterFlush && toClient.content == [] && |hs.content| < HS_BUF) ==>
        && clientGot == old(clientGot) + Arriving(old(net.Next()), HS_BUF - |old(hs.content)|)
        && (old(net.at) + 1 >= |net.script| && old(net.Next()).Gives? && Asks(cfg, clientGot).Asked? ==>
             end.Open? && phase.UpstreamConnecting? && !closeAfterFlush && clientSent == old(clientSent) && net.Spent())
      ensures Now(end) == old(AfterService())
    {
      hide ClientRun, ServerRun, Asks, Serves, Tracks, ClientLoop, ServerLoop, Sound, Asking, Failing,
        ByteBuffer.Valid, ClientReply, Complete, Shape, Snap, Caused, Blamed, Arriving, Ends, Now, AfterService,
        ServiceWire;
      ServedRelay();
      OpenUpstream();
      Distinct();
      RelayEnds();
      NotBlamed();
      TracksSound(cfg, Snap());
      if phase.UpstreamConnecting? {
        return Open;
      }
      if ClientPhase(phase) {
        end := ServeClient();
      } else if phase.Relay? {
        end := RelayTurn();
        TracksSound(cfg, Snap());
      } else {
        end := ServeUpstream();
      }
    }

    lemma RelayEnds()
      requires Ends()
      ensures halfClosedAtMs >= 0 && (!phase.Relay? ==> halfClosedAtMs == 0)
    {
    }

    /** The connect event. */
    method Connectable() returns (end: End)
      requires Valid() && phase.UpstreamConnecting?
      modifies Repr()
      ensures Shape() && Sound(cfg, Snap())
      ensures end.Open? ==> Valid()
      ensures net.at >= old(net.at) && (end.Closed? ==> end.why != Done && Caused(end.why, old(net.at)))
      ensures halfClosedAtMs == old(halfClosedAtMs) && net.script == old(net.script) && clientGot == old(clientGot)
      ensures
        var o := old(net.Next());
        && (o.Connects? ==>
             && end.Open? && phase.UpstreamGreeting? && hs.content == []
             && remoteSent + toRemote.content == old(remoteSent + toRemote.content) + Head(cfg)
             && clientSent + toClient.content == old(clientSent + toClient.content))
        && (o.Throws? ==>
             && phase.ClientRequest? && closeAfterFlush && !hasRemote
             && clientSent + toClient.content
                == old(clientSent + toClient.content) + if old(toClient.content) == [] then ClientReply(5) else [])
        && (!o.Connects? && !o.Throws? ==> end.Open? && Snap() == old(Snap()))
        && (o.Throws? && old(net.at) + 1 >= |net.script| ==> end.Open? && clientSent == old(clientSent))
      ensures Now(end) == old(AfterConnect()) && ConnectedAs(old(net.Next()))
    {
      hide ClientRun, ServerRun, Asks, Serves, Tracks, ClientLoop, ServerLoop, Sound, Asking, Failing,
        ByteBuffer.Valid, ClientReply, Complete, Shape, Snap, Caused, Blamed, Ends, Head, Now, ConnectWire, ConnectedAs;
      Distinct();
      OpenUpstream();
      IdleEnds();
      end := OnConnectable();
      EndsIdle();
    }
  }
}
