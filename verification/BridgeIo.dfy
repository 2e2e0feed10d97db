/**
 * What one event of MiniSlipstreamSocksBridge.kt reads and writes and how it ends, as a function of
 * what the two sockets do: every read asks for as much as there is room for, and every write offers
 * all that waits.
 */
module BridgeIo {
  import opened Bytes
  import opened SocksProtocol
  import opened Handshake
  import opened BridgeSpec

  const RELAY_BUF := 65536

  /** What a socket does when it is next asked; which, and in which order, is left open. */
  datatype Outcome = Throws | Ends | Gives(bytes: seq<Byte>) | Takes(n: nat) | Connects | Idles

  /** Why a connection is to be closed. */
  datatype Cause = Done | Broke | HungUp | Dropped | Crashed | Flushed

  /** How an event left the connection. */
  datatype End = Open | Closed(why: Cause)

  function Broken(threw: bool): End {
    if threw then Closed(Broke) else Open
  }

  predicate IsFault(o: Outcome) {
    o.Throws? || o.Ends?
  }

  /** The script's outcome at a place; a script that has run out is idle. */
  function At(script: seq<Outcome>, at: nat): Outcome {
    if at < |script| then script[at] else Idles
  }

  function After(script: seq<Outcome>, at: nat): nat {
    if at < |script| then at + 1 else at
  }

  /** What a read with so much room gets. */
  function Arriving(o: Outcome, room: nat): (m: seq<Byte>)
    ensures |m| <= room
  {
    if !o.Gives? then [] else if |o.bytes| <= room then o.bytes else o.bytes[..room]
  }

  /** How much of n bytes a write puts out. */
  function Leaving(o: Outcome, n: nat): (w: nat)
    ensures w <= n
  {
    if !o.Takes? then 0 else if o.n <= n then o.n else n
  }

  // ---- one direction ----

  /** One direction: read from one peer, whether that peer has ended, waiting, and written to the other. */
  datatype Lane = Lane(got: seq<Byte>, ended: bool, waiting: seq<Byte>, sent: seq<Byte>)

  /** A lane, the place in the script, and whether a socket has thrown. */
  datatype Step = Step(at: nat, lane: Lane, broke: bool)

  /** A write offers all that waits, unless nothing does. */
  function Flush(script: seq<Outcome>, s: Step): Step {
    var l := s.lane;
    if s.broke || l.waiting == [] then s
    else
      var o := At(script, s.at);
      var n := Leaving(o, |l.waiting|);
      Step(After(script, s.at), l.(waiting := l.waiting[n..], sent := l.sent + l.waiting[..n]), o.Throws?)
  }

  /** The relay reads up to the room its buffer has, and not at all once it is full or the peer has ended. */
  function Fill(script: seq<Outcome>, s: Step): Step {
    var l := s.lane;
    if s.broke || l.ended || |l.waiting| >= RELAY_BUF then s
    else
      var o := At(script, s.at);
      var m := Arriving(o, RELAY_BUF - |l.waiting|);
      Step(After(script, s.at), Lane(l.got + m, o.Ends?, l.waiting + m, l.sent), o.Throws?)
  }

  lemma FlushStops(script: seq<Outcome>, s: Step)
    ensures s.broke ==> Flush(script, s) == s
  {
  }

  lemma FillStops(script: seq<Outcome>, s: Step)
    ensures s.broke || s.lane.ended || |s.lane.waiting| >= RELAY_BUF ==> Fill(script, s) == s
  {
  }

  function Carry(script: seq<Outcome>, s: Step): Step {
    Flush(script, Fill(script, s))
  }

  // ---- both directions ----

  /** Both lanes, up from the client to the server and down to the client, and how the event ends. */
  datatype Wire = Wire(at: nat, up: Lane, down: Lane, end: End)
  {
    function Up(): Step {
      Step(at, up, end.Closed?)
    }

    function Down(): Step {
      Step(at, down, end.Closed?)
    }

    /** Where the lane has gone on; a closed connection goes no further. */
    function WithUp(s: Step): Wire {
      if end.Closed? then this else Wire(s.at, s.lane, down, Broken(s.broke))
    }

    function WithDown(s: Step): Wire {
      if end.Closed? then this else Wire(s.at, up, s.lane, Broken(s.broke))
    }

    /** Closed for a reason, if it applies and nothing else has closed it. */
    function ClosedIf(when: bool, why: Cause): Wire {
      if end.Open? && when then this.(end := Closed(why)) else this
    }

    /** Bytes put on the way to the server. */
    function SayUp(bytes: seq<Byte>): Wire {
      this.(up := up.(waiting := up.waiting + bytes))
    }

    /** Bytes put on the way to the client. */
    function SayDown(bytes: seq<Byte>): Wire {
      this.(down := down.(waiting := down.waiting + bytes))
    }
  }

  lemma SayMore(w: Wire, a: seq<Byte>, b: seq<Byte>, c: seq<Byte>)
    ensures w.SayDown(a).SayUp(c).SayDown(b) == w.SayDown(a + b).SayUp(c)
    ensures w.SayDown(a + []) == w.SayDown(a) && w.SayUp([]) == w && w.SayDown(a).SayUp([]) == w.SayDown(a)
  {
    assert w.down.waiting + a + b == w.down.waiting + (a + b);
    assert w.up.waiting + [] == w.up.waiting && a + [] == a;
  }

  function FlushUp(script: seq<Outcome>, w: Wire): Wire {
    w.WithUp(Flush(script, w.Up()))
  }

  function FlushDown(script: seq<Outcome>, w: Wire): Wire {
    w.WithDown(Flush(script, w.Down()))
  }

  lemma DownStops(script: seq<Outcome>, w: Wire)
    ensures w.end.Closed? || w.down.waiting == [] ==> FlushDown(script, w) == w
  {
  }

  /** Both directions of the relay: up, then down unless a socket has thrown. */
  function CarryBoth(script: seq<Outcome>, w: Wire): Wire {
    var u := w.WithUp(Carry(script, w.Up()));
    u.WithDown(Carry(script, u.Down()))
  }

  lemma CarriesBoth(script: seq<Outcome>, w: Wire, u: Wire)
    requires u == w.WithUp(Carry(script, w.Up()))
    ensures CarryBoth(script, w) == if u.end.Closed? then u else u.WithDown(Carry(script, u.Down()))
  {
  }

  /** One turn of the relay, which is over once both peers have ended and nothing waits. */
  function RelayWire(script: seq<Outcome>, w: Wire): Wire {
    var c := CarryBoth(script, w);
    c.ClosedIf(c.up.ended && c.down.ended && c.up.waiting == [] && c.down.waiting == [], Done)
  }

  lemma RelayOver(script: seq<Outcome>, w: Wire)
    ensures
      var c := CarryBoth(script, w);
      RelayWire(script, w) == if c.end.Closed? then c
        else c.ClosedIf(c.up.ended && c.down.ended && c.up.waiting == [] && c.down.waiting == [], Done)
  {
  }

  /** A report to the client, only when nothing else waits for it; it is closed once that has gone out. */
  function FailWire(script: seq<Outcome>, w: Wire): Wire {
    var f := FlushDown(script, if w.down.waiting == [] then w.SayDown(ClientReply(5)) else w);
    f.ClosedIf(f.down.waiting == [], Flushed)
  }

  /** Opening the upstream socket. */
  function OpenWire(script: seq<Outcome>, w: Wire): Wire {
    var o := w.(at := After(script, w.at));
    if At(script, w.at).Throws? then FailWire(script, o) else o
  }

  /** What finishConnect came to. */
  function ConnectWire(cfg: Config, script: seq<Outcome>, w: Wire): Wire {
    var o := w.(at := After(script, w.at));
    match At(script, w.at)
    case Throws => FailWire(script, o)
    case Connects => o.SayUp(Head(cfg))
    case _ => o
  }

  // ---- one message ----

  /** After a message: on to the next, at rest, over, or relaying. */
  datatype Kind = More | Rest | Gone | Relays

  /** What a message made the bridge do before its next flush. */
  datatype Turn = Turn(wire: Wire, kind: Kind, phase: Phase, hs: seq<Byte>)

  function Left(p: Phase): nat {
    if p.ClientGreeting? || p.UpstreamGreeting? then 2 else if p.ClientAuth? || p.UpstreamAuth? then 1 else 0
  }

  function ClientMessage(cfg: Config, script: seq<Outcome>, phase: Phase, hs: seq<Byte>, w: Wire): (t: Turn)
    ensures t.kind.More? ==> Left(t.phase) < Left(phase)
  {
    match phase
    case ClientGreeting => (
      match ParseClientGreeting(hs, |hs|)
      case NeedMore => Turn(w, Rest, phase, hs)
      case Bad => Turn(w.ClosedIf(true, Cause.Dropped), Rest, phase, hs)
      case Ok(methods, n) =>
        Consumed(hs, |hs|);
        if Wanted(cfg).0 in methods then Turn(w.SayDown([5, Wanted(cfg).0]), More, Wanted(cfg).1, hs[n..])
        else Turn(w.SayDown([5, 0xFF]), Rest, phase, hs)
    )
    case ClientAuth => (
      match ParseClientAuth(hs, |hs|)
      case NeedMore => Turn(w, Rest, phase, hs)
      case Bad => Turn(w.ClosedIf(true, Cause.Dropped), Rest, phase, hs)
      case Ok(l, n) =>
        Consumed(hs, |hs|);
        if LoginMatches(cfg, l) then Turn(w.SayDown([1, 0]), More, ClientRequest, hs[n..])
        else Turn(w.SayDown([1, 1]), Rest, phase, hs)
    )
    case ClientRequest => (
      match ParseClientRequest(hs, |hs|)
      case NeedMore => Turn(w, Rest, phase, hs)
      case Bad => Turn(w.SayDown(ClientReply(7)), Rest, phase, hs)
      case Ok(_, _) => Turn(OpenWire(script, w), Rest, phase, hs)
    )
    case _ => Turn(w, Rest, phase, hs)
  }

  function ServerMessage(
    cfg: Config, script: seq<Outcome>, r: Request, early: seq<Byte>, phase: Phase, hs: seq<Byte>, w: Wire): (t: Turn)
    ensures t.kind.More? ==> Left(t.phase) < Left(phase)
  {
    match phase
    case UpstreamGreeting => (
      match ParseUpstreamGreetingReply(hs, |hs|)
      case NeedMore => Turn(w, Rest, phase, hs)
      case Bad => Turn(FailWire(script, w), Gone, phase, hs)
      case Ok(choice, n) =>
        Consumed(hs, |hs|);
        if choice != 2 then Turn(w.SayUp(Command(r, 0)), More, Phase.UpstreamCommand, hs[n..])
        else if AuthFrame(cfg.Upstream()).None? then Turn(w.ClosedIf(true, Cause.Crashed), Gone, phase, hs)
        else Turn(w.SayUp(AuthFrame(cfg.Upstream()).value), More, Phase.UpstreamAuth, hs[n..])
    )
    case UpstreamAuth => (
      match ParseUpstreamAuthReply(hs, |hs|)
      case NeedMore => Turn(w, Rest, phase, hs)
      case Bad => Turn(FailWire(script, w), Gone, phase, hs)
      case Ok(_, n) =>
        Consumed(hs, |hs|);
        Turn(w.SayUp(Command(r, 0)), More, Phase.UpstreamCommand, hs[n..])
    )
    case UpstreamCommand => (
      match ParseUpstreamCommandReply(hs, |hs|)
      case NeedMore => Turn(w, Rest, phase, hs)
      case Bad => Turn(FailWire(script, w), Gone, phase, hs)
      case Ok(_, n) =>
        Consumed(hs, |hs|);
        Turn(w.SayDown(ClientReply(0) + hs[n..]).SayUp(early), Relays, phase, hs)
    )
    case _ => Turn(w, Rest, phase, hs)
  }

  lemma ChoiceMessage(
    cfg: Config, script: seq<Outcome>, r: Request, early: seq<Byte>, hs: seq<Byte>, w: Wire, choice: Byte, n: nat)
    requires ParseUpstreamGreetingReply(hs, |hs|) == Ok(choice, n) && n <= |hs|
    ensures
      var t := ServerMessage(cfg, script, r, early, Phase.UpstreamGreeting, hs, w);
      if choice != 2 then t == Turn(w.SayUp(Command(r, 0)), More, Phase.UpstreamCommand, hs[n..])
      else if AuthFrame(cfg.Upstream()).Some? then
        t == Turn(w.SayUp(AuthFrame(cfg.Upstream()).value), More, Phase.UpstreamAuth, hs[n..])
      else t.wire == w.ClosedIf(true, Cause.Crashed) && t.kind.Gone?
  {
    hide ParseUpstreamGreetingReply, Command, AuthFrame;
  }

  // ---- all that has arrived ----

  /** The client's messages so far, each followed by a flush towards the client. */
  function ClientWire(cfg: Config, script: seq<Outcome>, phase: Phase, hs: seq<Byte>, w: Wire): Wire
    decreases Left(phase)
  {
    var t := ClientMessage(cfg, script, phase, hs, w);
    var f := FlushDown(script, t.wire);
    if t.kind.More? && f.end.Open? then ClientWire(cfg, script, t.phase, t.hs, f) else f
  }

  lemma ClientGoes(cfg: Config, script: seq<Outcome>, phase: Phase, hs: seq<Byte>, w: Wire)
    ensures
      var t := ClientMessage(cfg, script, phase, hs, w);
      var f := FlushDown(script, t.wire);
      && ClientWire(cfg, script, phase, hs, w)
         == (if t.kind.More? && f.end.Open? then ClientWire(cfg, script, t.phase, t.hs, f) else f)
      && (t.wire.end.Closed? ==> f == t.wire)
  {
  }

  /** The server's replies so far, each followed by a flush towards the server; the relay follows at once. */
  function ServerWire(
    cfg: Config, script: seq<Outcome>, r: Request, early: seq<Byte>, phase: Phase, hs: seq<Byte>, w: Wire): Wire
    decreases Left(phase)
  {
    var t := ServerMessage(cfg, script, r, early, phase, hs, w);
    if t.kind.Gone? then t.wire
    else if t.kind.Relays? then RelayWire(script, t.wire)
    else
      var f := FlushUp(script, t.wire);
      if t.kind.More? && f.end.Open? then ServerWire(cfg, script, r, early, t.phase, t.hs, f) else f
  }

  lemma ServerGoes(
    cfg: Config, script: seq<Outcome>, r: Request, early: seq<Byte>, phase: Phase, hs: seq<Byte>, w: Wire)
    ensures
      var t := ServerMessage(cfg, script, r, early, phase, hs, w);
      var f := FlushUp(script, t.wire);
      ServerWire(cfg, script, r, early, phase, hs, w)
      == if t.kind.Gone? then t.wire
         else if t.kind.Relays? then RelayWire(script, t.wire)
         else if t.kind.More? && f.end.Open? then ServerWire(cfg, script, r, early, t.phase, t.hs, f)
         else f
  {
  }

  // ---- events ----

  /** A read from a handshaking client; one that hangs up is done with. */
  function HearUp(script: seq<Outcome>, w: Wire, m: seq<Byte>): Wire {
    var o := At(script, w.at);
    Wire(After(script, w.at), w.up.(got := w.up.got + m), w.down, if o.Ends? then Closed(HungUp) else Broken(o.Throws?))
  }

  function HearDown(script: seq<Outcome>, w: Wire, m: seq<Byte>): Wire {
    Wire(After(script, w.at), w.up, w.down.(got := w.down.got + m), Broken(At(script, w.at).Throws?))
  }

  /** A handshaking client is heard, if there is room. */
  function ClientHeard(cfg: Config, script: seq<Outcome>, phase: Phase, hs: seq<Byte>, w: Wire): Wire
  {
    if |hs| >= HS_BUF then ClientWire(cfg, script, phase, hs, w)
    else
      var o := At(script, w.at);
      var m := Arriving(o, HS_BUF - |hs|);
      var h := HearUp(script, w, m);
      if h.end.Closed? then h else ClientWire(cfg, script, phase, hs + m, h)
  }

  /** A handshaking server is heard; one that hangs up has failed. */
  function ServerHeard(
    cfg: Config, script: seq<Outcome>, r: Request, early: seq<Byte>, phase: Phase, hs: seq<Byte>, w: Wire): Wire
  {
    if |hs| >= HS_BUF then ServerWire(cfg, script, r, early, phase, hs, w)
    else
      var o := At(script, w.at);
      var m := Arriving(o, HS_BUF - |hs|);
      if o.Throws? then HearDown(script, w, m)
      else if o.Ends? then FailWire(script, HearDown(script, w, m))
      else ServerWire(cfg, script, r, early, phase, hs + m, HearDown(script, w, m))
  }

  /** What of a connection, beside its lanes, decides an event. */
  datatype Stage = Stage(phase: Phase, hs: seq<Byte>, closing: bool, request: Request, early: seq<Byte>)

  /** A socket event: what waits is flushed, then the peer being listened to is heard. */
  function ServiceWire(cfg: Config, script: seq<Outcome>, g: Stage, w: Wire): Wire {
    if g.phase.UpstreamConnecting? then w
    else if g.phase.Relay? then RelayWire(script, w)
    else if ClientPhase(g.phase) then
      var f := FlushDown(script, w);
      if f.end.Closed? || g.closing then f.ClosedIf(f.down.waiting == [], Flushed)
      else ClientHeard(cfg, script, g.phase, g.hs, f)
    else
      var f := FlushDown(script, FlushUp(script, w));
      if f.end.Closed? then f else ServerHeard(cfg, script, g.request, g.early, g.phase, g.hs, f)
  }

  // ---- what an event moves ----

  /** A lane that has moved on keeps every byte in its place. */
  predicate Moved(l: Lane, l': Lane) {
    && l.got <= l'.got && l.sent <= l'.sent
    && l'.sent + l'.waiting == l.sent + l.waiting + l'.got[|l.got|..]
    && (l.ended ==> l'.ended && l'.got == l.got)
  }

  lemma CarryMoves(script: seq<Outcome>, s: Step)
    ensures
      var c := Carry(script, s);
      && Moved(s.lane, c.lane) && s.at <= c.at
      && (s.at >= |script| ==> c.lane.got == s.lane.got && c.lane.sent == s.lane.sent && c.at == s.at)
  {
    hide Fill, Flush;
    FillMoves(script, s);
    FlushKeeps(script, Fill(script, s));
  }

  lemma FillMoves(script: seq<Outcome>, s: Step)
    ensures
      var f := Fill(script, s);
      && s.lane.got <= f.lane.got && f.lane.sent == s.lane.sent && s.at <= f.at
      && f.lane.sent + f.lane.waiting == s.lane.sent + s.lane.waiting + f.lane.got[|s.lane.got|..]
      && (s.lane.ended ==> f.lane.ended && f.lane.got == s.lane.got)
      && (s.at >= |script| ==> f.lane.got == s.lane.got && f.at == s.at)
  {
    var f := Fill(script, s);
    if f != s {
      var m := Arriving(At(script, s.at), RELAY_BUF - |s.lane.waiting|);
      assert f.lane.got[|s.lane.got|..] == m;
      assert s.lane.sent + (s.lane.waiting + m) == s.lane.sent + s.lane.waiting + m;
    } else {
      assert s.lane.got[|s.lane.got|..] == [];
    }
  }

  lemma FlushKeeps(script: seq<Outcome>, s: Step)
    ensures var f := Flush(script, s);
            && f.lane.sent + f.lane.waiting == s.lane.sent + s.lane.waiting && s.lane.sent <= f.lane.sent
            && f.lane.got == s.lane.got && f.lane.ended == s.lane.ended && s.at <= f.at
            && (s.at >= |script| ==> f == s)
  {
  }

  function Turns(script: seq<Outcome>, w: Wire, k: nat): Wire
    decreases k
  {
    if k == 0 then w else Turns(script, RelayWire(script, w), k - 1)
  }

  /** Over any number of turns both directions keep every byte in its place. */
  lemma {:induction false} TurnsMove(script: seq<Outcome>, w: Wire, k: nat)
    ensures Moved(w.up, Turns(script, w, k).up) && Moved(w.down, Turns(script, w, k).down)
    decreases k
  {
    hide RelayWire, Moved;
    if k > 0 {
      var r := RelayWire(script, w);
      TurnMoves(script, w);
      TurnsMove(script, r, k - 1);
      StillMoved(w.up, r.up, Turns(script, r, k - 1).up);
      StillMoved(w.down, r.down, Turns(script, r, k - 1).down);
    } else {
      NotMoved(w.up);
      NotMoved(w.down);
    }
  }

  lemma TurnMoves(script: seq<Outcome>, w: Wire)
    ensures Moved(w.up, RelayWire(script, w).up) && Moved(w.down, RelayWire(script, w).down)
  {
    hide Carry, Moved;
    var u := w.WithUp(Carry(script, w.Up()));
    CarryMoves(script, w.Up());
    CarryMoves(script, u.Down());
    NotMoved(w.up);
    NotMoved(w.down);
  }

  lemma NotMoved(l: Lane)
    ensures Moved(l, l)
  {
    assert l.got[|l.got|..] == [];
  }

  lemma StillMoved(a: Lane, b: Lane, c: Lane)
    requires Moved(a, b) && Moved(b, c)
    ensures Moved(a, c)
  {
    assert c.got[|a.got|..] == b.got[|a.got|..] + c.got[|b.got|..];
    var m, n := b.got[|a.got|..], c.got[|b.got|..];
    assert a.sent + a.waiting + m + n == a.sent + a.waiting + (m + n);
  }

  /**
   * Once both peers have ended, sockets that take at least a byte whenever they are asked let the
   * relay finish in as many turns as there are bytes waiting, and no turn closes it before that.
   */
  lemma {:induction false} EndedDrains(script: seq<Outcome>, w: Wire, k: nat)
    requires w.end.Open? && w.up.ended && w.down.ended && k >= |w.up.waiting| && k >= |w.down.waiting| && k > 0
    requires w.at + 2 * k <= |script|
    requires forall i :: w.at <= i < |script| ==> script[i].Takes? && script[i].n > 0
    ensures
      var r := Turns(script, w, k);
      && r.end == Closed(Done) && r.up.waiting == [] && r.down.waiting == []
      && r.up.sent == w.up.sent + w.up.waiting && r.down.sent == w.down.sent + w.down.waiting
    decreases k
  {
    hide RelayWire;
    EndedTurn(script, w);
    var r := RelayWire(script, w);
    if r.end.Open? {
      EndedDrains(script, r, k - 1);
    } else {
      Stays(script, r, k - 1);
    }
  }

  lemma {:induction false} Stays(script: seq<Outcome>, w: Wire, k: nat)
    requires w.end.Closed?
    ensures Turns(script, w, k) == w
    decreases k
  {
    if k > 0 {
      Stays(script, w, k - 1);
    }
  }

  lemma EndedTurn(script: seq<Outcome>, w: Wire)
    requires w.end.Open? && w.up.ended && w.down.ended && w.at + 2 <= |script|
    requires forall i :: w.at <= i < |script| ==> script[i].Takes? && script[i].n > 0
    ensures
      var r := RelayWire(script, w);
      && r.up.ended && r.down.ended && w.at <= r.at <= w.at + 2
      && r.end == (if r.up.waiting == [] && r.down.waiting == [] then Closed(Done) else Open)
      && r.up.sent + r.up.waiting == w.up.sent + w.up.waiting
      && r.down.sent + r.down.waiting == w.down.sent + w.down.waiting
      && (w.up.waiting != [] ==> |r.up.waiting| < |w.up.waiting|) && (w.up.waiting == [] ==> r.up.waiting == [])
      && (w.down.waiting != [] ==> |r.down.waiting| < |w.down.waiting|)
      && (w.down.waiting == [] ==> r.down.waiting == [])
  {
    FlushKeeps(script, w.Up());
  }

  // ---- any event ----

  /** What has been read and written stays so, and a script that has run out moves nothing. */
  predicate Later(script: seq<Outcome>, w: Wire, w': Wire) {
    && w.at <= w'.at
    && w.up.got <= w'.up.got && w.up.sent <= w'.up.sent
    && w.down.got <= w'.down.got && w.down.sent <= w'.down.sent
    && (w.at >= |script| ==>
         && w'.at == w.at
         && w'.up.got == w.up.got && w'.up.sent == w.up.sent
         && w'.down.got == w.down.got && w'.down.sent == w.down.sent)
  }

  lemma LaterStill(script: seq<Outcome>, a: Wire, b: Wire, c: Wire)
    requires Later(script, a, b) && Later(script, b, c)
    ensures Later(script, a, c)
  {
  }

  lemma FlushLater(script: seq<Outcome>, w: Wire)
    ensures Later(script, w, FlushUp(script, w)) && Later(script, w, FlushDown(script, w))
    ensures Later(script, w, FailWire(script, w))
  {
    hide Flush;
    FlushKeeps(script, w.Up());
    FlushKeeps(script, w.Down());
    FlushKeeps(script, w.SayDown(ClientReply(5)).Down());
  }

  lemma RelayLater(script: seq<Outcome>, w: Wire)
    ensures Later(script, w, RelayWire(script, w))
  {
    hide Carry;
    var u := w.WithUp(Carry(script, w.Up()));
    CarryMoves(script, w.Up());
    CarryMoves(script, u.Down());
    LaterStill(script, w, u, RelayWire(script, w));
  }

  lemma SayLater(script: seq<Outcome>, w: Wire, m: seq<Byte>)
    ensures Later(script, w, w.SayUp(m)) && Later(script, w, w.SayDown(m))
    ensures Later(script, w, w.(at := After(script, w.at)))
  {
  }

  lemma OpenLater(script: seq<Outcome>, w: Wire)
    ensures Later(script, w, OpenWire(script, w))
  {
    hide FailWire, Later;
    SayLater(script, w, []);
    FlushLater(script, w.(at := After(script, w.at)));
    LaterStill(script, w, w.(at := After(script, w.at)), OpenWire(script, w));
  }

  lemma ClientMessageLater(cfg: Config, script: seq<Outcome>, phase: Phase, hs: seq<Byte>, w: Wire)
    ensures Later(script, w, ClientMessage(cfg, script, phase, hs, w).wire)
  {
    hide OpenWire, ParseClientGreeting, ParseClientAuth, ParseClientRequest;
    OpenLater(script, w);
  }

  lemma ServerMessageLater(
    cfg: Config, script: seq<Outcome>, r: Request, early: seq<Byte>, phase: Phase, hs: seq<Byte>, w: Wire)
    ensures Later(script, w, ServerMessage(cfg, script, r, early, phase, hs, w).wire)
  {
    hide FailWire, ParseUpstreamGreetingReply, ParseUpstreamAuthReply, ParseUpstreamCommandReply, AuthFrame, Command;
    FlushLater(script, w);
  }

  lemma {:induction false} ClientLater(cfg: Config, script: seq<Outcome>, phase: Phase, hs: seq<Byte>, w: Wire)
    ensures Later(script, w, ClientWire(cfg, script, phase, hs, w))
    decreases Left(phase)
  {
    hide ClientMessage, FlushDown, Left, Later;
    var t := ClientMessage(cfg, script, phase, hs, w);
    var f := FlushDown(script, t.wire);
    ClientMessageLater(cfg, script, phase, hs, w);
    FlushLater(script, t.wire);
    LaterStill(script, w, t.wire, f);
    if t.kind.More? && f.end.Open? {
      ClientLater(cfg, script, t.phase, t.hs, f);
      LaterStill(script, w, f, ClientWire(cfg, script, t.phase, t.hs, f));
    }
  }

  lemma {:induction false} ServerLater(
    cfg: Config, script: seq<Outcome>, r: Request, early: seq<Byte>, phase: Phase, hs: seq<Byte>, w: Wire)
    ensures Later(script, w, ServerWire(cfg, script, r, early, phase, hs, w))
    decreases Left(phase)
  {
    hide ServerMessage, FlushUp, RelayWire, Left, Later;
    var t := ServerMessage(cfg, script, r, early, phase, hs, w);
    var f := FlushUp(script, t.wire);
    ServerMessageLater(cfg, script, r, early, phase, hs, w);
    FlushLater(script, t.wire);
    RelayLater(script, t.wire);
    LaterStill(script, w, t.wire, f);
    LaterStill(script, w, t.wire, RelayWire(script, t.wire));
    if t.kind.More? && f.end.Open? {
      ServerLater(cfg, script, r, early, t.phase, t.hs, f);
      LaterStill(script, w, f, ServerWire(cfg, script, r, early, t.phase, t.hs, f));
    }
  }

  /** No event takes back what was read or written, and none moves a byte in a world that is idle. */
  lemma ServiceLater(cfg: Config, script: seq<Outcome>, g: Stage, w: Wire)
    requires w.end.Open?
    ensures Later(script, w, ServiceWire(cfg, script, g, w))
  {
    hide ClientHeard, ServerHeard, FlushUp, FlushDown, FailWire, RelayWire;
    var up := FlushUp(script, w);
    RelayLater(script, w);
    FlushLater(script, w);
    FlushLater(script, up);
    var down, both := FlushDown(script, w), FlushDown(script, up);
    if ClientPhase(g.phase) && down.end.Open? {
      ClientHeardLater(cfg, script, g.phase, g.hs, down);
    } else if UpstreamPhase(g.phase) && both.end.Open? {
      ServerHeardLater(cfg, script, g.request, g.early, g.phase, g.hs, both);
    }
  }

  lemma ClientHeardLater(cfg: Config, script: seq<Outcome>, phase: Phase, hs: seq<Byte>, w: Wire)
    requires w.end.Open?
    ensures Later(script, w, ClientHeard(cfg, script, phase, hs, w))
  {
    hide ClientWire;
    var m := if |hs| >= HS_BUF then [] else Arriving(At(script, w.at), HS_BUF - |hs|);
    ClientLater(cfg, script, phase, hs, w);
    ClientLater(cfg, script, phase, hs + m, HearUp(script, w, m));
  }

  lemma ServerHeardLater(
    cfg: Config, script: seq<Outcome>, r: Request, early: seq<Byte>, phase: Phase, hs: seq<Byte>, w: Wire)
    requires w.end.Open?
    ensures Later(script, w, ServerHeard(cfg, script, r, early, phase, hs, w))
  {
    hide ServerWire, FailWire;
    var m := if |hs| >= HS_BUF then [] else Arriving(At(script, w.at), HS_BUF - |hs|);
    FlushLater(script, HearDown(script, w, m));
    ServerLater(cfg, script, r, early, phase, hs, w);
    ServerLater(cfg, script, r, early, phase, hs + m, HearDown(script, w, m));
  }
}
