/**
 * What the bridge gets done when the sockets play along: everything that waits goes out at once,
 * every message is answered, and a relay whose peers speak and then end delivers all of it.
 */
module BridgeLive {
  import opened Bytes
  import opened Wrappers
  import opened SocksProtocol
  import opened Handshake
  import opened BridgeSpec
  import opened BridgeIo

  /** The next n outcomes take whatever they are offered. */
  predicate Obliging(script: seq<Outcome>, at: nat, n: nat) {
    at + n <= |script| && forall i :: at <= i < at + n ==> script[i].Takes? && script[i].n >= 65536
  }

  /** The state of a direction after all that waits has been written. */
  function Emptied(l: Lane): Lane {
    l.(waiting := [], sent := l.sent + l.waiting)
  }

  /** How many outcomes a flush uses. */
  function Uses(l: Lane): nat {
    if l.waiting == [] then 0 else 1
  }

  lemma FlushesUp(script: seq<Outcome>, w: Wire)
    requires w.end.Open? && |w.up.waiting| <= 65536 && Obliging(script, w.at, Uses(w.up))
    ensures FlushUp(script, w) == w.(at := w.at + Uses(w.up), up := Emptied(w.up))
  {
    FlushesLane(script, w.Up());
  }

  lemma FlushesDown(script: seq<Outcome>, w: Wire)
    requires w.end.Open? && |w.down.waiting| <= 65536 && Obliging(script, w.at, Uses(w.down))
    ensures FlushDown(script, w) == w.(at := w.at + Uses(w.down), down := Emptied(w.down))
  {
    FlushesLane(script, w.Down());
  }

  lemma FlushesLane(script: seq<Outcome>, s: Step)
    requires !s.broke && |s.lane.waiting| <= 65536 && Obliging(script, s.at, Uses(s.lane))
    ensures Flush(script, s) == Step(s.at + Uses(s.lane), Emptied(s.lane), false)
  {
    assert s.lane.sent + [] == s.lane.sent;
    if s.lane.waiting != [] {
      assert s.lane.waiting[..|s.lane.waiting|] == s.lane.waiting;
    }
  }

  // ---- the relay ----

  /** What comes of a read: all that fits, the end, or nothing. */
  lemma FillReads(script: seq<Outcome>, s: Step)
    requires !s.broke && !s.lane.ended && |s.lane.waiting| < 65536 && s.at < |script|
    ensures
      var o, f, room := script[s.at], Fill(script, s), 65536 - |s.lane.waiting|;
      && f.at == s.at + 1 && f.lane.sent == s.lane.sent
      && (o.Gives? ==>
           var m := if |o.bytes| <= room then o.bytes else o.bytes[..room];
           f == Step(s.at + 1, s.lane.(got := s.lane.got + m, waiting := s.lane.waiting + m), false))
      && (o.Ends? ==> f == Step(s.at + 1, s.lane.(ended := true), false))
      && (o.Throws? ==> f.broke)
  {
    assert s.lane.got + [] == s.lane.got && s.lane.waiting + [] == s.lane.waiting;
  }

  /**
   * A turn of the relay reads: with room in the buffer, what the client's socket gives is read up to
   * that room, its end is seen, and an error closes the connection.
   */
  lemma TurnReadsClient(script: seq<Outcome>, w: Wire)
    requires w.end.Open? && !w.up.ended && |w.up.waiting| < 65536 && w.at < |script|
    ensures
      var o, r, room := script[w.at], RelayWire(script, w), 65536 - |w.up.waiting|;
      && (o.Gives? ==> r.up.got == w.up.got + (if |o.bytes| <= room then o.bytes else o.bytes[..room]) && !r.up.ended)
      && (o.Ends? ==> r.up.got == w.up.got && r.up.ended)
      && (o.Throws? ==> r.end == Closed(Broke))
  {
    hide Fill;
    FillReads(script, w.Up());
  }

  /** Where in the script the server's turn comes: after a read from the client and a write to the server. */
  function ServersTurn(script: seq<Outcome>, w: Wire): nat
    requires w.at < |script|
  {
    var hears := !w.up.ended && |w.up.waiting| < 65536;
    var some := hears && script[w.at].Gives? && script[w.at].bytes != [];
    w.at + (if hears then 1 else 0) + (if some || w.up.waiting != [] then 1 else 0)
  }

  /** And then it reads from the server in the same way, unless a socket has thrown before. */
  lemma TurnReadsServer(script: seq<Outcome>, w: Wire)
    requires w.end.Open? && w.at < |script| && ServersTurn(script, w) < |script|
    requires forall i :: w.at <= i < ServersTurn(script, w) ==> !script[i].Throws?
    requires !w.down.ended && |w.down.waiting| < 65536
    ensures
      var o, r, room := script[ServersTurn(script, w)], RelayWire(script, w), 65536 - |w.down.waiting|;
      && (o.Gives? ==>
           r.down.got == w.down.got + (if |o.bytes| <= room then o.bytes else o.bytes[..room]) && !r.down.ended)
      && (o.Ends? ==> r.down.got == w.down.got && r.down.ended)
      && (o.Throws? ==> r.end == Closed(Broke))
  {
    hide Carry;
    UpGoesFirst(script, w);
    var u := w.WithUp(Carry(script, w.Up()));
    DownReads(script, u);
  }

  lemma UpGoesFirst(script: seq<Outcome>, w: Wire)
    requires w.end.Open? && w.at < |script| && ServersTurn(script, w) < |script|
    requires forall i :: w.at <= i < ServersTurn(script, w) ==> !script[i].Throws?
    ensures Carry(script, w.Up()).at == ServersTurn(script, w) && !Carry(script, w.Up()).broke
  {
  }

  lemma DownReads(script: seq<Outcome>, u: Wire)
    requires u.end.Open? && u.at < |script| && !u.down.ended && |u.down.waiting| < 65536
    ensures
      var o, c, room := script[u.at], Carry(script, u.Down()), 65536 - |u.down.waiting|;
      && (o.Gives? ==>
           && c.lane.got == u.down.got + (if |o.bytes| <= room then o.bytes else o.bytes[..room])
           && !c.lane.ended)
      && (o.Ends? ==> c.lane.got == u.down.got && c.lane.ended)
      && (o.Throws? ==> c.broke)
  {
    hide Fill;
    FillReads(script, u.Down());
  }

  /** Of what waits for the server as much is written as its socket takes; the rest waits on. */
  lemma TurnWrites(script: seq<Outcome>, w: Wire)
    requires w.end.Open? && w.up.ended && w.up.waiting != [] && w.at < |script|
    ensures
      var o, r, all := script[w.at], RelayWire(script, w), w.up.waiting;
      && (o.Takes? ==>
           var n := if o.n <= |all| then o.n else |all|;
           r.up.sent == w.up.sent + all[..n] && r.up.waiting == all[n..])
      && (!o.Takes? ==> r.up == w.up)
      && (o.Throws? ==> r.end == Closed(Broke))
  {
    assert w.up.waiting[0..] == w.up.waiting && w.up.sent + w.up.waiting[..0] == w.up.sent;
  }

  /** What either socket gives in a turn of the relay. */
  datatype Exchange = Exchange(up: seq<Byte>, down: seq<Byte>)

  function Ups(xs: seq<Exchange>): seq<Byte> {
    if xs == [] then [] else xs[0].up + Ups(xs[1..])
  }

  function Downs(xs: seq<Exchange>): seq<Byte> {
    if xs == [] then [] else xs[0].down + Downs(xs[1..])
  }

  /** A read that gives m, and a write that takes all of it if there is any. */
  function Passing(m: seq<Byte>): seq<Outcome> {
    [Gives(m)] + if m == [] then [] else [Takes(65536)]
  }

  /** Both sockets give what they have, take what they are offered, and then end. */
  function Talk(xs: seq<Exchange>): seq<Outcome> {
    if xs == [] then [Ends, Ends] else Passing(xs[0].up) + Passing(xs[0].down) + Talk(xs[1..])
  }

  predicate Fits(xs: seq<Exchange>) {
    forall i :: 0 <= i < |xs| ==> |xs[i].up| <= 65536 && |xs[i].down| <= 65536
  }

  lemma CarriesChunk(script: seq<Outcome>, s: Step, m: seq<Byte>)
    requires !s.broke && !s.lane.ended && s.lane.waiting == [] && |m| <= 65536
    requires s.at + |Passing(m)| <= |script| && script[s.at..s.at + |Passing(m)|] == Passing(m)
    ensures Carry(script, s)
      == Step(s.at + |Passing(m)|, s.lane.(got := s.lane.got + m, sent := s.lane.sent + m), false)
  {
    hide Fill, Flush;
    var p := script[s.at..s.at + |Passing(m)|];
    assert script[s.at] == p[0] == Gives(m);
    FillReads(script, s);
    assert [] + m == m;
    var f := Fill(script, s);
    if m != [] {
      assert script[s.at + 1] == p[1] == Takes(65536);
    }
    FlushesLane(script, f);
  }

  lemma CarriesEnd(script: seq<Outcome>, s: Step)
    requires !s.broke && !s.lane.ended && s.lane.waiting == [] && s.at < |script| && script[s.at] == Ends
    ensures Carry(script, s) == Step(s.at + 1, s.lane.(ended := true), false)
  {
    hide Fill, Flush;
    FillReads(script, s);
    FlushesLane(script, Fill(script, s));
  }

  /** The outcomes that stand at a place in the script. */
  predicate Stands(script: seq<Outcome>, at: nat, part: seq<Outcome>) {
    at + |part| <= |script| && script[at..at + |part|] == part
  }

  lemma StandsBoth(script: seq<Outcome>, at: nat, a: seq<Outcome>, b: seq<Outcome>)
    requires Stands(script, at, a + b)
    ensures Stands(script, at, a) && Stands(script, at + |a|, b)
  {
    var s := script[at..at + |a + b|];
    assert s[..|a|] == a && s[|a|..] == b;
  }

  /**
   * Main theorem on the relay. Where both sockets give what they have in any chunks, take what they
   * are offered and then end, every byte is read from either peer and written to the other, in order,
   * and the connection is closed as done.
   */
  lemma {:induction false} TalkDelivers(script: seq<Outcome>, w: Wire, xs: seq<Exchange>)
    requires w.end.Open? && !w.up.ended && !w.down.ended && w.up.waiting == [] && w.down.waiting == []
    requires Fits(xs) && Stands(script, w.at, Talk(xs))
    ensures
      var r := Turns(script, w, |xs| + 1);
      && r.end == Closed(Done) && r.at == w.at + |Talk(xs)|
      && r.up == Lane(w.up.got + Ups(xs), true, [], w.up.sent + Ups(xs))
      && r.down == Lane(w.down.got + Downs(xs), true, [], w.down.sent + Downs(xs))
    decreases |xs|
  {
    hide RelayWire, Passing, Stands;
    if xs == [] {
      TalkEnds(script, w);
      assert w.up.got + [] == w.up.got && w.up.sent + [] == w.up.sent;
      assert w.down.got + [] == w.down.got && w.down.sent + [] == w.down.sent;
    } else {
      var x, rest := xs[0], xs[1..];
      StandsBoth(script, w.at, Passing(x.up) + Passing(x.down), Talk(rest));
      TalkGoesOn(script, w, x);
      var r := RelayWire(script, w);
      TalkDelivers(script, r, rest);
      Joined(w.up.got, x.up, Ups(rest));
      Joined(w.up.sent, x.up, Ups(rest));
      Joined(w.down.got, x.down, Downs(rest));
      Joined(w.down.sent, x.down, Downs(rest));
    }
  }

  lemma TalkEnds(script: seq<Outcome>, w: Wire)
    requires w.end.Open? && !w.up.ended && !w.down.ended && w.up.waiting == [] && w.down.waiting == []
    requires Stands(script, w.at, [Ends, Ends])
    ensures RelayWire(script, w)
      == Wire(w.at + 2, w.up.(ended := true), w.down.(ended := true), Closed(Done))
  {
    hide Carry;
    var p := script[w.at..w.at + 2];
    assert script[w.at] == p[0] && script[w.at + 1] == p[1];
    CarriesEnd(script, w.Up());
    CarriesEnd(script, w.WithUp(Carry(script, w.Up())).Down());
  }

  lemma TalkGoesOn(script: seq<Outcome>, w: Wire, x: Exchange)
    requires w.end.Open? && !w.up.ended && !w.down.ended && w.up.waiting == [] && w.down.waiting == []
    requires |x.up| <= 65536 && |x.down| <= 65536 && Stands(script, w.at, Passing(x.up) + Passing(x.down))
    ensures RelayWire(script, w)
      == Wire(w.at + |Passing(x.up)| + |Passing(x.down)|,
           w.up.(got := w.up.got + x.up, sent := w.up.sent + x.up),
           w.down.(got := w.down.got + x.down, sent := w.down.sent + x.down), Open)
  {
    hide Carry, Passing;
    StandsBoth(script, w.at, Passing(x.up), Passing(x.down));
    CarriesChunk(script, w.Up(), x.up);
    CarriesChunk(script, w.WithUp(Carry(script, w.Up())).Down(), x.down);
  }

  // ---- the client's handshake ----

  /** Fewer obliging outcomes are obliging too, and so are the later ones. */
  lemma ObligingStill(script: seq<Outcome>, at: nat, n: nat, at': nat, n': nat)
    requires Obliging(script, at, n) && at <= at' && at' + n' <= at + n
    ensures Obliging(script, at', n')
  {
  }

  /** An answer goes out at once. */
  lemma Says(script: seq<Outcome>, w: Wire, m: seq<Byte>)
    requires w.end.Open? && w.down.waiting == [] && |m| <= 65536 && Obliging(script, w.at, 1)
    ensures
      var f := FlushDown(script, w.SayDown(m));
      && f.end == w.end && f.up == w.up && f.down == w.down.(sent := w.down.sent + m)
      && w.at <= f.at <= w.at + 1
  {
    hide FlushDown;
    assert [] + m == m;
    FlushesDown(script, w.SayDown(m));
  }

  /** What is left of the conversation comes after the answer just given. */
  lemma SaysMore(w: Wire, f: Wire, r: Wire, m: seq<Byte>, c: Client)
    requires f.up == w.up && f.down == w.down.(sent := w.down.sent + m)
    requires r.up == f.up && r.down == f.down.(sent := f.down.sent + c.out)
    ensures r.up == w.up && r.down == w.down.(sent := w.down.sent + c.After(m).out)
  {
    assert w.down.sent + m + c.out == w.down.sent + (m + c.out);
  }

  /** Every message that has arrived is answered in full, and nothing else is said. */
  ghost predicate AllAnswered(w: Wire, r: Wire, c: Client, n: nat) {
    && r.up == w.up && r.down == w.down.(sent := w.down.sent + c.out)
    && r.end == (if c.Dropped? then Closed(Cause.Dropped) else Open)
    && w.at <= r.at <= w.at + n
  }

  lemma {:induction false} ClientAnswers(cfg: Config, script: seq<Outcome>, phase: Phase, hs: seq<Byte>, w: Wire)
    requires ClientPhase(phase) && w.end.Open? && w.down.waiting == []
    requires Obliging(script, w.at, Left(phase) + 2)
    ensures AllAnswered(w, ClientWire(cfg, script, phase, hs, w), ClientRun(cfg, phase, hs), Left(phase) + 2)
    decreases Left(phase)
  {
    match phase
    case ClientGreeting => GreetingAnswered(cfg, script, hs, w);
    case ClientAuth => AuthAnswered(cfg, script, hs, w);
    case ClientRequest => RequestAnswered(cfg, script, hs, w);
  }

  /** An accepted message is answered, and then the rest. */
  lemma AnswersOn(
    cfg: Config, script: seq<Outcome>, phase: Phase, hs: seq<Byte>, w: Wire, m: seq<Byte>, next: Phase, rest: seq<Byte>)
    requires ClientPhase(phase) && ClientPhase(next) && Left(next) < Left(phase)
    requires w.end.Open? && w.down.waiting == [] && |m| <= 65536 && Obliging(script, w.at, Left(phase) + 2)
    requires ClientMessage(cfg, script, phase, hs, w) == Turn(w.SayDown(m), More, next, rest)
    requires ClientRun(cfg, phase, hs) == ClientRun(cfg, next, rest).After(m)
    ensures AllAnswered(w, ClientWire(cfg, script, phase, hs, w), ClientRun(cfg, phase, hs), Left(phase) + 2)
    decreases Left(phase), 0
  {
    hide ClientMessage, ClientRun, ClientWire, FlushDown;
    ObligingStill(script, w.at, Left(phase) + 2, w.at, 1);
    Says(script, w, m);
    ClientGoes(cfg, script, phase, hs, w);
    var f := FlushDown(script, w.SayDown(m));
    ObligingStill(script, w.at, Left(phase) + 2, f.at, Left(next) + 2);
    ClientAnswers(cfg, script, next, rest, f);
    SaysMore(w, f, ClientWire(cfg, script, next, rest, f), m, ClientRun(cfg, next, rest));
  }

  lemma GreetingAnswered(cfg: Config, script: seq<Outcome>, hs: seq<Byte>, w: Wire)
    requires w.end.Open? && w.down.waiting == [] && Obliging(script, w.at, 4)
    ensures AllAnswered(w, ClientWire(cfg, script, ClientGreeting, hs, w), ClientRun(cfg, ClientGreeting, hs), 4)
    decreases 2, 1
  {
    hide ClientRun, ClientWire, FlushDown, ParseClientGreeting;
    GreetingMeans(cfg, hs);
    ClientGoes(cfg, script, ClientGreeting, hs, w);
    var p := ParseClientGreeting(hs, |hs|);
    if p.Ok? && Wanted(cfg).0 in p.value {
      AnswersOn(cfg, script, ClientGreeting, hs, w, [5, Wanted(cfg).0], Wanted(cfg).1, hs[p.consumed..]);
    } else if p.Ok? {
      Says(script, w, [5, 0xFF]);
    } else {
      SaysNothing(script, w);
    }
  }

  lemma AuthAnswered(cfg: Config, script: seq<Outcome>, hs: seq<Byte>, w: Wire)
    requires w.end.Open? && w.down.waiting == [] && Obliging(script, w.at, 3)
    ensures AllAnswered(w, ClientWire(cfg, script, ClientAuth, hs, w), ClientRun(cfg, ClientAuth, hs), 3)
    decreases 1, 1
  {
    hide ClientRun, ClientWire, FlushDown, ParseClientAuth;
    AuthMeans(cfg, hs);
    ClientGoes(cfg, script, ClientAuth, hs, w);
    var p := ParseClientAuth(hs, |hs|);
    if p.Ok? && LoginMatches(cfg, p.value) {
      AnswersOn(cfg, script, ClientAuth, hs, w, [1, 0], ClientRequest, hs[p.consumed..]);
    } else if p.Ok? {
      Says(script, w, [1, 1]);
    } else {
      SaysNothing(script, w);
    }
  }

  lemma RequestAnswered(cfg: Config, script: seq<Outcome>, hs: seq<Byte>, w: Wire)
    requires w.end.Open? && w.down.waiting == [] && Obliging(script, w.at, 2)
    ensures AllAnswered(w, ClientWire(cfg, script, ClientRequest, hs, w), ClientRun(cfg, ClientRequest, hs), 2)
    decreases 0, 1
  {
    hide ClientRun, ClientWire, FlushDown, ParseClientRequest;
    RequestMeans(cfg, hs);
    ClientGoes(cfg, script, ClientRequest, hs, w);
    var p := ParseClientRequest(hs, |hs|);
    if p.Bad? {
      Says(script, w, ClientReply(7));
    } else {
      SaysNothing(script, w);
      SaysNothing(script, w.(at := w.at + 1));
    }
  }

  lemma SaysNothing(script: seq<Outcome>, w: Wire)
    requires w.down.waiting == []
    ensures FlushDown(script, w) == w && w.down.sent + [] == w.down.sent
    ensures FlushDown(script, w.ClosedIf(true, Cause.Dropped)) == w.ClosedIf(true, Cause.Dropped)
  {
    DownStops(script, w);
    DownStops(script, w.ClosedIf(true, Cause.Dropped));
  }

  /**
   * Main theorem on the client's handshake. Where the client's socket gives m and takes what it is
   * offered, an event writes what waited and then every answer that the conversation now calls for.
   */
  lemma ClientIsAnswered(cfg: Config, script: seq<Outcome>, g: Stage, w: Wire, m: seq<Byte>)
    requires ClientPhase(g.phase) && !g.closing && w.end.Open? && |w.down.waiting| <= 65536
    requires |g.hs| < 1024 && |m| <= 1024 - |g.hs|
    requires Obliging(script, w.at, Uses(w.down))
    requires w.at + Uses(w.down) < |script| && script[w.at + Uses(w.down)] == Gives(m)
    requires Obliging(script, w.at + Uses(w.down) + 1, 4)
    ensures
      var r, c := ServiceWire(cfg, script, g, w), ClientRun(cfg, g.phase, g.hs + m);
      && r.up == w.up.(got := w.up.got + m)
      && r.down == w.down.(waiting := [], sent := w.down.sent + w.down.waiting + c.out)
      && r.end == if c.Dropped? then Closed(Cause.Dropped) else Open
  {
    hide ClientRun, ClientWire, FlushDown;
    FlushesDown(script, w);
    var f := FlushDown(script, w);
    var h := HearUp(script, f, m);
    ObligingStill(script, h.at, 4, h.at, Left(g.phase) + 2);
    ClientAnswers(cfg, script, g.phase, g.hs + m, h);
  }

  /** And one that is to be closed is closed, once what waited has gone out. */
  lemma ClosingIsFlushed(cfg: Config, script: seq<Outcome>, g: Stage, w: Wire)
    requires ClientPhase(g.phase) && g.closing && w.end.Open? && |w.down.waiting| <= 65536
    requires Obliging(script, w.at, Uses(w.down))
    ensures
      var r := ServiceWire(cfg, script, g, w);
      r.up == w.up && r.down == Emptied(w.down) && r.end == Closed(Flushed)
  {
    hide FlushDown;
    FlushesDown(script, w);
  }

  /** A client that hangs up, or whose socket throws, is closed for that. */
  lemma ClientHangsUp(cfg: Config, script: seq<Outcome>, g: Stage, w: Wire)
    requires ClientPhase(g.phase) && !g.closing && w.end.Open? && w.down.waiting == [] && |g.hs| < 1024
    requires w.at < |script| && (script[w.at] == Ends || script[w.at] == Throws)
    ensures ServiceWire(cfg, script, g, w)
      == w.(at := w.at + 1, end := Closed(if script[w.at] == Ends then HungUp else Broke))
  {
    hide ClientWire, FlushDown;
    DownStops(script, w);
    assert w.up.got + [] == w.up.got;
  }

  // ---- the server's handshake ----

  lemma Tells(script: seq<Outcome>, w: Wire, m: seq<Byte>)
    requires w.end.Open? && w.up.waiting == [] && |m| <= 65536 && Obliging(script, w.at, 1)
    ensures
      var f := FlushUp(script, w.SayUp(m));
      && f.end == w.end && f.down == w.down && f.up == w.up.(sent := w.up.sent + m)
      && w.at <= f.at <= w.at + 1
  {
    hide FlushUp;
    assert [] + m == m;
    FlushesUp(script, w.SayUp(m));
  }

  lemma TellsNothing(script: seq<Outcome>, w: Wire)
    requires w.up.waiting == [] && w.end.Open?
    ensures FlushUp(script, w) == w && w.up.sent + [] == w.up.sent && w.down.sent + [] == w.down.sent
  {
  }

  /** A failure is reported, and the connection closed with it. */
  lemma Reports(script: seq<Outcome>, w: Wire)
    requires w.end.Open? && w.down.waiting == [] && Obliging(script, w.at, 1)
    ensures
      var f := FailWire(script, w);
      && f.end == Closed(Flushed) && f.up == w.up && w.at <= f.at <= w.at + 1
      && f.down == w.down.(sent := w.down.sent + [5, 5, 0, 1, 0, 0, 0, 0, 0, 0])
  {
    hide FlushDown;
    Says(script, w, ClientReply(5));
  }

  /** A turn of the relay in which nobody speaks writes what waits. */
  lemma SilentTurn(script: seq<Outcome>, w: Wire)
    requires w.end.Open? && !w.up.ended && !w.down.ended && Obliging(script, w.at, 4)
    requires |w.up.waiting| < 65536 && |w.down.waiting| < 65536
    ensures
      var r := RelayWire(script, w);
      r.end == Open && r.up == Emptied(w.up) && r.down == Emptied(w.down) && w.at <= r.at <= w.at + 4
  {
    hide Carry;
    SilentLane(script, w.Up());
    var u := w.WithUp(Carry(script, w.Up()));
    ObligingStill(script, w.at, 4, u.at, 2);
    SilentLane(script, u.Down());
  }

  lemma SilentLane(script: seq<Outcome>, s: Step)
    requires !s.broke && !s.lane.ended && |s.lane.waiting| < 65536 && Obliging(script, s.at, 2)
    ensures
      var c := Carry(script, s);
      !c.broke && c.lane == Emptied(s.lane) && s.at <= c.at <= s.at + 2
  {
    hide Flush;
    var f := Fill(script, s);
    assert s.lane.got + [] == s.lane.got && s.lane.waiting + [] == s.lane.waiting;
    FlushesLane(script, f);
  }

  /** Every reply that has arrived is acted on in full, and nothing else is said to either peer. */
  ghost predicate AllActedOn(w: Wire, r: Wire, c: Server, early: seq<Byte>, n: nat) {
    && w.at <= r.at <= w.at + n
    && match c
       case Pending(o, _, _) => r.end == Open && r.up == w.up.(sent := w.up.sent + o) && r.down == w.down
       case Crashed(o) =>
         r.end == Closed(Cause.Crashed) && r.up == w.up.(sent := w.up.sent + o) && r.down == w.down
       case Failed(o) =>
         && r.end == Closed(Flushed) && r.up == w.up.(sent := w.up.sent + o)
         && r.down == w.down.(sent := w.down.sent + [5, 5, 0, 1, 0, 0, 0, 0, 0, 0])
       case Up(o, rest) =>
         && r.end == Open && r.up == w.up.(sent := w.up.sent + o + early)
         && r.down == w.down.(sent := w.down.sent + [5, 0, 0, 1, 0, 0, 0, 0, 0, 0] + rest)
  }

  /** An obliging world, with nothing waiting, and sizes as the handshake leaves them. */
  ghost predicate Ready(script: seq<Outcome>, r: Request, early: seq<Byte>, hs: seq<Byte>, w: Wire, n: nat) {
    && w.end.Open? && w.up.waiting == [] && w.down.waiting == [] && !w.up.ended && !w.down.ended
    && RequestOk(r) && |early| <= 1024 && |hs| <= 1024 && Obliging(script, w.at, n)
  }

  lemma {:induction false} ServerAnswers(
    cfg: Config, script: seq<Outcome>, r: Request, early: seq<Byte>, phase: Phase, hs: seq<Byte>, w: Wire)
    requires UpstreamPhase(phase) && Ready(script, r, early, hs, w, Left(phase) + 4)
    ensures AllActedOn(w, ServerWire(cfg, script, r, early, phase, hs, w), ServerRun(cfg, r, phase, hs), early,
      Left(phase) + 4)
    decreases Left(phase), 2
  {
    match phase
    case UpstreamGreeting => ChoiceActedOn(cfg, script, r, early, hs, w);
    case UpstreamAuth => LoginReplyActedOn(cfg, script, r, early, hs, w);
    case UpstreamCommand => ReplyActedOn(cfg, script, r, early, hs, w);
  }

  lemma ActsOn(
    cfg: Config, script: seq<Outcome>, r: Request, early: seq<Byte>, phase: Phase, hs: seq<Byte>, w: Wire,
    m: seq<Byte>, next: Phase, rest: seq<Byte>)
    requires UpstreamPhase(phase) && UpstreamPhase(next) && Left(next) < Left(phase) && |m| <= 65536
    requires Ready(script, r, early, hs, w, Left(phase) + 4) && |rest| <= |hs|
    requires ServerMessage(cfg, script, r, early, phase, hs, w) == Turn(w.SayUp(m), More, next, rest)
    requires ServerRun(cfg, r, phase, hs) == ServerRun(cfg, r, next, rest).After(m)
    ensures AllActedOn(w, ServerWire(cfg, script, r, early, phase, hs, w), ServerRun(cfg, r, phase, hs), early,
      Left(phase) + 4)
    decreases Left(phase), 0
  {
    hide ServerMessage, ServerRun, ServerWire, FlushUp, RequestOk;
    ObligingStill(script, w.at, Left(phase) + 4, w.at, 1);
    Tells(script, w, m);
    ServerGoes(cfg, script, r, early, phase, hs, w);
    var f := FlushUp(script, w.SayUp(m));
    ObligingStill(script, w.at, Left(phase) + 4, f.at, Left(next) + 4);
    ServerAnswers(cfg, script, r, early, next, rest, f);
    Joined(w.up.sent, m, ServerRun(cfg, r, next, rest).out);
  }

  lemma Joined(a: seq<Byte>, b: seq<Byte>, c: seq<Byte>)
    ensures a + b + c == a + (b + c)
  {
  }

  lemma ChoiceActedOn(
    cfg: Config, script: seq<Outcome>, r: Request, early: seq<Byte>, hs: seq<Byte>, w: Wire)
    requires Ready(script, r, early, hs, w, 6)
    ensures AllActedOn(w, ServerWire(cfg, script, r, early, Phase.UpstreamGreeting, hs, w),
      ServerRun(cfg, r, Phase.UpstreamGreeting, hs), early, 6)
    decreases 2, 1
  {
    hide ServerRun, ServerWire, FlushUp, FailWire, ParseUpstreamGreetingReply, AuthFrame, Command, RequestOk;
    ChoiceMeans(cfg, r, hs);
    ServerGoes(cfg, script, r, early, Phase.UpstreamGreeting, hs, w);
    ObligingStill(script, w.at, 6, w.at, 1);
    FrameSizes(cfg, r);
    var p := ParseUpstreamGreetingReply(hs, |hs|);
    if p.Ok? && p.value != 2 {
      ActsOn(cfg, script, r, early, Phase.UpstreamGreeting, hs, w, Command(r, 0), Phase.UpstreamCommand,
        hs[p.consumed..]);
    } else if p.Ok? && AuthFrame(cfg.Upstream()).Some? {
      ActsOn(cfg, script, r, early, Phase.UpstreamGreeting, hs, w, AuthFrame(cfg.Upstream()).value, Phase.UpstreamAuth,
        hs[p.consumed..]);
    } else if p.Bad? {
      Reports(script, w);
      TellsNothing(script, w);
    } else {
      TellsNothing(script, w);
    }
  }

  lemma FrameSizes(cfg: Config, r: Request)
    requires RequestOk(r)
    ensures |Command(r, 0)| <= 65536
    ensures AuthFrame(cfg.Upstream()).Some? ==> |AuthFrame(cfg.Upstream()).value| <= 65536
  {
  }

  lemma LoginReplyActedOn(
    cfg: Config, script: seq<Outcome>, r: Request, early: seq<Byte>, hs: seq<Byte>, w: Wire)
    requires Ready(script, r, early, hs, w, 5)
    ensures AllActedOn(w, ServerWire(cfg, script, r, early, Phase.UpstreamAuth, hs, w),
      ServerRun(cfg, r, Phase.UpstreamAuth, hs), early, 5)
    decreases 1, 1
  {
    hide ServerRun, ServerWire, FlushUp, FailWire, ParseUpstreamAuthReply, AuthFrame, Command, RequestOk;
    LoginReplyMeans(cfg, r, hs);
    ServerGoes(cfg, script, r, early, Phase.UpstreamAuth, hs, w);
    ObligingStill(script, w.at, 5, w.at, 1);
    FrameSizes(cfg, r);
    var p := ParseUpstreamAuthReply(hs, |hs|);
    if p.Ok? {
      ActsOn(cfg, script, r, early, Phase.UpstreamAuth, hs, w, Command(r, 0), Phase.UpstreamCommand, hs[p.consumed..]);
    } else if p.Bad? {
      Reports(script, w);
      TellsNothing(script, w);
    } else {
      TellsNothing(script, w);
    }
  }

  lemma ReplyActedOn(
    cfg: Config, script: seq<Outcome>, r: Request, early: seq<Byte>, hs: seq<Byte>, w: Wire)
    requires Ready(script, r, early, hs, w, 4)
    ensures AllActedOn(w, ServerWire(cfg, script, r, early, Phase.UpstreamCommand, hs, w),
      ServerRun(cfg, r, Phase.UpstreamCommand, hs), early, 4)
    decreases 0, 1
  {
    hide ServerRun, ServerWire, FlushUp, FailWire, RelayWire, ParseUpstreamCommandReply, AuthFrame, Command, RequestOk;
    CommandReplyMeans(cfg, r, hs);
    ServerGoes(cfg, script, r, early, Phase.UpstreamCommand, hs, w);
    ObligingStill(script, w.at, 4, w.at, 1);
    TellsNothing(script, w);
    var p := ParseUpstreamCommandReply(hs, |hs|);
    if p.Ok? {
      var rest := hs[p.consumed..];
      var u := w.SayDown(ClientReply(0) + rest).SayUp(early);
      assert u.down.waiting == ClientReply(0) + rest && u.up.waiting == early;
      SilentTurn(script, u);
      assert w.down.sent + (ClientReply(0) + rest) == w.down.sent + ClientReply(0) + rest;
    } else if p.Bad? {
      Reports(script, w);
    }
  }

  /**
   * Main theorem on the server's handshake. Where the server's socket gives m and both sockets take
   * what they are offered, an event writes what waited and then all that the replies now call for:
   * frames to the server, and the outcome to the client.
   */
  lemma ServerIsAnswered(cfg: Config, script: seq<Outcome>, g: Stage, w: Wire, m: seq<Byte>)
    requires UpstreamPhase(g.phase) && w.end.Open? && !w.up.ended && !w.down.ended
    requires |w.up.waiting| <= 65536 && |w.down.waiting| <= 65536
    requires |g.hs| < 1024 && |m| <= 1024 - |g.hs| && RequestOk(g.request) && |g.early| <= 1024
    requires Obliging(script, w.at, Uses(w.up) + Uses(w.down))
    requires
      var at := w.at + Uses(w.up) + Uses(w.down);
      at < |script| && script[at] == Gives(m) && Obliging(script, at + 1, 6)
    ensures
      var at := w.at + Uses(w.up) + Uses(w.down) + 1;
      AllActedOn(
        Wire(at, Emptied(w.up), Emptied(w.down).(got := w.down.got + m), Open), ServiceWire(cfg, script, g, w),
        ServerRun(cfg, g.request, g.phase, g.hs + m), g.early, 6)
  {
    hide ServerRun, ServerWire, FlushDown, FlushUp, RequestOk, AllActedOn;
    ObligingStill(script, w.at, Uses(w.up) + Uses(w.down), w.at, Uses(w.up));
    FlushesUp(script, w);
    var u := FlushUp(script, w);
    ObligingStill(script, w.at, Uses(w.up) + Uses(w.down), u.at, Uses(w.down));
    FlushesDown(script, u);
    var h := HearDown(script, FlushDown(script, u), m);
    ObligingStill(script, h.at, 6, h.at, Left(g.phase) + 4);
    ServerAnswers(cfg, script, g.request, g.early, g.phase, g.hs + m, h);
    ActedOnWithin(h, ServiceWire(cfg, script, g, w), ServerRun(cfg, g.request, g.phase, g.hs + m), g.early,
      Left(g.phase) + 4);
  }

  lemma ActedOnWithin(w: Wire, r: Wire, c: Server, early: seq<Byte>, n: nat)
    requires AllActedOn(w, r, c, early, n) && n <= 6
    ensures AllActedOn(w, r, c, early, 6)
  {
  }

  /** A server that hangs up has failed: the client is told so and closed; one that throws closes at once. */
  lemma ServerHangsUp(cfg: Config, script: seq<Outcome>, g: Stage, w: Wire)
    requires UpstreamPhase(g.phase) && w.end.Open? && w.up.waiting == [] && w.down.waiting == [] && |g.hs| < 1024
    requires w.at < |script|
    ensures
      var r := ServiceWire(cfg, script, g, w);
      && (script[w.at] == Throws ==> r == w.(at := w.at + 1, end := Closed(Broke)))
      && (script[w.at] == Ends && Obliging(script, w.at + 1, 1) ==>
           && r.end == Closed(Flushed) && r.up == w.up
           && r.down == w.down.(sent := w.down.sent + [5, 5, 0, 1, 0, 0, 0, 0, 0, 0]))
  {
    hide ServerWire, FailWire, FlushDown;
    TellsNothing(script, w);
    DownStops(script, w);
    assert w.down.got + [] == w.down.got;
    if script[w.at] == Ends && Obliging(script, w.at + 1, 1) {
      Reports(script, HearDown(script, w, []));
    }
  }

  /**
   * A connect that has finished puts the greeting on its way. One that has failed is reported, but only
   * where nothing else waits for the client, and closed once what then waits has gone out.
   */
  lemma ConnectActs(cfg: Config, script: seq<Outcome>, w: Wire)
    requires w.end.Open? && |w.down.waiting| <= 65536 && w.at < |script|
    ensures
      var r := ConnectWire(cfg, script, w);
      && (script[w.at] == Connects ==>
           r == w.(at := w.at + 1, up := w.up.(waiting :=
             w.up.waiting + [5, 1, if cfg.username != None && cfg.password != None then 2 else 0])))
      && (script[w.at] == Throws && Obliging(script, w.at + 1, 1) ==>
           && r.end == Closed(Flushed) && r.up == w.up
           && r.down == w.down.(waiting := [], sent := w.down.sent +
                if w.down.waiting == [] then [5, 5, 0, 1, 0, 0, 0, 0, 0, 0] else w.down.waiting))
  {
    hide FlushDown;
    var o := w.(at := w.at + 1);
    if script[w.at] == Throws && Obliging(script, w.at + 1, 1) {
      if w.down.waiting == [] {
        Reports(script, o);
      } else {
        FlushesDown(script, o);
      }
    }
  }
}
