/**
 * How the bridge judges either peer, told by the octets of the whole conversation: exactly which
 * clients get a request through or are refused or dropped, and exactly which servers bring the relay
 * up or fail (sections 3, 4 and 6 of RFC 1928 and section 2 of RFC 1929).
 */
module Verdicts {
  import opened Bytes
  import opened Wrappers
  import opened SocksProtocol
  import opened Handshake

  // ---- the client's octets ----

  /** A list of methods, then t. */
  ghost predicate Offers(b: seq<Byte>, m: seq<Byte>, t: seq<Byte>) {
    1 <= |m| <= 255 && b == [5, |m|] + m + t
  }

  /** A name and a password, then t. */
  ghost predicate LogsIn(b: seq<Byte>, u: seq<Byte>, p: seq<Byte>, t: seq<Byte>) {
    |u| <= 255 && |p| <= 255 && b == [1, |u|] + u + [|p|] + p + t
  }

  /** Four, sixteen or a counted number of octets of address. */
  ghost predicate IsAddress(raw: seq<Byte>) {
    || (|raw| == 5 && raw[0] == 1)
    || (|raw| == 17 && raw[0] == 4)
    || (|raw| >= 2 && raw[0] == 3 && |raw| - 2 == raw[1])
  }

  /** A command, an address and a port, then t. */
  ghost predicate Requests(b: seq<Byte>, r: Request, t: seq<Byte>) {
    && IsAddress(r.rawAddr) && |r.portBytes| == 2
    && exists rsv: Byte :: b == [5, r.cmd, rsv] + r.rawAddr + r.portBytes + t
  }

  /** Local clients must log in exactly where both a name and a password are set. */
  ghost predicate Guarded(cfg: Config) {
    cfg.localUsername != None && cfg.localPassword != None
  }

  /** A client that offers the method asked for and, where it must, logs in as set; then t. */
  ghost predicate Enters(cfg: Config, b: seq<Byte>, t: seq<Byte>) {
    if Guarded(cfg) then
      exists m, l :: 2 in m && Offers(b, m, l) && LogsIn(l, cfg.localUsername.value, cfg.localPassword.value, t)
    else exists m :: 0 in m && Offers(b, m, t)
  }

  /** What such a client has been told. */
  function Welcome(cfg: Config): seq<Byte> {
    if cfg.localUsername.Some? && cfg.localPassword.Some? then [5, 2, 1, 0] else [5, 0]
  }

  lemma OffersParse(b: seq<Byte>, m: seq<Byte>, t: seq<Byte>)
    ensures Offers(b, m, t) <==>
      var p := ParseClientGreeting(b, |b|);
      p == Ok(m, 2 + |m|) && 2 + |m| <= |b| && t == b[2 + |m|..]
  {
    hide ParseClientGreeting;
    if Offers(b, m, t) {
      GreetingFirst(m, t);
    }
    if ParseClientGreeting(b, |b|) == Ok(m, 2 + |m|) {
      TakeGreeting(b);
    }
  }

  lemma LogsInParses(b: seq<Byte>, u: seq<Byte>, p: seq<Byte>, t: seq<Byte>)
    ensures LogsIn(b, u, p, t) <==>
      var n := 3 + |u| + |p|;
      ParseClientAuth(b, |b|) == Ok(Login(u, p), n) && n <= |b| && t == b[n..]
  {
    hide ParseClientAuth;
    if LogsIn(b, u, p, t) {
      AuthFirst(Login(u, p), t);
    }
    if ParseClientAuth(b, |b|) == Ok(Login(u, p), 3 + |u| + |p|) {
      TakeAuth(b);
    }
  }

  lemma RequestsParses(b: seq<Byte>, r: Request, t: seq<Byte>)
    ensures Requests(b, r, t) <==>
      var n := 5 + |r.rawAddr|;
      ParseClientRequest(b, |b|) == Ok(r, n) && n <= |b| && t == b[n..]
  {
    hide ParseClientRequest;
    var n := 5 + |r.rawAddr|;
    if Requests(b, r, t) {
      var rsv: Byte :| b == [5, r.cmd, rsv] + r.rawAddr + r.portBytes + t;
      RequestFirst(r, rsv, t);
    }
    if ParseClientRequest(b, |b|) == Ok(r, n) {
      var rsv := TakeRequest(b);
      assert b == [5, r.cmd, rsv] + r.rawAddr + r.portBytes + b[n..];
    }
  }

  /** What comes of a list of methods. */
  lemma AfterOffer(cfg: Config, b: seq<Byte>)
    ensures
      var c, p := ClientRun(cfg, ClientGreeting, b), ParseClientGreeting(b, |b|);
      && (p.NeedMore? ==> c.Waiting?)
      && (p.Bad? <==> |b| >= 2 && (b[0] != 5 || b[1] == 0))
      && (p.Bad? ==> c == Dropped([]))
      && (p.Ok? ==> (
        && p.consumed <= |b| && Offers(b, p.value, b[p.consumed..])
        && c == if (if Guarded(cfg) then 2 else 0) !in p.value then Refused([5, 0xFF])
           else if Guarded(cfg) then ClientRun(cfg, ClientAuth, b[p.consumed..]).After([5, 2])
           else ClientRun(cfg, ClientRequest, b[p.consumed..]).After([5, 0])))
  {
    hide ClientRun;
    GreetingMeans(cfg, b);
    var p := ParseClientGreeting(b, |b|);
    if p.Ok? {
      OffersParse(b, p.value, b[p.consumed..]);
    }
  }

  /** What comes of a login. */
  lemma AfterLogin(cfg: Config, l: seq<Byte>)
    requires Guarded(cfg)
    ensures
      var c, p := ClientRun(cfg, ClientAuth, l), ParseClientAuth(l, |l|);
      && (p.NeedMore? ==> c.Waiting?)
      && (p.Bad? <==> |l| >= 2 && l[0] != 1)
      && (p.Bad? ==> c == Dropped([]))
      && (p.Ok? ==> (
        && p.consumed <= |l| && LogsIn(l, p.value.user, p.value.pass, l[p.consumed..])
        && c == if cfg.localUsername == Some(p.value.user) && cfg.localPassword == Some(p.value.pass)
           then ClientRun(cfg, ClientRequest, l[p.consumed..]).After([1, 0]) else Refused([1, 1])))
  {
    hide ClientRun;
    AuthMeans(cfg, l);
    var p := ParseClientAuth(l, |l|);
    if p.Ok? {
      LogsInParses(l, p.value.user, p.value.pass, l[p.consumed..]);
    }
  }

  /** What comes of a request. */
  lemma AfterRequest(cfg: Config, t: seq<Byte>)
    ensures
      var c, p := ClientRun(cfg, ClientRequest, t), ParseClientRequest(t, |t|);
      && (p.NeedMore? ==> c.Waiting?)
      && (p.Bad? <==> |t| >= 4 && (t[0] != 5 || t[3] !in {1, 3, 4}))
      && (p.Bad? ==> c == Refused([5, 7, 0, 1, 0, 0, 0, 0, 0, 0]))
      && (p.Ok? ==>
           p.consumed <= |t| && Requests(t, p.value, t[p.consumed..]) && c == Asked([], p.value, t[p.consumed..]))
  {
    hide ClientRun;
    RequestMeans(cfg, t);
    var p := ParseClientRequest(t, |t|);
    if p.Ok? {
      RequestsParses(t, p.value, t[p.consumed..]);
    }
  }

  /** A client that enters goes on to its request. */
  lemma Entered(cfg: Config, b: seq<Byte>, t: seq<Byte>)
    requires Enters(cfg, b, t)
    ensures ClientRun(cfg, ClientGreeting, b) == ClientRun(cfg, ClientRequest, t).After(Welcome(cfg))
  {
    hide ClientRun, Offers, LogsIn, ParseClientGreeting, ParseClientAuth;
    AfterOffer(cfg, b);
    if Guarded(cfg) {
      var m, l :| 2 in m && Offers(b, m, l) && LogsIn(l, cfg.localUsername.value, cfg.localPassword.value, t);
      OffersParse(b, m, l);
      AfterLogin(cfg, l);
      LogsInParses(l, cfg.localUsername.value, cfg.localPassword.value, t);
      ClientAfter(ClientRun(cfg, ClientRequest, t), [5, 2], [1, 0]);
      assert [5, 2] + [1, 0] == [5, 2, 1, 0];
    } else {
      var m :| 0 in m && Offers(b, m, t);
      OffersParse(b, m, t);
    }
  }

  /** One that has asked, or was refused at its request, had entered. */
  lemma HadEntered(cfg: Config, b: seq<Byte>) returns (t: seq<Byte>)
    ensures
      var c := ClientRun(cfg, ClientGreeting, b);
      c.Asked? || (c.Refused? && |c.out| > 4) ==> Enters(cfg, b, t)
  {
    hide ClientRun, Offers, LogsIn, ParseClientGreeting, ParseClientAuth;
    AfterOffer(cfg, b);
    var p := ParseClientGreeting(b, |b|);
    t := if p.Ok? then b[p.consumed..] else [];
    if p.Ok? && Guarded(cfg) {
      AfterLogin(cfg, t);
      var q, l := ParseClientAuth(t, |t|), t;
      t := if q.Ok? then l[q.consumed..] else [];
      if q.Ok? && 2 in p.value && cfg.localUsername == Some(q.value.user) && cfg.localPassword == Some(q.value.pass) {
        assert 2 in p.value && Offers(b, p.value, l);
      }
    }
  }

  /** A client's request goes through exactly if it enters and then makes it; what follows is kept. */
  lemma AskedExactly(cfg: Config, b: seq<Byte>, r: Request, rest: seq<Byte>)
    ensures ClientRun(cfg, ClientGreeting, b) == Asked(Welcome(cfg), r, rest)
      <==> exists t :: Enters(cfg, b, t) && Requests(t, r, rest)
    ensures ClientRun(cfg, ClientGreeting, b).Asked? ==> ClientRun(cfg, ClientGreeting, b).out == Welcome(cfg)
  {
    hide ClientRun, Enters, Requests, ParseClientRequest;
    var t := HadEntered(cfg, b);
    if Enters(cfg, b, t) {
      Entered(cfg, b, t);
      AfterRequest(cfg, t);
      assert Welcome(cfg) + [] == Welcome(cfg);
    }
    forall t | Enters(cfg, b, t) && Requests(t, r, rest)
      ensures ClientRun(cfg, ClientGreeting, b) == Asked(Welcome(cfg), r, rest)
    {
      Entered(cfg, b, t);
      RequestsParses(t, r, rest);
      AfterRequest(cfg, t);
      assert Welcome(cfg) + [] == Welcome(cfg);
    }
  }

  /** A client is dropped without a word exactly for a wrong version or no methods, or a login of another version. */
  lemma DroppedExactly(cfg: Config, b: seq<Byte>)
    ensures ClientRun(cfg, ClientGreeting, b).Dropped? <==>
      || (|b| >= 2 && (b[0] != 5 || b[1] == 0))
      || (Guarded(cfg) && exists m, l :: 2 in m && Offers(b, m, l) && |l| >= 2 && l[0] != 1)
  {
    hide ClientRun, Offers, LogsIn, ParseClientGreeting, ParseClientAuth, ParseClientRequest;
    AfterOffer(cfg, b);
    var p := ParseClientGreeting(b, |b|);
    if p.Ok? {
      var l := b[p.consumed..];
      AfterRequest(cfg, l);
      if Guarded(cfg) {
        AfterLogin(cfg, l);
        var q := ParseClientAuth(l, |l|);
        if q.Ok? {
          AfterRequest(cfg, l[q.consumed..]);
        }
      }
    }
    forall m, l | Offers(b, m, l)
      ensures p.Ok? && p.value == m && l == b[p.consumed..]
    {
      OffersParse(b, m, l);
    }
  }

  /** Why a client is told no, and in which words. */
  ghost predicate Unwelcome(cfg: Config, b: seq<Byte>, o: seq<Byte>) {
    || (o == [5, 0xFF] && exists m, t :: Offers(b, m, t) && (if Guarded(cfg) then 2 else 0) !in m)
    || (o == [5, 2, 1, 1] && Guarded(cfg) && exists m, l, u, p, t ::
         && 2 in m && Offers(b, m, l) && LogsIn(l, u, p, t)
         && (cfg.localUsername != Some(u) || cfg.localPassword != Some(p)))
    || (o == Welcome(cfg) + [5, 7, 0, 1, 0, 0, 0, 0, 0, 0] && exists t ::
         Enters(cfg, b, t) && |t| >= 4 && (t[0] != 5 || t[3] !in {1, 3, 4}))
  }

  /** A client is told no exactly for lack of the method, for a wrong login or for a strange request. */
  lemma RefusedExactly(cfg: Config, b: seq<Byte>, o: seq<Byte>)
    ensures ClientRun(cfg, ClientGreeting, b) == Refused(o) <==> Unwelcome(cfg, b, o)
  {
    if ClientRun(cfg, ClientGreeting, b) == Refused(o) {
      RefusedFor(cfg, b, o);
    }
    if Unwelcome(cfg, b, o) {
      RefusedSo(cfg, b, o);
    }
  }

  lemma RefusedFor(cfg: Config, b: seq<Byte>, o: seq<Byte>)
    requires ClientRun(cfg, ClientGreeting, b) == Refused(o)
    ensures Unwelcome(cfg, b, o)
  {
    hide ClientRun, Offers, LogsIn, Enters, ParseClientGreeting, ParseClientAuth, ParseClientRequest;
    AfterOffer(cfg, b);
    var p := ParseClientGreeting(b, |b|);
    var l := b[p.consumed..];
    var t := HadEntered(cfg, b);
    if Enters(cfg, b, t) {
      Entered(cfg, b, t);
      AfterRequest(cfg, t);
    } else {
      AfterRequest(cfg, l);
      if Guarded(cfg) && 2 in p.value {
        AfterLogin(cfg, l);
        assert [5, 2] + [1, 1] == [5, 2, 1, 1];
        var q := ParseClientAuth(l, |l|);
        if q.Ok? {
          AfterRequest(cfg, l[q.consumed..]);
        }
      }
    }
  }

  lemma RefusedSo(cfg: Config, b: seq<Byte>, o: seq<Byte>)
    requires Unwelcome(cfg, b, o)
    ensures ClientRun(cfg, ClientGreeting, b) == Refused(o)
  {
    hide ClientRun, Offers, LogsIn, Enters, ParseClientGreeting, ParseClientAuth, ParseClientRequest;
    AfterOffer(cfg, b);
    if m, t :| Offers(b, m, t) && (if Guarded(cfg) then 2 else 0) !in m && o == [5, 0xFF] {
      OffersParse(b, m, t);
    } else if Guarded(cfg) && exists m, l, u, p, t ::
        && 2 in m && Offers(b, m, l) && LogsIn(l, u, p, t)
        && (cfg.localUsername != Some(u) || cfg.localPassword != Some(p)) && o == [5, 2, 1, 1] {
      var m, l, u, p, t :| && 2 in m && Offers(b, m, l) && LogsIn(l, u, p, t)
        && (cfg.localUsername != Some(u) || cfg.localPassword != Some(p)) && o == [5, 2, 1, 1];
      OffersParse(b, m, l);
      AfterLogin(cfg, l);
      LogsInParses(l, u, p, t);
      assert [5, 2] + [1, 1] == [5, 2, 1, 1];
    } else {
      var t :| Enters(cfg, b, t) && |t| >= 4 && (t[0] != 5 || t[3] !in {1, 3, 4});
      Entered(cfg, b, t);
      AfterRequest(cfg, t);
    }
  }

  // ---- the server's octets ----

  /** The name and the password that are shown to the server; one that is not set is empty. */
  ghost predicate Shows(cfg: Config, u: seq<Byte>, p: seq<Byte>) {
    && (cfg.username == Some(u) || (cfg.username == None && u == []))
    && (cfg.password == Some(p) || (cfg.password == None && p == []))
  }

  /** A choice of method, then t. */
  ghost predicate Picks(b: seq<Byte>, choice: Byte, t: seq<Byte>) {
    choice != 0xFF && b == [5, choice] + t
  }

  /** A choice and, where it is to log in, a login accepted; then t. */
  ghost predicate Passes(b: seq<Byte>, choice: Byte, u: seq<Byte>, p: seq<Byte>, t: seq<Byte>) {
    if choice == 2 then |u| <= 255 && |p| <= 255 && exists v: Byte :: Picks(b, 2, [v, 0] + t)
    else Picks(b, choice, t)
  }

  /** A reply of code zero with an address and a port, then rest. */
  ghost predicate Grants(t: seq<Byte>, rest: seq<Byte>) {
    exists v: Byte, rsv: Byte, raw, port :: IsGrant(t, v, rsv, raw, port, rest)
  }

  ghost predicate IsGrant(t: seq<Byte>, v: Byte, rsv: Byte, raw: seq<Byte>, port: seq<Byte>, rest: seq<Byte>) {
    IsAddress(raw) && |port| == 2 && t == [v, 0, rsv] + raw + port + rest
  }

  /** The login, and the request with its reserved octet cleared. */
  ghost function LoginSent(u: seq<Byte>, p: seq<Byte>): seq<Byte>
    requires |u| <= 255 && |p| <= 255
  {
    [1, |u|] + u + [|p|] + p
  }

  ghost function RequestSent(r: Request): seq<Byte> {
    [5, r.cmd, 0] + r.rawAddr + r.portBytes
  }

  /** What a server that passes has been sent. */
  ghost predicate Sent(choice: Byte, u: seq<Byte>, p: seq<Byte>, r: Request, o: seq<Byte>) {
    if choice == 2 then |u| <= 255 && |p| <= 255 && o == LoginSent(u, p) + RequestSent(r) else o == RequestSent(r)
  }

  lemma ShowsUpstream(cfg: Config, u: seq<Byte>, p: seq<Byte>)
    requires Shows(cfg, u, p)
    ensures cfg.Upstream() == Login(u, p)
    ensures AuthFrame(cfg.Upstream()) == if |u| <= 255 && |p| <= 255 then Some(LoginSent(u, p)) else None
  {
  }

  lemma GrantsParses(t: seq<Byte>, rest: seq<Byte>)
    ensures
      var q := ParseUpstreamCommandReply(t, |t|);
      && (q.Bad? <==> |t| >= 4 && (t[1] != 0 || t[3] !in {1, 3, 4}))
      && (q.Ok? ==> q.consumed <= |t| && Grants(t, t[q.consumed..]))
      && (Grants(t, rest) ==> q.Ok? && q.consumed <= |t| && rest == t[q.consumed..])
  {
    hide ParseUpstreamCommandReply;
    GrantRefused(t);
    if ParseUpstreamCommandReply(t, |t|).Ok? {
      GrantRead(t);
    }
    if Grants(t, rest) {
      var v: Byte, rsv: Byte, raw, port :| IsGrant(t, v, rsv, raw, port, rest);
      GrantTaken(t, v, rsv, raw, port, rest);
    }
  }

  lemma GrantRefused(t: seq<Byte>)
    ensures ParseUpstreamCommandReply(t, |t|).Bad? <==> |t| >= 4 && (t[1] != 0 || t[3] !in {1, 3, 4})
  {
  }

  lemma GrantRead(t: seq<Byte>)
    requires ParseUpstreamCommandReply(t, |t|).Ok?
    ensures
      var n := ParseUpstreamCommandReply(t, |t|).consumed;
      n <= |t| && Grants(t, t[n..])
  {
    hide ParseUpstreamCommandReply;
    var n := ParseUpstreamCommandReply(t, |t|).consumed;
    GrantSize(t);
    GrantSlices(t, n);
    assert IsGrant(t, t[0], t[2], t[3..n - 2], t[n - 2..n], t[n..]);
  }

  lemma GrantSize(t: seq<Byte>)
    requires ParseUpstreamCommandReply(t, |t|).Ok?
    ensures
      var n := ParseUpstreamCommandReply(t, |t|).consumed;
      && 7 <= n <= |t| && t[1] == 0
      && ((t[3] == 1 && n == 10) || (t[3] == 4 && n == 22) || (t[3] == 3 && n - 7 == t[4]))
  {
  }

  lemma GrantSlices(t: seq<Byte>, n: nat)
    requires 7 <= n <= |t| && t[1] == 0
    requires (t[3] == 1 && n == 10) || (t[3] == 4 && n == 22) || (t[3] == 3 && n - 7 == t[4])
    ensures IsAddress(t[3..n - 2]) && t == [t[0], 0, t[2]] + t[3..n - 2] + t[n - 2..n] + t[n..]
  {
    var raw := t[3..n - 2];
    assert raw[0] == t[3] && raw[1] == t[4];
  }

  lemma GrantTaken(t: seq<Byte>, v: Byte, rsv: Byte, raw: seq<Byte>, port: seq<Byte>, rest: seq<Byte>)
    requires IsGrant(t, v, rsv, raw, port, rest)
    ensures
      var q := ParseUpstreamCommandReply(t, |t|);
      q.Ok? && q.consumed <= |t| && rest == t[q.consumed..]
  {
    assert t[1] == 0 && t[3] == raw[0] && t[4] == raw[1];
  }

  /** What comes of a choice of method. */
  lemma AfterChoice(cfg: Config, r: Request, b: seq<Byte>, u: seq<Byte>, p: seq<Byte>)
    requires Shows(cfg, u, p)
    ensures
      var c := ServerRun(cfg, r, Phase.UpstreamGreeting, b);
      if |b| < 2 then c.Pending?
      else if b[0] != 5 || b[1] == 0xFF then c == Failed([])
      else
        && Picks(b, b[1], b[2..])
        && c == if b[1] != 2 then ServerRun(cfg, r, Phase.UpstreamCommand, b[2..]).After(RequestSent(r))
           else if |u| <= 255 && |p| <= 255 then ServerRun(cfg, r, Phase.UpstreamAuth, b[2..]).After(LoginSent(u, p))
           else Crashed([])
  {
    hide ServerRun, AuthFrame, LoginSent;
    ShowsUpstream(cfg, u, p);
    ChoiceMeans(cfg, r, b);
  }

  lemma AfterLoginReply(cfg: Config, r: Request, b: seq<Byte>)
    ensures
      var c := ServerRun(cfg, r, Phase.UpstreamAuth, b);
      if |b| < 2 then c.Pending?
      else if b[1] != 0 then c == Failed([])
      else c == ServerRun(cfg, r, Phase.UpstreamCommand, b[2..]).After(RequestSent(r)) && b == [b[0], 0] + b[2..]
  {
    hide ServerRun;
    LoginReplyMeans(cfg, r, b);
  }

  lemma AfterReply(cfg: Config, r: Request, t: seq<Byte>)
    ensures
      var c, q := ServerRun(cfg, r, Phase.UpstreamCommand, t), ParseUpstreamCommandReply(t, |t|);
      && (q.NeedMore? ==> c.Pending?)
      && (q.Bad? ==> c == Failed([]))
      && (q.Ok? ==> q.consumed <= |t| && c == Up([], t[q.consumed..]))
  {
    hide ServerRun, ParseUpstreamCommandReply;
    CommandReplyMeans(cfg, r, t);
  }

  /** A server that passes is asked for the request. */
  lemma Passed(cfg: Config, r: Request, b: seq<Byte>, u: seq<Byte>, p: seq<Byte>, choice: Byte, t: seq<Byte>)
    returns (o: seq<Byte>)
    requires Shows(cfg, u, p) && Passes(b, choice, u, p, t)
    ensures Sent(choice, u, p, r, o)
    ensures ServerRun(cfg, r, Phase.UpstreamGreeting, b) == ServerRun(cfg, r, Phase.UpstreamCommand, t).After(o)
  {
    hide ServerRun, LoginSent, RequestSent;
    AfterChoice(cfg, r, b, u, p);
    o := RequestSent(r);
    if choice == 2 {
      var v: Byte :| Picks(b, 2, [v, 0] + t);
      assert b[2..] == [v, 0] + t && b[2..][2..] == t;
      AfterLoginReply(cfg, r, b[2..]);
      ServerAfter(ServerRun(cfg, r, Phase.UpstreamCommand, t), LoginSent(u, p), RequestSent(r));
      o := LoginSent(u, p) + RequestSent(r);
    } else {
      assert b[2..] == t;
    }
  }

  /** Where a server stands that neither passes nor stays silent. */
  lemma NotPassed(cfg: Config, r: Request, b: seq<Byte>, u: seq<Byte>, p: seq<Byte>)
    returns (choice: Byte, t: seq<Byte>)
    requires Shows(cfg, u, p)
    ensures
      var c := ServerRun(cfg, r, Phase.UpstreamGreeting, b);
      || Passes(b, choice, u, p, t)
      || c.Pending?
      || (c == Failed([]) && |b| >= 2 && (b[0] != 5 || b[1] == 0xFF))
      || (|u| <= 255 && |p| <= 255 && c == Failed(LoginSent(u, p)) && |b| >= 4 && b[0] == 5 && b[1] == 2 && b[3] != 0)
      || (c == Crashed([]) && (|u| > 255 || |p| > 255) && Picks(b, 2, b[2..]))
  {
    hide ServerRun, LoginSent, RequestSent, Picks;
    AfterChoice(cfg, r, b, u, p);
    choice, t := 0, [];
    if |b| >= 2 {
      choice, t := b[1], b[2..];
      if choice == 2 && |u| <= 255 && |p| <= 255 {
        AfterLoginReply(cfg, r, b[2..]);
        t := if |b| >= 4 then b[4..] else [];
        assert |b| >= 4 ==> b[2..][2..] == t && b[2..][1] == b[3];
        assert LoginSent(u, p) + [] == LoginSent(u, p);
      }
    }
  }

  /** The relay comes up exactly for a server that passes and grants the request. */
  lemma UpExactly(
    cfg: Config, r: Request, b: seq<Byte>, u: seq<Byte>, p: seq<Byte>, o: seq<Byte>, rest: seq<Byte>)
    requires Shows(cfg, u, p)
    ensures ServerRun(cfg, r, Phase.UpstreamGreeting, b) == Up(o, rest)
      <==> exists choice: Byte, t :: Passes(b, choice, u, p, t) && Grants(t, rest) && Sent(choice, u, p, r, o)
  {
    hide ServerRun, Passes, Grants, LoginSent, RequestSent, ParseUpstreamCommandReply;
    var choice, t := NotPassed(cfg, r, b, u, p);
    if Passes(b, choice, u, p, t) {
      var o' := Passed(cfg, r, b, u, p, choice, t);
      AfterReply(cfg, r, t);
      GrantsParses(t, rest);
      assert o' + [] == o';
    }
    forall choice: Byte, t | Passes(b, choice, u, p, t) && Grants(t, rest) && Sent(choice, u, p, r, o)
      ensures ServerRun(cfg, r, Phase.UpstreamGreeting, b) == Up(o, rest)
    {
      var o' := Passed(cfg, r, b, u, p, choice, t);
      AfterReply(cfg, r, t);
      GrantsParses(t, rest);
      assert o' + [] == o';
    }
  }

  /** Why a server has failed, and what it had been sent. */
  ghost predicate Fails(r: Request, b: seq<Byte>, u: seq<Byte>, p: seq<Byte>, o: seq<Byte>) {
    || (o == [] && |b| >= 2 && (b[0] != 5 || b[1] == 0xFF))
    || (|u| <= 255 && |p| <= 255 && o == LoginSent(u, p) && |b| >= 4 && b[0] == 5 && b[1] == 2 && b[3] != 0)
    || FailsLate(r, b, u, p, o)
  }

  ghost predicate FailsLate(r: Request, b: seq<Byte>, u: seq<Byte>, p: seq<Byte>, o: seq<Byte>) {
    exists choice: Byte, t ::
      Passes(b, choice, u, p, t) && Sent(choice, u, p, r, o) && |t| >= 4 && (t[1] != 0 || t[3] !in {1, 3, 4})
  }

  /** A server fails exactly for refusing every method, the login or the request, or for a strange reply. */
  lemma FailedExactly(cfg: Config, r: Request, b: seq<Byte>, u: seq<Byte>, p: seq<Byte>, o: seq<Byte>)
    requires Shows(cfg, u, p)
    ensures ServerRun(cfg, r, Phase.UpstreamGreeting, b) == Failed(o) <==> Fails(r, b, u, p, o)
  {
    hide ServerRun, Passes, LoginSent, RequestSent, ParseUpstreamCommandReply;
    var choice, t := NotPassed(cfg, r, b, u, p);
    if Passes(b, choice, u, p, t) {
      var o' := Passed(cfg, r, b, u, p, choice, t);
      AfterReply(cfg, r, t);
      GrantRefused(t);
      assert o' + [] == o';
    }
    if Fails(r, b, u, p, o) {
      FailedSo(cfg, r, b, u, p, o);
    }
  }

  lemma FailedSo(cfg: Config, r: Request, b: seq<Byte>, u: seq<Byte>, p: seq<Byte>, o: seq<Byte>)
    requires Shows(cfg, u, p) && Fails(r, b, u, p, o)
    ensures ServerRun(cfg, r, Phase.UpstreamGreeting, b) == Failed(o)
  {
    hide ServerRun, Passes, LoginSent, RequestSent, ParseUpstreamCommandReply;
    if FailsLate(r, b, u, p, o) {
      var choice: Byte, t :|
        Passes(b, choice, u, p, t) && Sent(choice, u, p, r, o) && |t| >= 4 && (t[1] != 0 || t[3] !in {1, 3, 4});
      var o' := Passed(cfg, r, b, u, p, choice, t);
      AfterReply(cfg, r, t);
      GrantRefused(t);
      assert o' + [] == o';
    } else {
      AfterChoice(cfg, r, b, u, p);
      if |u| <= 255 && |p| <= 255 && o == LoginSent(u, p) && |b| >= 4 && b[0] == 5 && b[1] == 2 {
        assert b[2..][1] == b[3];
        AfterLoginReply(cfg, r, b[2..]);
        assert LoginSent(u, p) + [] == LoginSent(u, p);
      }
    }
  }

  /** The connection is lost exactly where a server wants a login that is too long to be told. */
  lemma CrashedExactly(cfg: Config, r: Request, b: seq<Byte>, u: seq<Byte>, p: seq<Byte>)
    requires Shows(cfg, u, p)
    ensures ServerRun(cfg, r, Phase.UpstreamGreeting, b).Crashed?
      <==> (|u| > 255 || |p| > 255) && |b| >= 2 && b[0] == 5 && b[1] == 2
  {
    hide ServerRun, Passes, LoginSent, RequestSent, ParseUpstreamCommandReply;
    AfterChoice(cfg, r, b, u, p);
    var choice, t := NotPassed(cfg, r, b, u, p);
    if Passes(b, choice, u, p, t) {
      var o' := Passed(cfg, r, b, u, p, choice, t);
      AfterReply(cfg, r, t);
    }
  }
}
