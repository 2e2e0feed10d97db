/**
 * The incremental parsers and frame builders of SocksProtocol.kt (sections 3, 4 and 6 of RFC 1928
 * and section 2 of RFC 1929). A parser sees a whole buffer of which the first len bytes have
 * arrived; whatever lies beyond them is left over from earlier messages.
 */
module SocksProtocol {
  import opened Bytes
  import opened Wrappers

  datatype Parse<T> = NeedMore | Ok(value: T, consumed: nat) | Bad

  datatype Request = Request(cmd: Byte, rawAddr: seq<Byte>, portBytes: seq<Byte>)

  datatype Login = Login(user: seq<Byte>, pass: seq<Byte>)

  // ---- what a client sends ----

  function ParseClientGreeting(buf: seq<Byte>, len: nat): Parse<seq<Byte>>
    requires len <= |buf|
  {
    if len < 2 then NeedMore
    else if buf[0] != 5 then Bad
    else
      var n: int := buf[1];
      if n <= 0 then Bad
      else if len < 2 + n then NeedMore
      else Ok(buf[2..2 + n], 2 + n)
  }

  function ParseClientAuth(buf: seq<Byte>, len: nat): Parse<Login>
    requires len <= |buf|
  {
    if len < 2 then NeedMore
    else if buf[0] != 1 then Bad
    else
      var ulen: int := buf[1];
      if len < 2 + ulen + 1 then NeedMore
      else
        var plen := buf[2 + ulen];
        var total := 3 + ulen + plen;
        if len < total then NeedMore
        else Ok(Login(buf[2..2 + ulen], buf[3 + ulen..3 + ulen + plen]), total)
  }

  /** The length of an address field after its type byte; None until its length byte arrives. */
  function AddressLength(buf: seq<Byte>, len: nat): Parse<int>
    requires 4 <= len <= |buf|
  {
    match buf[3]
    case 1 => Ok(4, 0)
    case 4 => Ok(16, 0)
    case 3 => if len < 5 then NeedMore else var n: int := buf[4]; Ok(1 + n, 0)
    case _ => Bad
  }

  function ParseClientRequest(buf: seq<Byte>, len: nat): Parse<Request>
    requires len <= |buf|
  {
    if len < 4 then NeedMore
    else if buf[0] != 5 then Bad
    else
      match AddressLength(buf, len)
      case NeedMore => NeedMore
      case Bad => Bad
      case Ok(n, _) =>
        var total := 4 + n + 2;
        if len < total then NeedMore
        else Ok(Request(buf[1], buf[3..4 + n], buf[4 + n..6 + n]), total)
  }

  // ---- what the upstream server sends ----

  function ParseUpstreamGreetingReply(buf: seq<Byte>, len: nat): Parse<Byte>
    requires len <= |buf|
  {
    if len < 2 then NeedMore
    else if buf[0] != 5 || buf[1] == 0xFF then Bad
    else Ok(buf[1], 2)
  }

  function ParseUpstreamAuthReply(buf: seq<Byte>, len: nat): Parse<()>
    requires len <= |buf|
  {
    if len < 2 then NeedMore else if buf[1] != 0 then Bad else Ok((), 2)
  }

  function ParseUpstreamCommandReply(buf: seq<Byte>, len: nat): Parse<()>
    requires len <= |buf|
  {
    if len < 4 then NeedMore
    else if buf[1] != 0 then Bad
    else
      match AddressLength(buf, len)
      case NeedMore => NeedMore
      case Bad => Bad
      case Ok(n, _) => if len < 4 + n + 2 then NeedMore else Ok((), 4 + n + 2)
  }

  // ---- the messages themselves ----

  predicate MethodsOk(methods: seq<Byte>) {
    1 <= |methods| <= 255
  }

  function Greeting(methods: seq<Byte>): seq<Byte>
    requires MethodsOk(methods)
  {
    [5, |methods|] + methods
  }

  predicate LoginOk(l: Login) {
    |l.user| <= 255 && |l.pass| <= 255
  }

  function AuthMessage(l: Login): seq<Byte>
    requires LoginOk(l)
  {
    [1, |l.user|] + l.user + [|l.pass|] + l.pass
  }

  /** A type byte and the address it announces. */
  predicate AddressOk(raw: seq<Byte>) {
    && raw != []
    && match raw[0]
       case 1 => |raw| == 5
       case 4 => |raw| == 17
       case 3 => |raw| >= 2 && |raw| - 2 == raw[1]
       case _ => false
  }

  predicate RequestOk(r: Request) {
    AddressOk(r.rawAddr) && |r.portBytes| == 2
  }

  /** A request or a reply, with its reserved byte. */
  function Command(r: Request, rsv: Byte): seq<Byte> {
    [5, r.cmd, rsv] + r.rawAddr + r.portBytes
  }

  // ---- builders ----

  function ClientReply(rep: Byte): (r: seq<Byte>)
    ensures |r| == 10
  {
    [5, rep, 0, 1, 0, 0, 0, 0, 0, 0]
  }

  function UpstreamGreeting(hasAuth: bool): (r: seq<Byte>)
    ensures r == Greeting([if hasAuth then 2 else 0])
  {
    if hasAuth then [5, 1, 2] else [5, 1, 0]
  }

  /** upstreamAuth; None where it throws. */
  function AuthFrame(l: Login): Option<seq<Byte>> {
    if LoginOk(l) then Some(AuthMessage(l)) else None
  }

  /** bytes.copyInto(f, at). */
  method CopyInto(bytes: seq<Byte>, f: array<Byte>, at: nat)
    requires at + |bytes| <= f.Length
    modifies f
    ensures f[..] == old(f[..at]) + bytes + old(f[at + |bytes|..])
  {
    forall i | 0 <= i < |bytes| {
      f[at + i] := bytes[i];
    }
  }

  method UpstreamAuth(l: Login) returns (r: Option<seq<Byte>>)
    ensures r == AuthFrame(l)
  {
    if !(|l.user| <= 255 && |l.pass| <= 255) {
      return None;
    }
    var n := |l.user|;
    var f := new Byte[3 + n + |l.pass|](_ => 0);
    f[0] := 1;
    f[1] := n;
    ghost var head := f[..2];
    assert head == [1, n];
    CopyInto(l.user, f, 2);
    ghost var before := f[..];
    var p: Byte := |l.pass|;
    f[2 + n] := p;
    assert f[..] == before[2 + n := p];
    OneMore(before, head, l.user, p);
    CopyInto(l.pass, f, 3 + n);
    assert f[..] == head + l.user + [|l.pass|] + l.pass;
    return Some(f[..]);
  }

  /** Setting the byte behind what has been filled. */
  lemma OneMore(s: seq<Byte>, head: seq<Byte>, part: seq<Byte>, v: Byte)
    requires |head + part| < |s| && head + part <= s
    ensures s[|head| + |part| := v][..|head| + |part| + 1] == head + part + [v]
  {
  }

  method UpstreamCommand(cmd: Byte, rawAddr: seq<Byte>, portBytes: seq<Byte>) returns (r: seq<Byte>)
    ensures r == Command(Request(cmd, rawAddr, portBytes), 0)
  {
    var n := |rawAddr|;
    var f := new Byte[3 + n + |portBytes|](_ => 0);
    f[0] := 5;
    f[1] := cmd;
    f[2] := 0;
    ghost var head := f[..3];
    assert head == [5, cmd, 0];
    CopyInto(rawAddr, f, 3);
    assert f[..3 + n] == head + rawAddr;
    CopyInto(portBytes, f, 3 + n);
    assert f[..] == head + rawAddr + portBytes;
    return f[..];
  }

  // ---- a parser accepts exactly the messages ----

  lemma GreetingParsed(buf: seq<Byte>, len: nat, methods: seq<Byte>, n: nat)
    requires len <= |buf|
    ensures ParseClientGreeting(buf, len) == Ok(methods, n)
      <==> MethodsOk(methods) && n == 2 + |methods| && Greeting(methods) <= buf[..len]
  {
    if MethodsOk(methods) && n == 2 + |methods| && Greeting(methods) <= buf[..len] {
      var g := Greeting(methods);
      assert g == buf[..n] && g[0] == 5 && g[1] == |methods| && g[2..] == methods;
      assert buf[..n][2..] == buf[2..n];
    }
    if ParseClientGreeting(buf, len) == Ok(methods, n) {
      assert buf[..n] == [5, |methods|] + methods;
      assert buf[..len][..n] == buf[..n];
    }
  }

  lemma AuthParsed(buf: seq<Byte>, len: nat, l: Login, n: nat)
    requires len <= |buf|
    ensures ParseClientAuth(buf, len) == Ok(l, n)
      <==> LoginOk(l) && n == 3 + |l.user| + |l.pass| && AuthMessage(l) <= buf[..len]
  {
    hide AuthMessage;
    if LoginOk(l) && n == 3 + |l.user| + |l.pass| && AuthMessage(l) <= buf[..len] {
      AuthPieces(l);
      assert AuthMessage(l) == buf[..n];
      AuthSlices(buf, n, |l.user|);
    }
    if ParseClientAuth(buf, len) == Ok(l, n) {
      AuthPieces(l);
      AuthWhole(buf, n, l);
      assert buf[..len][..n] == buf[..n];
    }
  }

  lemma AuthPieces(l: Login)
    requires LoginOk(l)
    ensures
      var g, k := AuthMessage(l), |l.user|;
      && |g| == 3 + k + |l.pass| && g[0] == 1 && g[1] == k && g[2 + k] == |l.pass|
      && g[2..2 + k] == l.user && g[3 + k..] == l.pass
  {
  }

  lemma AuthSlices(buf: seq<Byte>, n: nat, k: nat)
    requires 3 + k <= n <= |buf|
    ensures buf[..n][2..2 + k] == buf[2..2 + k] && buf[..n][3 + k..] == buf[3 + k..n]
    ensures buf[..n][0] == buf[0] && buf[..n][1] == buf[1] && buf[..n][2 + k] == buf[2 + k]
  {
  }

  lemma AuthWhole(buf: seq<Byte>, n: nat, l: Login)
    requires LoginOk(l) && n == 3 + |l.user| + |l.pass| <= |buf|
    requires buf[0] == 1 && buf[1] == |l.user| && buf[2 + |l.user|] == |l.pass|
    requires buf[2..2 + |l.user|] == l.user && buf[3 + |l.user|..n] == l.pass
    ensures buf[..n] == AuthMessage(l)
  {
    var k := |l.user|;
    assert buf[..n] == buf[..2] + buf[2..2 + k] + buf[2 + k..3 + k] + buf[3 + k..n];
    assert buf[..2] == [1, k] && buf[2 + k..3 + k] == [|l.pass|];
  }

  lemma RequestParsed(buf: seq<Byte>, len: nat, r: Request, n: nat)
    requires len <= |buf|
    ensures ParseClientRequest(buf, len) == Ok(r, n)
      <==> RequestOk(r) && n == 5 + |r.rawAddr| && n <= len && Command(r, buf[2]) <= buf[..len]
  {
    hide Command, AddressOk;
    if RequestOk(r) && n == 5 + |r.rawAddr| && n <= len && Command(r, buf[2]) <= buf[..len] {
      AddressPieces(r.rawAddr);
      RequestPieces(r, buf[2]);
      assert Command(r, buf[2]) == buf[..n];
      RequestSlices(buf, n, |r.rawAddr|);
    }
    if ParseClientRequest(buf, len) == Ok(r, n) {
      AddressRead(buf, len, r.rawAddr);
      RequestWhole(buf, n, r);
      assert buf[..len][..n] == buf[..n];
    }
  }

  lemma RequestPieces(r: Request, rsv: Byte)
    requires r.rawAddr != []
    ensures
      var g, k := Command(r, rsv), |r.rawAddr|;
      && |g| == 3 + k + |r.portBytes| && g[0] == 5 && g[1] == r.cmd && g[3] == r.rawAddr[0]
      && (k > 1 ==> g[4] == r.rawAddr[1])
      && g[3..3 + k] == r.rawAddr && g[3 + k..] == r.portBytes
  {
  }

  lemma RequestSlices(buf: seq<Byte>, n: nat, k: nat)
    requires 3 + k <= n <= |buf| && k > 0
    ensures buf[..n][3..3 + k] == buf[3..3 + k] && buf[..n][3 + k..] == buf[3 + k..n]
    ensures buf[..n][0] == buf[0] && buf[..n][1] == buf[1] && buf[..n][3] == buf[3]
    ensures k > 1 ==> buf[..n][4] == buf[4]
  {
  }

  /** An address says how long it is. */
  lemma AddressPieces(raw: seq<Byte>)
    requires AddressOk(raw)
    ensures |raw| >= 2
    ensures |raw| == match raw[0] case 1 => 5 case 4 => 17 case _ => 2 + raw[1] as int
    ensures raw[0] == 1 || raw[0] == 4 || raw[0] == 3
  {
  }

  lemma AddressRead(buf: seq<Byte>, len: nat, raw: seq<Byte>)
    requires 4 <= len <= |buf| && AddressLength(buf, len).Ok?
    requires 4 + AddressLength(buf, len).value <= len && raw == buf[3..4 + AddressLength(buf, len).value]
    ensures AddressOk(raw)
  {
  }

  lemma RequestWhole(buf: seq<Byte>, n: nat, r: Request)
    requires |r.portBytes| == 2 && n == 5 + |r.rawAddr| <= |buf|
    requires buf[0] == 5 && buf[1] == r.cmd
    requires buf[3..3 + |r.rawAddr|] == r.rawAddr && buf[3 + |r.rawAddr|..n] == r.portBytes
    ensures buf[..n] == Command(r, buf[2])
  {
    var k := |r.rawAddr|;
    assert buf[..n] == buf[..3] + buf[3..3 + k] + buf[3 + k..n];
    assert buf[..3] == [5, r.cmd, buf[2]];
  }

  /** What is forwarded upstream is the client's own request with the reserved byte cleared. */
  lemma ForwardedRequest(buf: seq<Byte>, len: nat)
    requires len <= |buf| && ParseClientRequest(buf, len).Ok?
    ensures
      var p := ParseClientRequest(buf, len);
      p.consumed <= len && Command(p.value, 0) == buf[..p.consumed][2 := 0]
  {
    var p := ParseClientRequest(buf, len);
    RequestParsed(buf, len, p.value, p.consumed);
    assert Command(p.value, buf[2]) == buf[..p.consumed];
  }

  /** What the bridge sends upstream is what its own client-side parsers read. */
  lemma BuiltFramesParse(l: Login, r: Request, rest: seq<Byte>)
    ensures LoginOk(l) ==>
      var f := AuthMessage(l) + rest;
      ParseClientAuth(f, |f|) == Ok(l, 3 + |l.user| + |l.pass|)
    ensures RequestOk(r) ==>
      var f := Command(r, 0) + rest;
      ParseClientRequest(f, |f|) == Ok(r, 5 + |r.rawAddr|)
  {
    if LoginOk(l) {
      var f := AuthMessage(l) + rest;
      AuthParsed(f, |f|, l, 3 + |l.user| + |l.pass|);
      assert f[..|f|] == f;
    }
    if RequestOk(r) {
      var f := Command(r, 0) + rest;
      assert Command(r, 0)[2] == 0;
      RequestParsed(f, |f|, r, 5 + |r.rawAddr|);
      assert f[..|f|] == f;
    }
  }

  /** A reply built for a client reads as granted exactly when its code is zero. */
  lemma ReplyParses(rep: Byte, rest: seq<Byte>)
    ensures
      var f := ClientReply(rep) + rest;
      ParseUpstreamCommandReply(f, |f|) == if rep == 0 then Ok((), 10) else Bad
  {
  }

  // ---- what arrives later, or lies beyond len, changes no verdict ----

  /** The first len bytes of buf are the first bytes of more. */
  predicate Extends(buf: seq<Byte>, len: nat, more: seq<Byte>, len': nat) {
    len <= |buf| && len <= len' <= |more| && forall i :: 0 <= i < len ==> buf[i] == more[i]
  }

  lemma Settled(buf: seq<Byte>, len: nat, more: seq<Byte>, len': nat)
    requires Extends(buf, len, more, len')
    ensures !ParseClientGreeting(buf, len).NeedMore? ==>
      ParseClientGreeting(more, len') == ParseClientGreeting(buf, len)
    ensures !ParseClientAuth(buf, len).NeedMore? ==> ParseClientAuth(more, len') == ParseClientAuth(buf, len)
    ensures !ParseClientRequest(buf, len).NeedMore? ==> ParseClientRequest(more, len') == ParseClientRequest(buf, len)
    ensures !ParseUpstreamGreetingReply(buf, len).NeedMore? ==>
      ParseUpstreamGreetingReply(more, len') == ParseUpstreamGreetingReply(buf, len)
    ensures !ParseUpstreamAuthReply(buf, len).NeedMore? ==>
      ParseUpstreamAuthReply(more, len') == ParseUpstreamAuthReply(buf, len)
    ensures !ParseUpstreamCommandReply(buf, len).NeedMore? ==>
      ParseUpstreamCommandReply(more, len') == ParseUpstreamCommandReply(buf, len)
  {
    SettledGreeting(buf, len, more, len');
    SettledAuth(buf, len, more, len');
    SettledRequest(buf, len, more, len');
  }

  /** What lies beyond len plays no part. */
  lemma OnlyArrived(buf: seq<Byte>, len: nat)
    requires len <= |buf|
    ensures
      var b := buf[..len];
      && ParseClientGreeting(buf, len) == ParseClientGreeting(b, len)
      && ParseClientAuth(buf, len) == ParseClientAuth(b, len)
      && ParseClientRequest(buf, len) == ParseClientRequest(b, len)
      && ParseUpstreamGreetingReply(buf, len) == ParseUpstreamGreetingReply(b, len)
      && ParseUpstreamAuthReply(buf, len) == ParseUpstreamAuthReply(b, len)
      && ParseUpstreamCommandReply(buf, len) == ParseUpstreamCommandReply(b, len)
  {
    hide ParseClientGreeting, ParseClientAuth, ParseClientRequest;
    hide ParseUpstreamGreetingReply, ParseUpstreamAuthReply, ParseUpstreamCommandReply;
    Settled(buf, len, buf[..len], len);
    Settled(buf[..len], len, buf, len);
  }

  lemma SettledGreeting(buf: seq<Byte>, len: nat, more: seq<Byte>, len': nat)
    requires Extends(buf, len, more, len')
    ensures !ParseClientGreeting(buf, len).NeedMore? ==>
      ParseClientGreeting(more, len') == ParseClientGreeting(buf, len)
  {
    match ParseClientGreeting(buf, len)
    case Ok(_, n) => assert buf[2..n] == more[2..n];
    case _ =>
  }

  lemma SettledAuth(buf: seq<Byte>, len: nat, more: seq<Byte>, len': nat)
    requires Extends(buf, len, more, len')
    ensures !ParseClientAuth(buf, len).NeedMore? ==> ParseClientAuth(more, len') == ParseClientAuth(buf, len)
  {
    match ParseClientAuth(buf, len)
    case Ok(l, n) =>
      var k := |l.user|;
      assert buf[2..2 + k] == more[2..2 + k] && buf[3 + k..n] == more[3 + k..n];
    case _ =>
  }

  lemma SettledRequest(buf: seq<Byte>, len: nat, more: seq<Byte>, len': nat)
    requires Extends(buf, len, more, len')
    ensures !ParseClientRequest(buf, len).NeedMore? ==> ParseClientRequest(more, len') == ParseClientRequest(buf, len)
  {
    match ParseClientRequest(buf, len)
    case Ok(r, n) => assert buf[3..n - 2] == more[3..n - 2] && buf[n - 2..n] == more[n - 2..n];
    case _ =>
  }

  /** A parser asks for more only while fewer than 513 bytes have come. */
  lemma NeverJams(buf: seq<Byte>, len: nat)
    requires len <= |buf|
    ensures ParseClientGreeting(buf, len).NeedMore? ==> len < 257
    ensures ParseClientAuth(buf, len).NeedMore? ==> len < 513
    ensures ParseClientRequest(buf, len).NeedMore? ==> len < 262
    ensures ParseUpstreamGreetingReply(buf, len).NeedMore? || ParseUpstreamAuthReply(buf, len).NeedMore? ==> len < 2
    ensures ParseUpstreamCommandReply(buf, len).NeedMore? ==> len < 262
  {
  }

  /** The bytes so far rule out no message of a version. */
  predicate VersionOpen(b: seq<Byte>, version: Byte) {
    b == [] || b[0] == version
  }

  /** The bytes so far rule out no granting reply. */
  predicate GrantOpen(b: seq<Byte>) {
    |b| < 2 || b[1] == 0
  }

  /** Leading bytes, then zeros enough for any message. */
  function Padded(b: seq<Byte>, lead: seq<Byte>): (r: seq<Byte>)
    ensures |r| == (if |b| < |lead| then |lead| - |b| else 0) + 600
  {
    (if |b| < |lead| then lead[|b|..] else []) + seq(600, _ => 0)
  }

  /**
   * Where a parser asks for more, some continuation completes the message exactly if the bytes so
   * far rule none out. (A wrong version byte is only refused once the second byte is there, and a
   * wrong version of a request or a refusal in a reply only once the fourth is.)
   */
  lemma MoreCanComplete(b: seq<Byte>)
    ensures ParseClientGreeting(b, |b|).NeedMore? ==>
      (VersionOpen(b, 5) <==> exists rest :: ParseClientGreeting(b + rest, |b + rest|).Ok?)
    ensures ParseClientAuth(b, |b|).NeedMore? ==>
      (VersionOpen(b, 1) <==> exists rest :: ParseClientAuth(b + rest, |b + rest|).Ok?)
    ensures ParseClientRequest(b, |b|).NeedMore? ==>
      (VersionOpen(b, 5) <==> exists rest :: ParseClientRequest(b + rest, |b + rest|).Ok?)
    ensures ParseUpstreamGreetingReply(b, |b|).NeedMore? ==>
      (VersionOpen(b, 5) <==> exists rest :: ParseUpstreamGreetingReply(b + rest, |b + rest|).Ok?)
    ensures ParseUpstreamAuthReply(b, |b|).NeedMore? ==>
      exists rest :: ParseUpstreamAuthReply(b + rest, |b + rest|).Ok?
    ensures ParseUpstreamCommandReply(b, |b|).NeedMore? ==>
      (GrantOpen(b) <==> exists rest :: ParseUpstreamCommandReply(b + rest, |b + rest|).Ok?)
  {
    GreetingCompletes(b);
    AuthCompletes(b);
    RequestCompletes(b);
    RepliesComplete(b);
    GrantCompletes(b);
  }

  lemma GreetingCompletes(b: seq<Byte>)
    ensures ParseClientGreeting(b, |b|).NeedMore? ==>
      (VersionOpen(b, 5) <==> exists rest :: ParseClientGreeting(b + rest, |b + rest|).Ok?)
  {
    if ParseClientGreeting(b, |b|).NeedMore? {
      var rest := Padded(b, [5, 1]);
      assert b != [] ==> forall r :: (b + r)[0] == b[0];
      assert VersionOpen(b, 5) ==> ParseClientGreeting(b + rest, |b + rest|).Ok?;
    }
  }

  lemma AuthCompletes(b: seq<Byte>)
    ensures ParseClientAuth(b, |b|).NeedMore? ==>
      (VersionOpen(b, 1) <==> exists rest :: ParseClientAuth(b + rest, |b + rest|).Ok?)
  {
    if ParseClientAuth(b, |b|).NeedMore? {
      var rest := Padded(b, [1]);
      assert b != [] ==> forall r :: (b + r)[0] == b[0];
      assert VersionOpen(b, 1) ==> ParseClientAuth(b + rest, |b + rest|).Ok?;
    }
  }

  lemma RequestCompletes(b: seq<Byte>)
    ensures ParseClientRequest(b, |b|).NeedMore? ==>
      (VersionOpen(b, 5) <==> exists rest :: ParseClientRequest(b + rest, |b + rest|).Ok?)
  {
    if ParseClientRequest(b, |b|).NeedMore? {
      var rest := Padded(b, [5, 1, 0, 1]);
      assert b != [] ==> forall r :: (b + r)[0] == b[0];
      assert |b| <= 3 ==> (b + rest)[3] == 1;
      assert VersionOpen(b, 5) ==> ParseClientRequest(b + rest, |b + rest|).Ok?;
    }
  }

  lemma RepliesComplete(b: seq<Byte>)
    ensures ParseUpstreamGreetingReply(b, |b|).NeedMore? ==>
      (VersionOpen(b, 5) <==> exists rest :: ParseUpstreamGreetingReply(b + rest, |b + rest|).Ok?)
    ensures ParseUpstreamAuthReply(b, |b|).NeedMore? ==>
      exists rest :: ParseUpstreamAuthReply(b + rest, |b + rest|).Ok?
  {
    var rest := Padded(b, [5, 0]);
    assert b != [] ==> forall r :: (b + r)[0] == b[0];
    assert |b| < 2 ==> (b + rest)[1] == 0;
    assert |b| < 2 && VersionOpen(b, 5) ==> ParseUpstreamGreetingReply(b + rest, |b + rest|).Ok?;
    assert |b| < 2 ==> ParseUpstreamAuthReply(b + rest, |b + rest|).Ok?;
  }

  lemma GrantCompletes(b: seq<Byte>)
    ensures ParseUpstreamCommandReply(b, |b|).NeedMore? ==>
      (GrantOpen(b) <==> exists rest :: ParseUpstreamCommandReply(b + rest, |b + rest|).Ok?)
  {
    if ParseUpstreamCommandReply(b, |b|).NeedMore? {
      var rest := Padded(b, [5, 0, 0, 1]);
      assert |b| >= 2 ==> forall r :: (b + r)[1] == b[1];
      assert |b| <= 3 ==> (b + rest)[3] == 1;
      assert GrantOpen(b) ==> ParseUpstreamCommandReply(b + rest, |b + rest|).Ok?;
    }
  }

  /** An accepted message is no longer than what has arrived, and not empty. */
  lemma Consumed(buf: seq<Byte>, len: nat)
    requires len <= |buf|
    ensures ParseClientGreeting(buf, len).Ok? ==> 1 <= ParseClientGreeting(buf, len).consumed <= len
    ensures ParseClientAuth(buf, len).Ok? ==> 1 <= ParseClientAuth(buf, len).consumed <= len
    ensures ParseClientRequest(buf, len).Ok? ==>
      1 <= ParseClientRequest(buf, len).consumed <= len && RequestOk(ParseClientRequest(buf, len).value)
    ensures ParseUpstreamGreetingReply(buf, len).Ok? ==> 1 <= ParseUpstreamGreetingReply(buf, len).consumed <= len
    ensures ParseUpstreamAuthReply(buf, len).Ok? ==> 1 <= ParseUpstreamAuthReply(buf, len).consumed <= len
    ensures ParseUpstreamCommandReply(buf, len).Ok? ==> 1 <= ParseUpstreamCommandReply(buf, len).consumed <= len
  {
    if ParseClientRequest(buf, len).Ok? {
      var p := ParseClientRequest(buf, len);
      RequestParsed(buf, len, p.value, p.consumed);
    }
  }
}
