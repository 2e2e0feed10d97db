/** The registry of MiniSlipstreamSocksBridge.kt: live connections, their counters, eviction and reaping. */
module Bridge {
  import opened Handshake
  import opened BridgeSpec
  import opened BridgeIo
  import opened BridgeConn

  ghost function HalfOpen(s: set<Conn>): set<Conn>
    reads set c | c in s :: c`halfClosedAtMs
  {
    set c | c in s && c.halfClosedAtMs > 0
  }

  ghost function Marked(s: set<Conn>, conn: Conn, on: bool): set<Conn> {
    if on then s + {conn} else s - {conn}
  }

  lemma MarkedSize(s: set<Conn>, conn: Conn, on: bool)
    ensures |Marked(s, conn, on)| == |s| + (if on then 1 else 0) - (if conn in s then 1 else 0)
  {
    if conn in s {
      assert s + {conn} == s;
    } else {
      assert s - {conn} == s;
    }
  }

  class Bridge {
    const cfg: Config
    const counters: Counters
    const maxActiveClients: int
    var conns: set<Conn>

    ghost function Footprint(): set<object>
      reads this
    {
      {this, counters} + set c, o | c in conns && o in c.Repr() :: o
    }

    /** Connections share nothing but the counters. */
    ghost predicate Separate(s: set<Conn>) {
      && (forall c :: c in s ==> c.counters == counters && c.cfg == cfg)
      && (forall c :: c in s ==> this !in c.Repr() && counters !in c.Repr())
      && (forall c, d :: c in s && d in s && c != d ==> c.Repr() !! d.Repr())
    }

    lemma SeparateFrom(s: set<Conn>, conn: Conn)
      requires Separate(s)
      ensures Separate(s - {conn})
      ensures conn in s ==> conn.counters == counters && this !in conn.Repr() && counters !in conn.Repr()
      ensures conn in s ==> forall c :: c in s && c != conn ==> c.Repr() !! conn.Repr() && counters !in c.Repr()
    {
    }

    lemma SeparateWith(s: set<Conn>, conn: Conn)
      requires Separate(s) && conn.counters == counters && conn.cfg == cfg
      requires this !in conn.Repr() && counters !in conn.Repr()
      requires forall c :: c in s ==> c.Repr() !! conn.Repr()
      ensures Separate(s + {conn})
    {
    }

    /** The counters count, and stay within the limit. */
    ghost predicate Counted()
      reads this, counters, conns
    {
      && maxActiveClients >= 1
      && counters.activeClients == |conns| <= maxActiveClients
      && counters.halfClosedClients == |HalfOpen(conns)|
    }

    ghost predicate Valid()
      reads Footprint()
    {
      && Separate(conns) && Counted()
      && forall c :: c in conns ==> c.Valid()
    }

    lemma Whole()
      requires Separate(conns) && Counted() && forall c :: c in conns ==> c.Valid()
      ensures Valid()
    {
    }

    constructor (cfg: Config, maxActiveClients: int)
      ensures Valid() && conns == {} && fresh(Footprint())
    {
      this.cfg := cfg;
      counters := new Counters();
      this.maxActiveClients := if maxActiveClients < 1 then 1 else maxActiveClients;
      conns := {};
    }

    /** closeConn: a connection leaves once, and is uncounted once. */
    method CloseConn(conn: Conn)
      requires Separate(conns) && Counted()
      requires forall c :: c in conns && c != conn ==> c.Valid()
      modifies this`conns, counters
      ensures Valid() && conns == old(conns) - {conn}
      ensures counters.activeClients == old(counters.activeClients) - (if conn in old(conns) then 1 else 0)
    {
      hide Conn.Valid, Conn.Repr, Separate;
      SeparateFrom(conns, conn);
      if conn !in conns {
        Whole();
        return;
      }
      conns := conns - {conn};
      if conn.halfClosedAtMs > 0 {
        counters.halfClosedClients := counters.halfClosedClients - 1;
      }
      counters.activeClients := counters.activeClients - 1;
      assert HalfOpen(conns) == HalfOpen(old(conns)) - {conn};
      Whole();
    }

    lemma Counts()
      requires Counted()
      ensures 1 <= maxActiveClients && counters.activeClients == |conns| <= maxActiveClients
      ensures counters.halfClosedClients == |HalfOpen(conns)|
    {
    }

    lemma StillCounted(conn: Conn, half: set<Conn>, now: bool)
      requires conn in conns && now == (conn.halfClosedAtMs > 0) && half <= conns
      requires forall c :: c in conns && c != conn ==> (c in half <==> c.halfClosedAtMs > 0)
      requires counters.halfClosedClients == |half| + (if now then 1 else 0) - (if conn in half then 1 else 0)
      requires 1 <= maxActiveClients && counters.activeClients == |conns| <= maxActiveClients
      ensures Counted()
    {
      MarkedSize(half, conn, now);
      assert HalfOpen(conns) == Marked(half, conn, now);
    }

    /** The event itself: it moves nothing but the one connection and the half-open count. */
    method Handle(conn: Conn) returns (end: End)
      requires Valid() && conn in conns
      modifies conn.Repr(), counters`halfClosedClients
      ensures Separate(conns) && Counted() && conns == old(conns)
      ensures forall c :: c in conns && c != conn ==> c.Valid()
      ensures end.Open? ==> conn.Valid()
      ensures end.Closed? ==> conn.Caused(end.why, old(conn.net.at))
      ensures conn.Now(end) == old(conn.AfterService())
    {
      hide Conn.Valid, Conn.Shape, Conn.Caused, Conn.Snap, Sound, Separate, Marked, Counted, Conn.Now,
        Conn.AfterService;
      SeparateFrom(conns, conn);
      ghost var half := HalfOpen(conns);
      Counts();
      end := conn.Service();
      forall c | c in conns && c != conn
        ensures c.Valid()
      {
        assert c.Repr() !! conn.Repr() && counters !in c.Repr();
      }
      ghost var now := conn.halfClosedAtMs > 0;
      StillCounted(conn, half, now);
    }

    /** One socket event of one connection, closed when it asks for it. */
    method Service(conn: Conn) returns (end: End)
      requires Valid() && conn in conns
      modifies this`conns, counters, conn.Repr()
      ensures Valid()
      ensures conns == if end.Open? then old(conns) else old(conns) - {conn}
      ensures end.Closed? ==> conn.Caused(end.why, old(conn.net.at))
      ensures conn.Now(end) == old(conn.AfterService())
    {
      hide Conn.Valid, Conn.Repr, Conn.Caused, Separate, Counted, Conn.Now, Conn.AfterService;
      end := Handle(conn);
      if !end.Open? {
        CloseConn(conn);
      } else {
        Whole();
      }
    }

    /** The connect event of one connection. */
    method Connectable(conn: Conn) returns (end: End)
      requires Valid() && conn in conns && conn.phase.UpstreamConnecting?
      modifies this`conns, counters, conn.Repr()
      ensures Valid()
      ensures conns == if end.Open? then old(conns) else old(conns) - {conn}
      ensures end.Closed? ==> conn.Caused(end.why, old(conn.net.at))
      ensures conn.Now(end) == old(conn.AfterConnect()) && conn.ConnectedAs(old(conn.net.Next()))
      ensures end.Closed? ==> old(conn.net.Next()).Throws?
    {
      hide Conn.Valid, Conn.Shape, Conn.Snap, Sound, Separate, Conn.Caused, Conn.Now, Conn.AfterConnect,
        Conn.ConnectedAs;
      SeparateFrom(conns, conn);
      end := conn.Connectable();
      forall c | c in conns && c != conn
        ensures c.Valid() && c.halfClosedAtMs == old(c.halfClosedAtMs)
      {
        assert c.Repr() !! conn.Repr() && counters !in c.Repr();
      }
      assert HalfOpen(conns) == old(HalfOpen(conns));
      if !end.Open? {
        CloseConn(conn);
      } else {
        Whole();
      }
    }

    /** evictLeastRecentlyActive. */
    method EvictLeastRecentlyActive() returns (ghost victim: Conn)
      requires Valid() && conns != {}
      modifies this`conns, counters
      ensures Valid() && victim in old(conns) && conns == old(conns) - {victim}
      ensures forall c :: c in old(conns) ==> victim.lastActivityMs <= c.lastActivityMs
    {
      hide Conn.Valid, Conn.Repr, Separate;
      var v: Conn :| v in conns;
      var rest := conns - {v};
      while rest != {}
        invariant v in conns && rest <= conns
        invariant forall c :: c in conns - rest ==> v.lastActivityMs <= c.lastActivityMs
        decreases rest
      {
        var c :| c in rest;
        rest := rest - {c};
        if c.lastActivityMs < v.lastActivityMs {
          v := c;
        }
      }
      victim := v;
      CloseConn(v);
    }

    /** closeConn for each of some connections. */
    method CloseAll(victims: set<Conn>)
      requires Valid() && victims <= conns
      modifies this`conns, counters
      ensures Valid() && conns == old(conns) - victims
      ensures counters.activeClients == old(counters.activeClients) - |victims|
    {
      hide Conn.Valid, Conn.Repr, Separate, Counted;
      var left := victims;
      while left != {}
        invariant left <= victims && Valid() && conns == old(conns) - (victims - left)
        invariant counters.activeClients == old(counters.activeClients) - |victims| + |left|
        decreases left
      {
        var c :| c in left;
        CloseConn(c);
        left := left - {c};
      }
    }

    /** reapIdle, whichever connections are found stale. */
    method ReapIdle(stale: set<Conn>)
      requires Valid() && stale <= conns
      modifies this`conns, counters
      ensures Valid() && conns == old(conns) - stale
    {
      CloseAll(stale);
    }

    /** The end of the selector loop: nobody is left, and nobody is counted. */
    method CloseEverything()
      requires Valid()
      modifies this`conns, counters
      ensures Valid() && conns == {} && counters.activeClients == 0 && counters.halfClosedClients == 0
    {
      CloseAll(conns);
      conns := {};
      assert HalfOpen({}) == {};
    }

    method NewConn(script: seq<Outcome>) returns (conn: Conn)
      requires Valid()
      ensures Valid() && fresh(conn) && conn !in conns
      ensures conn.Valid() && conn.halfClosedAtMs == 0 && conn.cfg == cfg && conn.counters == counters
      ensures this !in conn.Repr() && counters !in conn.Repr()
      ensures forall c :: c in conns ==> c.Repr() !! conn.Repr()
    {
      hide Conn.Valid, Separate;
      var t := Conn.Clock();
      conn := new Conn(cfg, counters, t, script);
      assert Counted();
      forall c | c in conns
        ensures c.Valid()
      {
        assert conn !in c.Repr();
      }
      Whole();
    }

    method Register(conn: Conn)
      requires Valid() && conn !in conns && |conns| < maxActiveClients
      requires conn.Valid() && conn.halfClosedAtMs == 0 && conn.cfg == cfg && conn.counters == counters
      requires this !in conn.Repr() && counters !in conn.Repr()
      requires forall c :: c in conns ==> c.Repr() !! conn.Repr()
      modifies this`conns, counters`activeClients
      ensures Valid() && conns == old(conns) + {conn} && |conns| == |old(conns)| + 1
    {
      hide Conn.Valid, Conn.Repr, Separate;
      SeparateWith(conns, conn);
      ghost var half := HalfOpen(conns);
      conns := conns + {conn};
      counters.activeClients := counters.activeClients + 1;
      assert HalfOpen(conns) == half;
      Whole();
    }

    method Admit(script: seq<Outcome>) returns (ghost conn: Conn)
      requires Valid() && |conns| < maxActiveClients
      modifies this`conns, counters`activeClients
      ensures Valid() && fresh(conn) && conns == old(conns) + {conn} && |conns| == |old(conns)| + 1
    {
      hide *;
      var c := NewConn(script);
      Register(c);
      conn := c;
    }

    /** An old connection makes room where the limit is reached. */
    method MakeRoom() returns (ghost evicted: set<Conn>)
      requires Valid()
      modifies this`conns, counters
      ensures Valid() && evicted <= old(conns) && conns == old(conns) - evicted && |conns| < maxActiveClients
      ensures |evicted| == (if |old(conns)| == maxActiveClients then 1 else 0)
      ensures |conns| == |old(conns)| - |evicted|
      ensures forall v, c :: v in evicted && c in old(conns) ==> old(v.lastActivityMs) <= old(c.lastActivityMs)
    {
      hide Conn.Valid, Conn.Repr, Separate, HalfOpen;
      evicted := {};
      if counters.activeClients >= maxActiveClients {
        ghost var v := EvictLeastRecentlyActive();
        evicted := {v};
      }
    }

    /** One accepted client. */
    method AcceptOne(usable: bool, script: seq<Outcome>) returns (ghost added: set<Conn>, ghost evicted: set<Conn>)
      requires Valid()
      modifies this`conns, counters
      ensures Valid() && fresh(added) && evicted <= old(conns)
      ensures conns == old(conns) - evicted + added
      ensures |added| == (if usable then 1 else 0) && |conns| == |old(conns)| - |evicted| + |added|
      ensures |evicted| == (if |old(conns)| == maxActiveClients then 1 else 0)
      ensures forall v, c :: v in evicted && c in old(conns) ==> old(v.lastActivityMs) <= old(c.lastActivityMs)
    {
      hide *;
      evicted := MakeRoom();
      added := {};
      if usable {
        ghost var conn := Admit(script);
        added := {conn};
      }
    }

    /** onAccept: every client waiting, up to the first whose socket cannot be set up. */
    method OnAccept(usable: seq<bool>, scripts: seq<seq<Outcome>>)
      requires Valid() && |scripts| == |usable|
      modifies this`conns, counters
      ensures Valid()
      ensures |conns| <= |old(conns)| + |usable|
      ensures (forall i :: 0 <= i < |usable| ==> usable[i]) ==>
        |conns| == if |old(conns)| + |usable| <= maxActiveClients then |old(conns)| + |usable| else maxActiveClients
    {
      hide Conn.Valid, Conn.Repr, Separate;
      for i := 0 to |usable|
        invariant Valid() && (forall k :: 0 <= k < i ==> usable[k])
        invariant |conns| == if |old(conns)| + i <= maxActiveClients then |old(conns)| + i else maxActiveClients
      {
        ghost var added, evicted := AcceptOne(usable[i], scripts[i]);
        if !usable[i] {
          return;
        }
      }
    }
  }
}
