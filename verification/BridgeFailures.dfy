/** A run of the bridge that does less than one might expect. */
module BridgeFailures {
  import opened Bytes
  import opened Wrappers
  import opened SocksProtocol
  import opened Handshake
  import opened Verdicts
  import opened BridgeSpec
  import opened BridgeIo
  import opened BridgeConn

  const OPEN_DOOR := Config(None, None, None, None)

  /** A request for port 80 of 1.2.3.4, right behind the greeting. */
  function Hello(): seq<Byte> {
    [5, 1, 0, 5, 1, 0, 1, 1, 2, 3, 4, 0, 80]
  }

  lemma HelloAsks()
    ensures Asks(OPEN_DOOR, Hello()) == Asked([5, 0], Request(1, [1, 1, 2, 3, 4], [0, 80]), [])
  {
    hide Asks, Requests, Offers, ClientRun;
    HelloOffers();
    HelloRequests();
    AskedExactly(OPEN_DOOR, Hello(), Request(1, [1, 1, 2, 3, 4], [0, 80]), []);
    AsksIs(OPEN_DOOR, Hello());
  }

  const REQUEST: seq<Byte> := [5, 1, 0, 1, 1, 2, 3, 4, 0, 80]

  lemma HelloOffers()
    ensures Offers(Hello(), [0], REQUEST)
  {
    assert Hello() == [5, 1] + [0] + REQUEST;
  }

  lemma HelloRequests()
    ensures Requests(REQUEST, Request(1, [1, 1, 2, 3, 4], [0, 80]), [])
  {
    assert REQUEST == [5, 1, 0] + [1, 1, 2, 3, 4] + [0, 80] + [];
  }

  lemma AsksIs(cfg: Config, b: seq<Byte>)
    ensures Asks(cfg, b) == ClientRun(cfg, ClientGreeting, b)
  {
  }

  /** From the start: the client asks, and its socket takes nothing for a while. */
  method ReachConnecting() returns (c: Conn)
    ensures c.Valid() && fresh(c) && fresh(c.Repr()) && c.cfg == OPEN_DOOR
    ensures c.phase.UpstreamConnecting? && !c.closeAfterFlush && c.net.Spent() && c.net.at == |c.net.script|
    ensures c.clientGot == Hello() && c.clientSent == [] && c.toClient.content == [5, 0]
  {
    hide Asks, Serves, Conn.Valid, Conn.Shape, Tracks, Conn.Ends, Conn.Blamed, Sound, Conn.Caused;
    HelloAsks();
    var counters := new Counters();
    c := new Conn(OPEN_DOOR, counters, 1, [Gives(Hello())]);
    var end := c.Service();
    assert Arriving(Gives(Hello()), HS_BUF) == Hello() && [] + Hello() == Hello();
    c.Sends();
    c.NetBounded();
    assert [] + c.toClient.content == c.toClient.content;
  }

  /**
   * Then the upstream server cannot be reached. The choice of method is all that is ever on its way
   * to the client.
   */
  method ReachUnreported() returns (c: Conn)
    ensures c.Valid() && c.closeAfterFlush && !c.hasRemote && Asks(c.cfg, c.clientGot).Asked?
    ensures c.clientSent == [] && c.toClient.content == [5, 0]
  {
    hide Asks, Serves, Conn.Valid, Conn.Shape, Tracks, Conn.Ends, Conn.Blamed, Sound, Conn.Caused, Conn.Snap;
    HelloAsks();
    c := ReachConnecting();
    c.Offer([Throws]);
    assert c.net.Next() == Throws;
    var end := c.Connectable();
    assert [] + c.toClient.content == c.toClient.content;
  }
}
