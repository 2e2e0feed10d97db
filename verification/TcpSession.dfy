/**
 * The TCP session of hev-socks5-session-tcp.c: splice_f moves lwIP's pbufs to the proxy socket,
 * splice_b moves socket bytes through the ring into lwIP, which sends straight out of it.
 * Whatever sockets and lwIP decide arrives as parameters; ghost fields record what happened.
 */
module TcpSession {
  import opened Bytes
  import opened Wrappers
  import opened RingBuffer
  import opened TcpFlow

  /** C's & on the results -1, 0 and 1. */
  function AndResult(a: int, b: int): (r: int)
    requires -1 <= a <= 1 && -1 <= b <= 1
    ensures a <= 0 && b <= 0 ==> (r != 0 <==> a == -1 && b == -1)
  {
    if a == -1 then b else if b == -1 then a else if a == 0 || b == 0 then 0 else 1
  }

  function Total(iov: seq<Iov>): nat {
    if iov == [] then 0 else Total(iov[..|iov| - 1]) + iov[|iov| - 1].len
  }

  predicate Positive(iov: seq<Iov>) {
    forall i :: 0 <= i < |iov| ==> iov[i].len > 0
  }

  /** The stream positions lwIP takes when the segments start at position n. */
  function Taken(n: nat, iov: seq<Iov>, took: seq<bool>): (r: seq<nat>)
    requires |iov| <= |took|
  {
    if iov == [] then []
    else
      var i := |iov| - 1;
      Taken(n, iov[..i], took) + if took[i] then Iota(n + Total(iov[..i]), iov[i].len) else []
  }

  lemma TakenOne(n: nat, a: Iov, took: seq<bool>)
    requires 1 <= |took|
    ensures Total([a]) == a.len && Taken(n, [a], took) == if took[0] then Iota(n, a.len) else []
  {
    assert [a][..0] == [];
  }

  lemma TakenTwo(n: nat, a: Iov, b: Iov, took: seq<bool>)
    requires 2 <= |took|
    ensures Total([a, b]) == a.len + b.len
    ensures Taken(n, [a, b], took) ==
            (if took[0] then Iota(n, a.len) else []) + (if took[1] then Iota(n + a.len, b.len) else [])
  {
    assert [a, b][..1] == [a];
    TakenOne(n, a, took);
  }

  lemma GatherTotal(d: seq<Byte>, iov: seq<Iov>)
    requires InRange(|d|, iov) && |iov| <= 2
    ensures |Gather(d, iov)| == Total(iov)
  {
    if |iov| == 2 {
      GatherTwo(d, iov[0], iov[1]);
      TakenTwo(0, iov[0], iov[1], [true, true]);
      assert iov == [iov[0], iov[1]];
    } else if |iov| == 1 {
      GatherOne(d, iov[0]);
      TakenOne(0, iov[0], [true]);
      assert iov == [iov[0]];
    }
  }

  /** Refusing the first of two segments and taking the second is the one way to leave a gap. */
  lemma TakenShape(n: nat, iov: seq<Iov>, took: seq<bool>)
    requires |iov| <= 2 == |took| && Positive(iov)
    ensures var t := Taken(n, iov, took);
            && |t| <= Total(iov)
            && (forall i :: 0 <= i < |t| ==> n <= t[i] < n + Total(iov))
            && (Iota(0, n) + t == Iota(0, n + |t|) <==> !(|iov| == 2 && !took[0] && took[1]))
            && (|t| == Total(iov) <==> forall j :: 0 <= j < |iov| ==> took[j])
  {
    hide Taken, Total;
    if |iov| == 2 {
      assert iov == [iov[0], iov[1]];
      TakenTwo(n, iov[0], iov[1], took);
      var t := Taken(n, iov, took);
      if !took[0] && took[1] {
        assert (Iota(0, n) + t)[n] == n + iov[0].len;
      }
    } else if |iov| == 1 {
      assert iov == [iov[0]];
      TakenOne(n, iov[0], took);
    } else {
      TakenNone(n, took);
    }
  }

  lemma TakenNone(n: nat, took: seq<bool>)
    ensures Total([]) == 0 && Taken(n, [], took) == []
  {
  }

  /**
   * How the socket's bytes, the positions lwIP took and the ring belong together: lwIP holds the
   * first |handed| bytes, the unacknowledged ones still lie in the ring, the rest is readable.
   */
  ghost predicate Stream(sockIn: seq<Byte>, handed: seq<nat>, acked: nat, refused: bool, gap: bool,
                         inFlight: seq<Byte>, readable: seq<Byte>) {
    && (forall i :: 0 <= i < |handed| ==> handed[i] < |sockIn|)
    && (gap <==> handed != Iota(0, |handed|))
    && (gap ==> refused)
    && acked <= |handed| <= acked + |inFlight|
    && (refused ==> |handed| < acked + |inFlight|)
    && (!refused ==>
          && |handed| <= |sockIn|
          && sockIn[acked..|handed|] == inFlight
          && sockIn[|handed|..] == readable)
  }

  lemma StreamRead(sockIn: seq<Byte>, handed: seq<nat>, acked: nat, inFlight: seq<Byte>, readable: seq<Byte>,
                   bytes: seq<Byte>)
    requires Stream(sockIn, handed, acked, false, false, inFlight, readable)
    ensures Stream(sockIn + bytes, handed, acked, false, false, inFlight, readable + bytes)
  {
    assert (sockIn + bytes)[acked..|handed|] == sockIn[acked..|handed|];
    assert (sockIn + bytes)[|handed|..] == sockIn[|handed|..] + bytes;
  }

  lemma StreamHand(sockIn: seq<Byte>, handed: seq<nat>, acked: nat, inFlight: seq<Byte>, readable: seq<Byte>,
                   iov: seq<Iov>, took: seq<bool>, refused: bool)
    requires Stream(sockIn, handed, acked, false, false, inFlight, readable)
    requires |iov| <= 2 == |took| && Positive(iov) && Total(iov) == |readable|
    requires refused == exists j :: 0 <= j < |iov| && !took[j]
    ensures var h := handed + Taken(|handed|, iov, took);
            var gap := |iov| == 2 && !took[0] && took[1];
            && Stream(sockIn, h, acked, refused, gap, inFlight + readable, [])
            && (!refused ==> |h| == |sockIn|)
  {
    hide Taken, Total;
    var n, t := |handed|, Taken(|handed|, iov, took);
    TakenShape(n, iov, took);
    assert handed == Iota(0, n);
    if !refused {
      assert sockIn[acked..] == sockIn[acked..n] + sockIn[n..];
      assert sockIn[acked..n + |t|] == sockIn[acked..];
    }
  }

  lemma StreamAck(sockIn: seq<Byte>, handed: seq<nat>, acked: nat, refused: bool, gap: bool,
                  inFlight: seq<Byte>, readable: seq<Byte>, len: nat)
    requires Stream(sockIn, handed, acked, refused, gap, inFlight, readable) && acked + len <= |handed|
    ensures len <= |inFlight|
    ensures Stream(sockIn, handed, acked + len, refused, gap, inFlight[len..], readable)
  {
    if !refused {
      assert sockIn[acked + len..|handed|] == sockIn[acked..|handed|][len..];
    }
  }

  class TcpSession {
    var queue: seq<seq<Byte>>
    var pcb: bool
    var pcbEof: bool
    const ring: RingBuffer

    /** Application to proxy: what lwIP gave, what the socket took, the window credit returned. */
    ghost var fromLwip: seq<Byte>
    ghost var sockOut: seq<Byte>
    ghost var credit: nat
    ghost var sockShut: bool
    ghost var fwdDone: bool

    /** Proxy to application: what the socket gave; lwIP's side: which bytes it took, by position. */
    ghost var sockIn: seq<Byte>
    var handed: seq<nat>
    var acked: nat
    ghost var lwipShut: bool
    ghost var backDone: bool
    /** A tcp_write was refused; and one was accepted after a refusal. */
    ghost var refused: bool
    ghost var gap: bool

    ghost predicate Forward()
      reads `queue, `pcb, `pcbEof, `fromLwip, `sockOut, `credit, `sockShut, `fwdDone
    {
      && NonEmpty(queue) && fromLwip == sockOut + Flatten(queue)
      && credit <= |sockOut| && (pcb ==> credit == |sockOut|)
      && (sockShut ==> fwdDone && pcbEof && queue == [])
    }

    ghost predicate Backward()
      ensures Backward() ==> ring.Valid()
      reads `sockIn, `handed, `acked, `lwipShut, `backDone, `refused, `gap, ring, ring.data
    {
      && ring.Valid()
      && Stream(sockIn, handed, acked, refused, gap, ring.InFlight(), ring.Readable())
      && (refused ==> backDone)
      && (lwipShut ==> backDone && !refused && |handed| == |sockIn|)
    }

    ghost predicate Valid()
      reads this, ring, ring.data
    {
      Forward() && Backward()
    }

    /** The session as a value. */
    ghost function Now(): Flow
      reads this, ring
    {
      Flow(queue, pcb, pcbEof, sockOut, sockShut, fwdDone, sockIn, handed, acked, lwipShut, backDone,
        ring.rp, ring.rdaSize, ring.useSize, ring.data.Length)
    }

    lemma NowIs()
      ensures
        var f := Now();
        && f.queue == queue && f.pcb == pcb && f.pcbEof == pcbEof && f.sockOut == sockOut && f.sockShut == sockShut
        && f.fwdDone == fwdDone && f.sockIn == sockIn && f.handed == handed && f.acked == acked
        && f.lwipShut == lwipShut && f.backDone == backDone
        && f.rp == ring.rp && f.ready == ring.rdaSize && f.used == ring.useSize && f.size == ring.data.Length
        && (ring.Valid() ==> Free() == f.size - f.used)
    {
    }

    lemma NowIsSane()
      requires Valid()
      ensures Sane(Now())
    {
    }

    constructor (bufferSize: nat)
      requires 1 <= bufferSize
      ensures Valid() && fresh(ring) && fresh(ring.data) && pcb && !pcbEof && queue == []
      ensures !fwdDone && !backDone && sockIn == [] && fromLwip == [] && handed == [] && acked == 0
      ensures ring.data.Length == bufferSize && ring.rp == 0 && ring.rdaSize == 0 && ring.useSize == 0
    {
      queue, pcb, pcbEof := [], true, false;
      ring := new RingBuffer(bufferSize);
      fromLwip, sockOut, credit, sockShut, fwdDone := [], [], 0, false, false;
      sockIn, handed, acked, lwipShut, backDone, refused, gap := [], [], 0, false, false, false, false;
    }

    /** The socket has taken n bytes of the queue; lwIP's window is given back while there is a pcb. */
    method WriteOut(n: nat)
      requires Forward() && queue != [] && !fwdDone && n <= |Flatten(queue)|
      modifies `queue, `sockOut, `credit
      ensures Forward() && sockOut == old(sockOut) + Flatten(old(queue))[..n] && queue == DropBytes(old(queue), n)
    {
      hide DropBytes;
      sockOut := sockOut + Flatten(queue)[..n];
      queue := DropBytes(queue, n);
      if pcb {
        credit := credit + n;
      }
    }

    /** tcp_splice_f. The result is 1, 0 or -1 as in the source. */
    method SpliceF(w: Write) returns (res: int)
      requires Valid() && !fwdDone
      requires w.Wrote? && queue != [] ==> 1 <= w.n <= |Flatten(Gathered(queue))|
      modifies `queue, `sockOut, `credit, `sockShut, `fwdDone
      ensures Valid()
      ensures old(queue) != [] ==>
                && res == (if w.Wrote? then 1 else if w.WriteAgain? then 0 else -1)
                && old(sockOut) <= sockOut && |sockOut| == old(|sockOut|) + (if w.Wrote? then w.n else 0)
                && sockShut == old(sockShut)
      ensures old(queue) == [] ==>
                && res == (if pcbEof then -1 else 0) && sockOut == old(sockOut)
                && sockShut == (pcbEof || old(sockShut))
      ensures -1 <= res <= 1 && (fwdDone <==> res == -1)
      ensures Sane(old(Now())) && Now() == SplicedF(old(Now()), w)
    {
      hide Backward, RingBuffer.Valid, Stream, Sane, Gathered, Flatten, DropBytes, NonEmpty;
      NowIsSane();
      if queue != [] {
        match w
        case WriteAgain => res := 0;
        case WriteFailed => res := -1;
        case Wrote(n) =>
          GatheredPrefix(queue);
          WriteOut(n);
          res := 1;
      } else if pcbEof {
        res := -1;
        sockShut := true;
      } else {
        res := 0;
      }
      fwdDone := res == -1;
    }

    /** tcp_recv_handler: a pbuf chain, or None for lwIP's end of stream. */
    method Recv(p: Option<seq<seq<Byte>>>, wndMax: nat) returns (ok: bool)
      requires Valid() && pcb && !pcbEof && (p.Some? ==> NonEmpty(p.value) && p.value != [])
      modifies `queue, `pcbEof, `fromLwip
      ensures Valid()
      ensures ok <==> p.None? || old(queue) == [] || |Flatten(old(queue))| <= wndMax
      ensures fromLwip == old(fromLwip) + if ok && p.Some? then Flatten(p.value) else []
      ensures queue == old(queue) + if ok && p.Some? then p.value else []
      ensures pcbEof == p.None?
      ensures Now() == old(Now()).(
        pcbEof := p.None?, queue := old(queue) + if ok && p.Some? then p.value else [])
    {
      hide Backward;
      if p.Some? {
        if queue == [] {
          queue := p.value;
        } else {
          if |Flatten(queue)| > wndMax {
            return false;
          }
          FlattenSplit(queue, p.value);
          queue := queue + p.value;
        }
        fromLwip := fromLwip + Flatten(p.value);
      } else {
        pcbEof := true;
      }
      return true;
    }

    function Free(): nat
      requires ring.Valid()
      reads ring
    {
      ring.data.Length - ring.useSize
    }

    /** readv into the free cells, as tcp_splice_b starts. */
    method ReadSocket(r: Read) returns (res: int)
      requires Backward() && !backDone && (r.Got? ==> 1 <= |r.bytes| <= Free())
      modifies `sockIn, ring, ring.data
      ensures Backward()
      ensures sockIn == old(sockIn) + (if r.Got? then r.bytes else [])
      ensures res == if old(Free()) == 0 || r.ReadAgain? then 0 else if r.ReadEnded? then -1 else 1
      ensures ring.rp == old(ring.rp)
      ensures ring.useSize - old(ring.useSize) == ring.rdaSize - old(ring.rdaSize) == |sockIn| - |old(sockIn)|
    {
      hide Stream, Scattered, Spread, Wrap, Cells;
      res := 1;
      var iov := ring.Writing();
      if iov != [] {
        match r
        case ReadAgain => res := 0;
        case ReadEnded => res := -1;
        case Got(bytes) =>
          GapFree();
          StreamRead(sockIn, handed, acked, ring.InFlight(), ring.Readable(), bytes);
          ghost var was := ring.data[..];
          ring.Fill(iov, bytes);
          ring.FilledFree(was, Spread(iov), bytes);
          ring.WriteFinish(|bytes|);
          sockIn := sockIn + bytes;
      } else {
        res := 0;
      }
    }

    lemma GapFree()
      requires Backward() && !backDone
      ensures ring.Valid() && Stream(sockIn, handed, acked, refused, gap, ring.InFlight(), ring.Readable())
      ensures !gap && !refused && !lwipShut && |handed| + |ring.Readable()| == |sockIn|
    {
    }

    /** The tcp_write loop: lwIP takes the segments it accepts, in order. */
    method WriteSegments(iov: seq<Iov>, took: seq<bool>) returns (err: bool, s: nat)
      requires |iov| <= |took|
      modifies `handed
      ensures s == Total(iov) && handed == old(handed) + Taken(old(|handed|), iov, took)
      ensures err <==> exists j :: 0 <= j < |iov| && !took[j]
    {
      s, err := 0, false;
      var n := |handed|;
      for i := 0 to |iov|
        invariant s == Total(iov[..i]) && handed == old(handed) + Taken(n, iov[..i], took)
        invariant err <==> exists j :: 0 <= j < i && !took[j]
      {
        assert iov[..i + 1][..i] == iov[..i];
        if took[i] {
          handed := handed + Iota(n + s, iov[i].len);
        } else {
          err := true;
        }
        s := s + iov[i].len;
      }
      assert iov[..|iov|] == iov;
    }

    /** Everything readable goes to lwIP; true when a segment was refused. */
    method Hand(iov: seq<Iov>, took: seq<bool>) returns (err: bool)
      requires Backward() && !backDone && |took| == 2 && |iov| <= 2 && InRange(ring.data.Length, iov)
      requires Gather(ring.data[..], iov) == ring.Readable()
      requires iov == Segments(ring.rp, ring.rdaSize, ring.data.Length)
      requires forall i :: 0 <= i < |iov| ==> iov[i].len > 0
      modifies `handed, `refused, `gap, ring
      ensures ring.Valid() && !lwipShut
      ensures Stream(sockIn, handed, acked, refused, gap, ring.InFlight(), ring.Readable())
      ensures handed == old(handed) + Taken(old(|handed|), iov, took)
      ensures err == refused == (exists j :: 0 <= j < |iov| && !took[j])
      ensures gap <==> |iov| == 2 && !took[0] && took[1]
      ensures !refused ==> |handed| == |sockIn|
      ensures ring.useSize == old(ring.useSize) && ring.rdaSize == 0
      ensures ring.rp == Wrap(old(ring.rp) + old(ring.rdaSize), ring.data.Length)
    {
      hide Stream, Taken, Total, Gather;
      GapFree();
      GatherTotal(ring.data[..], iov);
      StreamHand(sockIn, handed, acked, ring.InFlight(), ring.Readable(), iov, took,
                 exists j :: 0 <= j < |iov| && !took[j]);
      var s;
      err, s := WriteSegments(iov, took);
      assert ring.Readable()[..s] == ring.Readable() && ring.Readable()[s..] == [];
      ring.ReadFinish(s);
      refused, gap := err, |iov| == 2 && !took[0] && took[1];
    }

    lemma RingBounds()
      requires ring.Valid()
      ensures ring.rp < ring.data.Length && ring.rdaSize <= ring.data.Length
    {
    }

    /** The second half of tcp_splice_b, with the first half's result in. */
    method ToLwip(read: int, took: seq<bool>, flushed: bool) returns (res: int, ghost segs: nat)
      requires Backward() && !backDone && |took| == 2 && -1 <= read <= 1
      modifies `handed, `lwipShut, `refused, `gap, ring
      ensures ring.Valid() && Stream(sockIn, handed, acked, refused, gap, ring.InFlight(), ring.Readable())
      ensures segs <= 2 && (segs > 0 <==> pcb && |old(handed)| < |sockIn|)
      ensures gap <==> segs == 2 && !took[0] && took[1]
      ensures refused <==> exists i :: 0 <= i < segs && !took[i]
      ensures res == if !pcb || refused || (segs > 0 && !flushed) then -1 else if segs > 0 then 1 else read
      ensures lwipShut <==> pcb && segs == 0 && read == -1
      ensures (segs > 0 && !refused) || (segs == 0 && pcb) ==> |handed| == |sockIn|
      ensures pcb ==> segs == Pieces(old(ring.rp), old(ring.rdaSize), ring.data.Length)
      ensures pcb ==> ring.rdaSize == 0 && ring.rp == Wrap(old(ring.rp) + old(ring.rdaSize), ring.data.Length)
      ensures ring.useSize == old(ring.useSize)
      ensures handed == old(handed) + if pcb
        then Pushed(|old(handed)|, old(ring.rdaSize), ring.data.Length - old(ring.rp), took) else []
      ensures !pcb ==> ring.rdaSize == old(ring.rdaSize) && ring.rp == old(ring.rp)
    {
      hide *;
      GapFree();
      RingBounds();
      NoPieces(ring.rp, ring.rdaSize, ring.data.Length);
      NonePushed(|handed|, ring.data.Length - ring.rp, took);
      res := read;
      segs := 0;
      var err := false;
      if pcb {
        var iov := ring.Reading();
        if iov != [] {
          segs := |iov|;
          TakenPushed(|handed|, ring.rp, ring.rdaSize, ring.data.Length, took);
          err := Hand(iov, took);
          err := err || !flushed;
          res := 1;
        } else if res < 0 {
          lwipShut := true;
        }
      }
      if !pcb || err {
        res := -1;
      }
    }

    /** The two halves, and where they leave the session. */
    method MoveBack(r: Read, took: seq<bool>, flushed: bool) returns (res: int, ghost segs: nat)
      requires Valid() && !backDone && |took| == 2 && (r.Got? ==> 1 <= |r.bytes| <= Free())
      modifies `sockIn, `handed, `lwipShut, `backDone, `refused, `gap, ring, ring.data
      ensures Valid() && -1 <= res <= 1 && (backDone <==> res == -1)
      ensures sockIn == old(sockIn) + (if r.Got? then r.bytes else [])
      ensures segs <= 2 && (segs > 0 <==> pcb && |old(handed)| < |sockIn|)
      ensures gap <==> segs == 2 && !took[0] && took[1]
      ensures !gap <==> handed == Iota(0, |handed|)
      ensures refused <==> exists i :: 0 <= i < segs && !took[i]
      ensures segs > 0 && (forall i :: 0 <= i < segs ==> took[i]) ==> |handed| == |sockIn|
      ensures lwipShut <==> pcb && segs == 0 && r.ReadEnded? && old(Free()) > 0
      ensures lwipShut ==> handed == Iota(0, |sockIn|)
      ensures backDone <==>
        !pcb || refused || (segs > 0 && !flushed) || (segs == 0 && r.ReadEnded? && old(Free()) > 0)
      ensures
        var n, all := ring.data.Length, old(ring.rdaSize) + |sockIn| - |old(sockIn)|;
        && (pcb ==> segs == Pieces(old(ring.rp), all, n) && ring.rdaSize == 0 && ring.rp == Wrap(old(ring.rp) + all, n))
        && ring.useSize == old(ring.useSize) + |sockIn| - |old(sockIn)|
      ensures handed == old(handed) + if pcb
        then Pushed(|old(handed)|, old(ring.rdaSize) + |sockIn| - |old(sockIn)|, ring.data.Length - old(ring.rp), took)
        else []
      ensures !pcb ==> ring.rdaSize == old(ring.rdaSize) + |sockIn| - |old(sockIn)| && ring.rp == old(ring.rp)
    {
      hide *;
      Opened();
      res := ReadSocket(r);
      res, segs := ToLwip(res, took, flushed);
      backDone := res == -1;
      Closed();
    }

    /**
     * tcp_splice_b: one readv, then everything readable goes to lwIP. took says for each segment
     * whether tcp_write accepted it, flushed whether tcp_output did; segs is how many there were.
     */
    method SpliceB(r: Read, took: seq<bool>, flushed: bool) returns (res: int, ghost segs: nat)
      requires Valid() && !backDone && |took| == 2 && (r.Got? ==> 1 <= |r.bytes| <= Free())
      modifies `sockIn, `handed, `lwipShut, `backDone, `refused, `gap, ring, ring.data
      ensures Valid() && -1 <= res <= 1 && (backDone <==> res == -1)
      ensures sockIn == old(sockIn) + (if r.Got? then r.bytes else [])
      ensures segs <= 2 && (segs > 0 <==> pcb && |old(handed)| < |sockIn|)
      ensures gap <==> segs == 2 && !took[0] && took[1]
      ensures !gap <==> handed == Iota(0, |handed|)
      ensures refused <==> exists i :: 0 <= i < segs && !took[i]
      ensures segs > 0 && (forall i :: 0 <= i < segs ==> took[i]) ==> |handed| == |sockIn|
      ensures lwipShut <==> pcb && segs == 0 && r.ReadEnded? && old(Free()) > 0
      ensures lwipShut ==> handed == Iota(0, |sockIn|)
      ensures backDone <==>
        !pcb || refused || (segs > 0 && !flushed) || (segs == 0 && r.ReadEnded? && old(Free()) > 0)
      ensures
        var n, all := ring.data.Length, old(ring.rdaSize) + |sockIn| - |old(sockIn)|;
        && (pcb ==> segs == Pieces(old(ring.rp), all, n) && ring.rdaSize == 0 && ring.rp == Wrap(old(ring.rp) + all, n))
        && ring.useSize == old(ring.useSize) + |sockIn| - |old(sockIn)|
      ensures Sane(old(Now())) && Now() == SplicedB(old(Now()), r, took, flushed)
    {
      hide *;
      NowIsSane();
      NowIs();
      Opened();
      ghost var f := Now();
      res, segs := MoveBack(r, took, flushed);
      NowIs();
      RefusedIs(segs, took);
      PiecesAre(f.rp, f.ready + (if r.Got? then |r.bytes| else 0), f.size);
      BackIs(f, Now(), r, took, flushed, segs, refused);
    }

    lemma Opened()
      requires Valid()
      ensures Forward() && Backward() && ring.Valid() && NonEmpty(queue)
      ensures !backDone ==> !gap && !refused && !lwipShut
    {
    }

    lemma Closed()
      requires Forward() && ring.Valid()
      requires Stream(sockIn, handed, acked, refused, gap, ring.InFlight(), ring.Readable())
      requires (refused ==> backDone) && (lwipShut ==> backDone && !refused && |handed| == |sockIn|)
      ensures Valid()
      ensures gap <==> handed != Iota(0, |handed|)
    {
    }

    /** tcp_sent_handler: lwIP acknowledges only bytes it was given. */
    method Sent(len: nat)
      requires Valid() && acked + len <= |handed|
      modifies `acked, ring
      ensures Valid() && acked == old(acked) + len
      ensures ring.useSize == old(ring.useSize) - len && ring.rdaSize == old(ring.rdaSize)
      ensures ring.rp == if ring.useSize == 0 then 0 else old(ring.rp)
      ensures Now() == old(Now()).(
        acked := acked, used := old(ring.useSize) - len, rp := if old(ring.useSize) == len then 0 else old(ring.rp))
    {
      hide Stream;
      StreamAck(sockIn, handed, acked, refused, gap, ring.InFlight(), ring.Readable(), len);
      ring.ReadRelease(len);
      acked := acked + len;
    }

    /** tcp_err_handler: lwIP has freed the pcb. */
    method PcbError()
      requires Valid()
      modifies `pcb
      ensures Valid() && !pcb
      ensures Now() == old(Now()).(pcb := false)
    {
      pcb := false;
    }

    method DeliverData(p: seq<seq<Byte>>, wndMax: nat)
      requires Valid()
      modifies `queue, `pcbEof, `fromLwip
      ensures Valid() && pcbEof == old(pcbEof)
      ensures fromLwip == old(fromLwip) +
        (if pcb && !pcbEof && p != [] && NonEmpty(p) && (old(queue) == [] || |Flatten(old(queue))| <= wndMax)
         then Flatten(p) else [])
      ensures Sane(old(Now())) && Now() == Heard(old(Now()), Data(p, wndMax))
    {
      hide *;
      NowIsSane();
      NowIs();
      HeardData(Now(), p, wndMax);
      assert queue + [] == queue && fromLwip + [] == fromLwip;
      if pcb && !pcbEof && p != [] && NonEmpty(p) {
        var _ := Recv(Some(p), wndMax);
      }
    }

    method DeliverEnd()
      requires Valid()
      modifies `queue, `pcbEof, `fromLwip
      ensures Valid() && pcbEof == (pcb || old(pcbEof)) && fromLwip == old(fromLwip)
      ensures Sane(old(Now())) && Now() == Heard(old(Now()), End)
    {
      hide *;
      NowIsSane();
      NowIs();
      HeardEnd(Now());
      assert queue + [] == queue && fromLwip + [] == fromLwip;
      if pcb && !pcbEof {
        var _ := Recv(None, 0);
      }
    }

    method DeliverAck(len: nat)
      requires Valid()
      modifies `acked, ring
      ensures Valid() && acked == old(acked) + (if old(acked) + len <= |handed| then len else 0)
      ensures Sane(old(Now())) && Now() == Heard(old(Now()), Ack(len))
    {
      hide *;
      NowIsSane();
      NowIs();
      HeardAck(Now(), len);
      if acked + len <= |handed| {
        Sent(len);
      }
    }

    /** A callback; ones that lwIP never makes (data after its end of stream, say) are skipped. */
    method Deliver(e: Event)
      requires Valid()
      modifies `queue, `pcb, `pcbEof, `fromLwip, `acked, ring
      ensures Valid()
      ensures pcb == (old(pcb) && !e.Error?)
      ensures pcbEof == (old(pcbEof) || (e.End? && old(pcb)))
      ensures acked == old(acked) + (if e.Ack? && old(acked) + e.len <= |handed| then e.len else 0)
      ensures fromLwip == old(fromLwip) +
        (if e.Data? && old(pcb && !pcbEof) && e.p != [] && NonEmpty(e.p)
            && (old(queue) == [] || |Flatten(old(queue))| <= e.wndMax) then Flatten(e.p) else [])
      ensures Sane(old(Now())) && Now() == Heard(old(Now()), e)
    {
      hide *;
      NowIsSane();
      HeardEnd(Now());
      assert fromLwip + [] == fromLwip;
      match e
      case Data(p, wndMax) => DeliverData(p, wndMax);
      case End => DeliverEnd();
      case Ack(len) => DeliverAck(len);
      case Error => PcbError();
    }

    method DeliverAll(es: seq<Event>)
      requires Valid()
      modifies `queue, `pcb, `pcbEof, `fromLwip, `acked, ring
      ensures Valid()
      ensures Sane(old(Now())) && Now() == HeardAll(old(Now()), es)
    {
      hide *;
      NowIsSane();
      ghost var f := Now();
      assert es[0..] == es;
      for i := 0 to |es|
        invariant Valid() && Sane(f) && Sane(Now())
        invariant HeardAll(f, es) == HeardAll(Now(), es[i..])
      {
        HearsOne(Now(), es[i..]);
        assert es[i..][1..] == es[i + 1..];
        Deliver(es[i]);
        NowIsSane();
      }
      HearsNone(Now());
    }

    /** Both directions, each unless it has ended. */
    method SpliceOnce(turn: Turn, f0: int, b0: int) returns (resF: int, resB: int)
      requires Valid() && -1 <= f0 <= 1 && -1 <= b0 <= 1
      requires (fwdDone <==> f0 == -1) && (backDone <==> b0 == -1)
      modifies this, ring, ring.data
      ensures Valid() && -1 <= resF <= 1 && -1 <= resB <= 1
      ensures (fwdDone <==> resF == -1) && (backDone <==> resB == -1)
      ensures Sane(old(Now())) && Now() == Turned(old(Now()), turn)
    {
      hide *;
      resF, resB := f0, b0;
      NowIsSane();
      NowIs();
      TurnIs(Now(), turn);
      Opened();
      if resF >= 0 {
        resF := SpliceF(Taking(queue, turn.fw));
      }
      NowIs();
      Opened();
      if resB >= 0 {
        ghost var segs;
        resB, segs := SpliceB(Filling(Free(), turn.bw), [turn.took0, turn.took1], turn.flushed);
      }
    }

    /**
     * hev_socks5_session_tcp_splice: the loop runs both directions until each has ended; it stops
     * early only when the yielder fails (or the script of turns runs out).
     */
    method Splice(turns: seq<Turn>) returns (finished: bool)
      requires Valid() && !fwdDone && !backDone
      modifies this, ring, ring.data
      ensures Valid() && Sane(old(Now()))
      ensures Now() == if old(pcb) then Spliced(old(Now()), turns) else old(Now())
      ensures finished <==> fwdDone && backDone
    {
      hide *;
      NowIsSane();
      ghost var f := Now();
      finished := false;
      if !pcb {
        return;
      }
      var resF, resB := 1, 1;
      assert turns[0..] == turns;
      for t := 0 to |turns|
        invariant Valid() && -1 <= resF <= 1 && -1 <= resB <= 1
        invariant (fwdDone <==> resF == -1) && (backDone <==> resB == -1) && !(fwdDone && backDone)
        invariant Sane(f) && Sane(Now()) && Spliced(f, turns) == Spliced(Now(), turns[t..])
      {
        var turn := turns[t];
        SplicesOne(Now(), turns[t..]);
        assert turns[t..][1..] == turns[t + 1..];
        resF, resB := SpliceOnce(turn, resF, resB);
        NowIs();
        if !(resF > 0 || resB > 0) && AndResult(resF, resB) != 0 {
          finished := true;
          return;
        }
        if !turn.yielded {
          return;
        }
        DeliverAll(turn.meanwhile);
        NowIsSane();
        NowIs();
      }
      SplicesNone(Now());
    }

    /** After the loop the session waits until lwIP has acknowledged everything in the ring. */
    method Drain(naps: seq<seq<Event>>) returns (drained: bool)
      requires Valid() && fwdDone && backDone
      modifies this, ring, ring.data
      ensures Valid() && Sane(old(Now()))
      ensures (Now(), drained) == Waited(old(Now()), naps)
      ensures drained && pcb ==> ring.InFlight() == [] && ring.Readable() == []
      ensures drained && pcb ==> !refused && acked == |handed| == |sockIn|
    {
      hide *;
      NowIsSane();
      NowIs();
      ghost var f := Now();
      assert naps[0..] == naps;
      for i := 0 to |naps|
        invariant Valid() && Sane(f) && Sane(Now()) && Waited(f, naps) == Waited(Now(), naps[i..])
      {
        NowIs();
        WaitsOne(Now(), naps[i..]);
        assert naps[i..][1..] == naps[i + 1..];
        if !pcb {
          return true;
        }
        Opened();
        var used := ring.GetUseSize();
        UsedIs();
        if used == 0 {
          Emptied();
          return true;
        }
        DeliverAll(naps[i]);
        NowIsSane();
      }
      NowIs();
      WaitsOne(Now(), []);
      Opened();
      var used := ring.GetUseSize();
      UsedIs();
      if pcb && used == 0 {
        Emptied();
      }
      drained := !pcb || used == 0;
    }

    lemma UsedIs()
      requires ring.Valid()
      ensures |ring.InFlight()| + |ring.Readable()| == ring.useSize
    {
    }

    lemma Emptied()
      requires Valid() && |ring.InFlight()| + |ring.Readable()| == 0
      ensures ring.InFlight() == [] && ring.Readable() == []
      ensures !refused && acked == |handed| == |sockIn|
    {
    }
  }

  lemma NonePushed(n: nat, room: nat, took: seq<bool>)
    requires |took| == 2
    ensures Pushed(n, 0, room, took) == []
  {
  }

  lemma TakenPushed(n: nat, pos: nat, len: nat, size: nat, took: seq<bool>)
    requires pos < size && len <= size && |took| == 2
    ensures Taken(n, Segments(pos, len, size), took) == Pushed(n, len, size - pos, took)
  {
    hide Taken;
    if len == 0 {
      TakenNone(n, took);
    } else if len <= size - pos {
      TakenOne(n, Iov(pos, len), took);
    } else {
      TakenTwo(n, Iov(pos, size - pos), Iov(0, len - (size - pos)), took);
    }
  }

  lemma PiecesAre(pos: nat, len: nat, n: nat)
    requires pos < n
    ensures Pieces(pos, len, n) == if len == 0 then 0 else if len > n - pos then 2 else 1
  {
  }

  lemma RefusedIs(segs: nat, took: seq<bool>)
    requires segs <= 2 == |took|
    ensures (exists i :: 0 <= i < segs && !took[i]) <==> (segs > 0 && !took[0]) || (segs == 2 && !took[1])
  {
  }

  /** Reading the fields of a session after tcp_splice_b as one value. */
  lemma BackIs(f: Flow, g: Flow, r: Read, took: seq<bool>, flushed: bool, segs: nat, refused: bool)
    requires Sane(f) && !f.backDone && |took| == 2 && (r.Got? ==> 1 <= |r.bytes| <= f.size - f.used)
    requires
      var m := if r.Got? then r.bytes else [];
      var all := f.ready + |m|;
      && g.queue == f.queue && g.pcb == f.pcb && g.pcbEof == f.pcbEof && g.acked == f.acked
      && g.sockOut == f.sockOut && g.sockShut == f.sockShut && g.fwdDone == f.fwdDone
      && g.size == f.size && g.used == f.used + |m| && g.sockIn == f.sockIn + m
      && g.handed == f.handed + (if f.pcb then Pushed(|f.handed|, all, f.size - f.rp, took) else [])
      && (f.pcb ==> g.ready == 0 && g.rp == Wrap(f.rp + all, f.size))
      && (!f.pcb ==> g.ready == all && g.rp == f.rp)
      && (f.pcb ==> segs == if all == 0 then 0 else if all > f.size - f.rp then 2 else 1)
    requires f.lwipShut == false && (g.lwipShut <==> f.pcb && segs == 0 && r.ReadEnded? && f.size - f.used > 0)
    requires f.pcb ==> (refused <==> (segs > 0 && !took[0]) || (segs == 2 && !took[1]))
    requires g.backDone <==>
      !f.pcb || refused || (segs > 0 && !flushed) || (segs == 0 && r.ReadEnded? && f.size - f.used > 0)
    ensures g == SplicedB(f, r, took, flushed)
  {
    hide Pushed, Wrap;
    assert f.sockIn + [] == f.sockIn;
    NonePushed(|f.handed|, f.size - f.rp, took);
    WrapsNot(f.rp, f.size);
  }

  lemma WrapsNot(pos: nat, n: nat)
    requires pos < n
    ensures Wrap(pos, n) == pos
  {
  }

  /** A run from the start to a gap: the ring wraps, and lwIP refuses the first of two segments. */
  method ReachGap(a: Byte, b: Byte, c: Byte, d: Byte) returns (s: TcpSession)
    ensures s.Valid() && s.sockIn == [a, b, c, d] && s.gap && s.handed != Iota(0, |s.handed|)
  {
    s := new TcpSession(3);
    var res;
    ghost var segs;
    assert [] + [a, b] == [a, b] && [a, b] + [c, d] == [a, b, c, d];
    res, segs := s.SpliceB(Got([a, b]), [true, true], true);
    s.Sent(1);
    res, segs := s.SpliceB(Got([c, d]), [false, true], true);
  }
}
