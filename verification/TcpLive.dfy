/** What a TCP session gets done, turn by turn and over whole runs of its two loops. */
module TcpLive {
  import opened Bytes
  import opened RingBuffer
  import opened TcpFlow

  // ---- one turn ----

  /** What the proxy's socket gives is read, up to the free cells. */
  lemma TurnReads(f: Flow, t: Turn)
    requires Sane(f) && !f.backDone && t.bw.Got?
    ensures
      var free := f.size - f.used;
      Turned(f, t).sockIn == f.sockIn + if |t.bw.bytes| <= free then t.bw.bytes else t.bw.bytes[..free]
  {
    hide SplicedF, SplicedB, Taking;
    TurnIs(f, t);
    var a := if f.fwdDone then f else SplicedF(f, Taking(f.queue, t.fw));
    if !f.fwdDone {
      FwdKeeps(f, Taking(f.queue, t.fw));
    }
    BackKeeps(a, Filling(a.size - a.used, t.bw), [t.took0, t.took1], t.flushed);
    assert f.sockIn + [] == f.sockIn;
    assert t.bw.bytes[..|t.bw.bytes|] == t.bw.bytes;
  }

  lemma FwdKeeps(f: Flow, w: Write)
    requires Sane(f) && (w.Wrote? && f.queue != [] ==> 1 <= w.n <= |Flatten(Gathered(f.queue))|)
    ensures
      var g := SplicedF(f, w);
      && g.sockIn == f.sockIn && g.handed == f.handed && g.acked == f.acked && g.lwipShut == f.lwipShut
      && g.backDone == f.backDone && g.pcb == f.pcb && g.pcbEof == f.pcbEof
      && g.rp == f.rp && g.ready == f.ready && g.used == f.used && g.size == f.size
  {
    hide DropBytes, Gathered, Flatten;
  }

  /** What waits for the proxy's socket is written, as much as it takes of the first 64 pbufs, a byte at least. */
  lemma TurnWrites(f: Flow, t: Turn)
    requires Sane(f) && !f.fwdDone && t.fw.Wrote? && f.queue != []
    ensures
      var g := Turned(f, t);
      var offered := Flatten(f.queue[..if |f.queue| <= 64 then |f.queue| else 64]);
      && offered != [] && offered <= Flatten(f.queue) && !g.fwdDone
      && g.sockOut == f.sockOut +
           (if t.fw.n == 0 then offered[..1] else if t.fw.n <= |offered| then offered[..t.fw.n] else offered)
      && g.sockOut + Flatten(g.queue) == f.sockOut + Flatten(f.queue)
  {
    hide SplicedB, Flatten;
    TurnIs(f, t);
    GatheredPrefix(f.queue);
    var a := SplicedF(f, Taking(f.queue, t.fw));
    var n := Taking(f.queue, t.fw).n;
    var offered := Flatten(Gathered(f.queue));
    assert Flatten(f.queue)[..n] == offered[..n];
    assert f.sockOut + Flatten(f.queue)[..n] + Flatten(f.queue)[n..] == f.sockOut + Flatten(f.queue);
    BackKeeps(a, Filling(a.size - a.used, t.bw), [t.took0, t.took1], t.flushed);
  }

  lemma BackKeeps(f: Flow, r: Read, took: seq<bool>, flushed: bool)
    requires Sane(f) && |took| == 2 && (r.Got? ==> 1 <= |r.bytes| <= f.size - f.used)
    ensures
      var g, m := SplicedB(f, r, took, flushed), if r.Got? then r.bytes else [];
      && g.queue == f.queue && g.sockOut == f.sockOut && g.fwdDone == f.fwdDone && g.pcbEof == f.pcbEof
      && g.pcb == f.pcb && g.size == f.size && g.sockShut == f.sockShut && g.acked == f.acked
      && g.sockIn == f.sockIn + m && g.used == f.used + |m|
  {
    hide Served, NonEmpty;
    ServedKeeps(Fed(f, if r.Got? then r.bytes else []), r.ReadEnded? && f.used < f.size, took, flushed);
  }

  lemma ServedKeeps(f: Flow, ended: bool, took: seq<bool>, flushed: bool)
    requires Sane(f) && |took| == 2
    ensures
      var g := Served(f, ended, took, flushed);
      && g.queue == f.queue && g.sockOut == f.sockOut && g.fwdDone == f.fwdDone && g.pcbEof == f.pcbEof
      && g.pcb == f.pcb && g.size == f.size && g.sockShut == f.sockShut && g.acked == f.acked
      && g.sockIn == f.sockIn && g.used == f.used
  {
    hide Pushed, Wrap, NonEmpty;
  }

  // ---- the splice loop comes to its end ----

  /** From here on the proxy's socket takes bytes and has ended, and the yielder does not fail. */
  predicate Ending(turns: seq<Turn>) {
    forall i :: 0 <= i < |turns| ==> turns[i].fw.Wrote? && turns[i].bw.ReadEnded? && turns[i].yielded
  }

  /** How many turns either direction may still need. */
  function ForwardLeft(f: Flow): nat {
    if f.fwdDone then 0 else |Flatten(f.queue)| + 1
  }

  function BackLeft(f: Flow): nat {
    if f.backDone then 0 else if f.ready == 0 then 1 else 2
  }

  /** The application has ended; what has been written goes before what waits, and there is room to read. */
  predicate Winding(f: Flow) {
    f.pcbEof && (f.fwdDone ==> f.queue == [] && f.sockShut) && (f.backDone || f.used < f.size)
  }

  /**
   * Once the application has ended, a proxy that has ended too and takes at least a byte a turn lets
   * the loop finish in as many turns as bytes wait and two more, whatever lwIP takes, reports or
   * acknowledges meanwhile; all that waited has been written, and the socket is shut for writing.
   */
  lemma {:induction false} SpliceFinishes(f: Flow, turns: seq<Turn>)
    requires Sane(f) && Winding(f) && !(f.fwdDone && f.backDone)
    requires Ending(turns) && |turns| >= ForwardLeft(f) && |turns| >= BackLeft(f)
    ensures
      var g := Spliced(f, turns);
      g.fwdDone && g.backDone && g.sockShut && g.queue == [] && g.sockOut == f.sockOut + Flatten(f.queue)
    decreases |turns|
  {
    hide Turned, Sane, HeardAll, Flatten;
    SplicesOne(f, turns);
    var a := Turned(f, turns[0]);
    TurnWinds(f, turns[0]);
    NothingLeft();
    if a.fwdDone && a.backDone {
      assert a.sockOut + [] == a.sockOut;
    } else {
      HeardWinds(a, turns[0].meanwhile);
      SpliceFinishes(HeardAll(a, turns[0].meanwhile), turns[1..]);
    }
  }

  lemma NothingLeft()
    ensures Flatten([]) == []
  {
  }

  lemma TurnWinds(f: Flow, t: Turn)
    requires Sane(f) && Winding(f) && t.fw.Wrote? && t.bw.ReadEnded?
    ensures
      var g := Turned(f, t);
      && Winding(g) && g.sockOut + Flatten(g.queue) == f.sockOut + Flatten(f.queue)
      && (ForwardLeft(f) > 0 ==> ForwardLeft(g) < ForwardLeft(f)) && (ForwardLeft(f) == 0 ==> ForwardLeft(g) == 0)
      && (BackLeft(f) > 0 ==> BackLeft(g) < BackLeft(f)) && (BackLeft(f) == 0 ==> BackLeft(g) == 0)
  {
    hide SplicedF, SplicedB, Taking, Flatten, NonEmpty;
    TurnIs(f, t);
    var a := if f.fwdDone then f else SplicedF(f, Taking(f.queue, t.fw));
    if !f.fwdDone {
      FwdKeeps(f, Taking(f.queue, t.fw));
      FwdWinds(f, t.fw);
    }
    if !a.backDone {
      BackKeeps(a, ReadEnded, [t.took0, t.took1], t.flushed);
      BackWinds(a, [t.took0, t.took1], t.flushed);
    }
  }

  lemma FwdWinds(f: Flow, w: Write)
    requires Sane(f) && f.pcbEof && !f.fwdDone && w.Wrote?
    ensures
      var g := SplicedF(f, Taking(f.queue, w));
      && g.sockOut + Flatten(g.queue) == f.sockOut + Flatten(f.queue)
      && (g.fwdDone ==> g.queue == [] && g.sockShut)
      && (g.fwdDone || |Flatten(g.queue)| < |Flatten(f.queue)|)
  {
    hide DropBytes, Gathered, NonEmpty, Flatten;
    GatheredPrefix(f.queue);
    if f.queue != [] {
      var n := Taking(f.queue, w).n;
      assert f.sockOut + Flatten(f.queue)[..n] + Flatten(f.queue)[n..] == f.sockOut + Flatten(f.queue);
    }
  }

  lemma BackWinds(f: Flow, took: seq<bool>, flushed: bool)
    requires Sane(f) && !f.backDone && f.used < f.size && |took| == 2
    ensures
      var g := SplicedB(f, ReadEnded, took, flushed);
      g.backDone || (f.ready > 0 && g.ready == 0)
  {
    hide Pushed, Wrap, NonEmpty;
  }

  lemma {:induction false} HeardWinds(f: Flow, es: seq<Event>)
    requires Sane(f) && Winding(f)
    ensures
      var g := HeardAll(f, es);
      && Winding(g) && g.queue == f.queue && g.sockOut == f.sockOut && g.ready == f.ready
      && g.fwdDone == f.fwdDone && g.backDone == f.backDone
    decreases |es|
  {
    hide Heard, HeardAll, Sane;
    if es == [] {
      HearsNone(f);
    } else {
      HearsOne(f, es);
      OneWinds(f, es[0]);
      HeardWinds(Heard(f, es[0]), es[1..]);
    }
  }

  lemma OneWinds(f: Flow, e: Event)
    requires Sane(f) && Winding(f)
    ensures
      var g := Heard(f, e);
      && Winding(g) && g.queue == f.queue && g.sockOut == f.sockOut && g.ready == f.ready
      && g.fwdDone == f.fwdDone && g.backDone == f.backDone
  {
    hide Flatten, NonEmpty;
  }

  // ---- what the proxy sends reaches lwIP ----

  function Flat(xs: seq<seq<Byte>>): seq<Byte> {
    if xs == [] then [] else xs[0] + Flat(xs[1..])
  }

  /** Turns in which the proxy gives some bytes, lwIP takes and later acknowledges them; then the proxy ends. */
  function Serving(xs: seq<seq<Byte>>): seq<Turn> {
    if xs == [] then [Turn(WriteAgain, ReadEnded, true, true, true, true, [])]
    else [Turn(WriteAgain, Got(xs[0]), true, true, true, true, [Ack(|xs[0]|)])] + Serving(xs[1..])
  }

  /** lwIP holds all that was read, and has acknowledged it. */
  predicate Settled(f: Flow) {
    && f.pcb && !f.backDone && f.queue == [] && !f.pcbEof && !f.fwdDone
    && f.used == 0 && f.ready == 0 && f.rp < f.size
    && f.handed == Iota(0, |f.sockIn|) && f.acked == |f.handed|
  }

  /**
   * Whatever chunks the proxy sends in, and wherever they wrap round the ring, lwIP is given every
   * byte in order, and told of the end after the last.
   */
  lemma {:induction false} ServingDelivers(f: Flow, xs: seq<seq<Byte>>)
    requires Sane(f) && Settled(f) && forall i :: 0 <= i < |xs| ==> 1 <= |xs[i]| <= f.size
    ensures
      var g := Spliced(f, Serving(xs));
      && g.sockIn == f.sockIn + Flat(xs) && g.handed == Iota(0, |g.sockIn|) && g.acked == |g.handed|
      && g.lwipShut && g.backDone && g.used == 0
    decreases |xs|
  {
    hide Turned, Sane, HeardAll, Settled;
    var turns := Serving(xs);
    SplicesOne(f, turns);
    if xs == [] {
      ServingEnds(f);
      HearsNone(Turned(f, turns[0]));
      SplicesNone(Turned(f, turns[0]));
      assert f.sockIn + [] == f.sockIn;
    } else {
      var x := xs[0];
      assert turns[1..] == Serving(xs[1..]);
      ServingGoesOn(f, x);
      var g := HeardAll(Turned(f, turns[0]), [Ack(|x|)]);
      ServingDelivers(g, xs[1..]);
      assert f.sockIn + x + Flat(xs[1..]) == f.sockIn + Flat(xs);
    }
  }

  lemma ServingEnds(f: Flow)
    requires Sane(f) && Settled(f)
    ensures
      var g := Turned(f, Turn(WriteAgain, ReadEnded, true, true, true, true, []));
      && g == f.(lwipShut := true, backDone := true) && g.handed == Iota(0, |g.sockIn|) && !g.fwdDone
      && g.acked == |g.handed| && g.used == 0
  {
    hide Taking;
    TurnIs(f, Turn(WriteAgain, ReadEnded, true, true, true, true, []));
    assert f.sockIn + [] == f.sockIn;
  }

  lemma ServingGoesOn(f: Flow, x: seq<Byte>)
    requires Sane(f) && Settled(f) && 1 <= |x| <= f.size
    ensures
      var t := Turn(WriteAgain, Got(x), true, true, true, true, [Ack(|x|)]);
      var a := Turned(f, t);
      var g := HeardAll(a, [Ack(|x|)]);
      && !a.backDone && Settled(g) && g.sockIn == f.sockIn + x && g.size == f.size
  {
    var t := Turn(WriteAgain, Got(x), true, true, true, true, [Ack(|x|)]);
    var a := Turned(f, t);
    ServingTurn(f, x);
    HearsOne(a, [Ack(|x|)]);
    HeardAck(a, |x|);
    HearsNone(Heard(a, Ack(|x|)));
  }

  lemma ServingTurn(f: Flow, x: seq<Byte>)
    requires Sane(f) && Settled(f) && 1 <= |x| <= f.size
    ensures
      var a := Turned(f, Turn(WriteAgain, Got(x), true, true, true, true, [Ack(|x|)]));
      a == f.(sockIn := f.sockIn + x, handed := Iota(0, |f.sockIn + x|), used := |x|, rp := Wrap(f.rp + |x|, f.size))
  {
    hide SplicedF, SplicedB, Taking, Sane;
    var t := Turn(WriteAgain, Got(x), true, true, true, true, [Ack(|x|)]);
    TurnIs(f, t);
    QuietForward(f);
    assert x[..|x|] == x;
    BackServes(f, x);
  }

  lemma QuietForward(f: Flow)
    requires Sane(f) && f.queue == [] && !f.pcbEof
    ensures SplicedF(f, Taking(f.queue, WriteAgain)) == f
  {
  }

  lemma BackServes(f: Flow, x: seq<Byte>)
    requires Sane(f) && Settled(f) && 1 <= |x| <= f.size
    ensures SplicedB(f, Got(x), [true, true], true)
      == f.(sockIn := f.sockIn + x, handed := Iota(0, |f.sockIn + x|), used := |x|, rp := Wrap(f.rp + |x|, f.size))
  {
    hide Pushed, Wrap, NonEmpty;
    AllPushed(|f.handed|, |x|, f.size - f.rp);
  }

  lemma AllPushed(n: nat, len: nat, room: nat)
    ensures Iota(0, n) + Pushed(n, len, room, [true, true]) == Iota(0, n + len)
  {
  }

  // ---- the ring empties ----

  /** How much some acknowledgements release. */
  function Acked(es: seq<Event>): nat {
    if es == [] then 0 else (if es[0].Ack? then es[0].len else 0) + Acked(es[1..])
  }

  function AckedInAll(naps: seq<seq<Event>>): nat {
    if naps == [] then 0 else Acked(naps[0]) + AckedInAll(naps[1..])
  }

  predicate OnlyAcks(naps: seq<seq<Event>>) {
    forall i, j :: 0 <= i < |naps| && 0 <= j < |naps[i]| ==> naps[i][j].Ack?
  }

  /** Acknowledgements of everything in flight empty the ring, in whatever portions they come. */
  lemma {:induction false} AcksDrain(f: Flow, naps: seq<seq<Event>>)
    requires Sane(f) && f.pcb && f.used == |f.handed| - f.acked
    requires OnlyAcks(naps) && AckedInAll(naps) == f.used
    ensures
      var g := Waited(f, naps);
      g.1 && g.0.used == 0 && g.0.acked == |g.0.handed| && g.0.handed == f.handed && g.0.pcb
    decreases |naps|
  {
    hide HeardAll, Sane;
    WaitsOne(f, naps);
    if f.used > 0 {
      if naps == [] {
        assert false;
      } else {
        AcksHeard(f, naps[0]);
        AcksDrain(HeardAll(f, naps[0]), naps[1..]);
      }
    }
  }

  lemma {:induction false} AcksHeard(f: Flow, es: seq<Event>)
    requires Sane(f) && Acked(es) <= |f.handed| - f.acked && forall i :: 0 <= i < |es| ==> es[i].Ack?
    ensures Acked(es) <= f.used
    ensures
      var g := HeardAll(f, es);
      g.pcb == f.pcb && g.handed == f.handed && g.acked == f.acked + Acked(es) && g.used == f.used - Acked(es)
    decreases |es|
  {
    hide HeardAll, Heard;
    if es == [] {
      HearsNone(f);
    } else {
      HearsOne(f, es);
      HeardAck(f, es[0].len);
      AcksHeard(Heard(f, es[0]), es[1..]);
    }
  }

  /** While the pcb lives, bytes that lwIP refused keep the ring from ever emptying. */
  lemma {:induction false} RefusedStays(f: Flow, naps: seq<seq<Event>>)
    requires Sane(f) && f.pcb && f.used > |f.handed| - f.acked
    requires forall i, j :: 0 <= i < |naps| && 0 <= j < |naps[i]| ==> !naps[i][j].Error?
    ensures !Waited(f, naps).1
    decreases |naps|
  {
    hide HeardAll, NonEmpty;
    WaitsOne(f, naps);
    if naps != [] {
      RefusedHeard(f, naps[0]);
      RefusedStays(HeardAll(f, naps[0]), naps[1..]);
    }
  }

  lemma {:induction false} RefusedHeard(f: Flow, es: seq<Event>)
    requires Sane(f) && f.pcb && f.used > |f.handed| - f.acked && forall i :: 0 <= i < |es| ==> !es[i].Error?
    ensures
      var g := HeardAll(f, es);
      g.pcb && g.used > |g.handed| - g.acked
    decreases |es|
  {
    hide HeardAll, Heard, Sane;
    if es == [] {
      HearsNone(f);
    } else {
      HearsOne(f, es);
      RefusedOne(f, es[0]);
      RefusedHeard(Heard(f, es[0]), es[1..]);
    }
  }

  lemma RefusedOne(f: Flow, e: Event)
    requires Sane(f) && f.pcb && f.used > |f.handed| - f.acked && !e.Error?
    ensures
      var g := Heard(f, e);
      g.pcb && g.used > |g.handed| - g.acked
  {
    hide Flatten, NonEmpty;
  }
}
