/**
 * The two directions of hev-socks5-session-tcp.c as one value, and what each outcome of the sockets
 * and each callback of lwIP makes of it.
 */
module TcpFlow {
  import opened Bytes
  import opened RingBuffer

  /** Outcome of writev or readv: some progress, EAGAIN, or end of stream or error. */
  datatype Write = Wrote(n: nat) | WriteAgain | WriteFailed
  datatype Read = Got(bytes: seq<Byte>) | ReadAgain | ReadEnded

  /** What lwIP reports while the session sleeps: pbufs, end of stream, acknowledgement, or a dead pcb. */
  datatype Event = Data(p: seq<seq<Byte>>, wndMax: nat) | End | Ack(len: nat) | Error

  /** One turn of the splice loop as the outside decides it. */
  datatype Turn = Turn(fw: Write, bw: Read, took0: bool, took1: bool, flushed: bool,
                       yielded: bool, meanwhile: seq<Event>)

  function Min(a: nat, b: nat): nat {
    if a < b then a else b
  }

  /** How many pbufs one writev gathers. */
  const IOV_MAX: nat := 64

  function Flatten(q: seq<seq<Byte>>): seq<Byte> {
    if q == [] then [] else q[0] + Flatten(q[1..])
  }

  predicate NonEmpty(q: seq<seq<Byte>>) {
    q == [] || (q[0] != [] && NonEmpty(q[1..]))
  }

  /** pbuf_free_header: drops n bytes from the front of the chain. */
  function DropBytes(q: seq<seq<Byte>>, n: nat): (r: seq<seq<Byte>>)
    requires n <= |Flatten(q)| && NonEmpty(q)
    ensures Flatten(r) == Flatten(q)[n..] && NonEmpty(r)
  {
    if n == 0 || q == [] then q
    else if n >= |q[0]| then DropBytes(q[1..], n - |q[0]|)
    else
      assert ([q[0][n..]] + q[1..])[1..] == q[1..];
      [q[0][n..]] + q[1..]
  }

  lemma {:induction false} FlattenSplit(a: seq<seq<Byte>>, b: seq<seq<Byte>>)
    requires NonEmpty(a) && NonEmpty(b)
    ensures Flatten(a + b) == Flatten(a) + Flatten(b) && NonEmpty(a + b)
  {
    if a == [] {
      assert a + b == b;
    } else {
      assert (a + b)[1..] == a[1..] + b;
      FlattenSplit(a[1..], b);
    }
  }

  lemma {:induction false} NonEmptySlices(q: seq<seq<Byte>>, k: nat)
    requires NonEmpty(q) && k <= |q|
    ensures NonEmpty(q[..k]) && NonEmpty(q[k..])
  {
    if k > 0 {
      NonEmptySlices(q[1..], k - 1);
      assert q[..k][1..] == q[1..][..k - 1] && q[k..] == q[1..][k - 1..];
    }
  }

  function Iota(from: nat, n: nat): (r: seq<nat>)
    ensures |r| == n && forall i :: 0 <= i < n ==> r[i] == from + i
  {
    seq(n, i requires 0 <= i < n => from + i)
  }

  // ---- the session as a value ----

  /**
   * The pbufs that wait and what the proxy's socket has taken; what that socket has given and which
   * positions of it lwIP holds; the ring's read position, readable bytes, cells in use, and size.
   */
  datatype Flow = Flow(
    queue: seq<seq<Byte>>, pcb: bool, pcbEof: bool, sockOut: seq<Byte>, sockShut: bool, fwdDone: bool,
    sockIn: seq<Byte>, handed: seq<nat>, acked: nat, lwipShut: bool, backDone: bool,
    rp: nat, ready: nat, used: nat, size: nat)

  /** Cells in use are readable or in flight, and whatever lwIP may still acknowledge is in flight. */
  predicate Sane(f: Flow) {
    && NonEmpty(f.queue) && f.rp < f.size && f.ready <= f.used <= f.size
    && f.acked <= |f.handed| <= f.acked + (f.used - f.ready)
  }

  /** The pbufs that one writev can gather. */
  function Gathered(q: seq<seq<Byte>>): seq<seq<Byte>> {
    q[..if |q| <= IOV_MAX then |q| else IOV_MAX]
  }

  lemma GatheredPrefix(q: seq<seq<Byte>>)
    requires NonEmpty(q)
    ensures Flatten(Gathered(q)) <= Flatten(q) && (q != [] ==> Flatten(Gathered(q)) != [])
  {
    var k := |Gathered(q)|;
    assert q == q[..k] + q[k..];
    NonEmptySlices(q, k);
    FlattenSplit(q[..k], q[k..]);
  }

  /** writev takes at least one byte and at most what it was offered. */
  function Taking(q: seq<seq<Byte>>, w: Write): (r: Write)
    requires NonEmpty(q)
    ensures r.Wrote? && q != [] ==> 1 <= r.n <= |Flatten(Gathered(q))|
  {
    GatheredPrefix(q);
    if w.Wrote? then Wrote(if w.n == 0 then 1 else Min(w.n, |Flatten(Gathered(q))|)) else w
  }

  /** readv fills at most the free cells. */
  function Filling(free: nat, r: Read): (f: Read)
    ensures f.Got? ==> 1 <= |f.bytes| <= free
  {
    if !r.Got? then r else if r.bytes == [] || free == 0 then ReadAgain else Got(r.bytes[..Min(|r.bytes|, free)])
  }

  /** One tcp_splice_f. */
  function SplicedF(f: Flow, w: Write): (g: Flow)
    requires Sane(f) && (w.Wrote? && f.queue != [] ==> 1 <= w.n <= |Flatten(Gathered(f.queue))|)
    ensures Sane(g)
  {
    if f.queue == [] then (if f.pcbEof then f.(sockShut := true, fwdDone := true) else f)
    else
      match w
      case WriteAgain => f
      case WriteFailed => f.(fwdDone := true)
      case Wrote(n) =>
        GatheredPrefix(f.queue);
        f.(sockOut := f.sockOut + Flatten(f.queue)[..n], queue := DropBytes(f.queue, n))
  }

  /**
   * The positions lwIP takes of the ready bytes from position n on, when room of them lie before the
   * end of the ring: one piece, or two.
   */
  function Pushed(n: nat, ready: nat, room: nat, took: seq<bool>): (h: seq<nat>)
    requires |took| == 2
    ensures |h| <= ready
  {
    var first := if ready <= room then ready else room;
    (if took[0] then Iota(n, first) else []) + if took[1] && ready > room then Iota(n + first, ready - first) else []
  }

  /** What has been read is readable. */
  function Fed(f: Flow, m: seq<Byte>): (g: Flow)
    requires Sane(f) && |m| <= f.size - f.used
    ensures Sane(g)
  {
    f.(sockIn := f.sockIn + m, ready := f.ready + |m|, used := f.used + |m|)
  }

  /** All that is readable goes to lwIP in one or two pieces; with nothing readable, an end is passed on. */
  function Served(f: Flow, ended: bool, took: seq<bool>, flushed: bool): (g: Flow)
    requires Sane(f) && |took| == 2
    ensures Sane(g)
  {
    var room := f.size - f.rp;
    if !f.pcb then f.(backDone := true)
    else if f.ready == 0 then (if ended then f.(lwipShut := true, backDone := true) else f)
    else
      f.(handed := f.handed + Pushed(|f.handed|, f.ready, room, took), rp := Wrap(f.rp + f.ready, f.size), ready := 0,
         backDone := !flushed || !took[0] || (f.ready > room && !took[1]))
  }

  /** One tcp_splice_b. */
  function SplicedB(f: Flow, r: Read, took: seq<bool>, flushed: bool): (g: Flow)
    requires Sane(f) && |took| == 2 && (r.Got? ==> 1 <= |r.bytes| <= f.size - f.used)
    ensures Sane(g)
  {
    Served(Fed(f, if r.Got? then r.bytes else []), r.ReadEnded? && f.used < f.size, took, flushed)
  }

  /** One callback of lwIP; ones that it never makes are skipped. */
  function Heard(f: Flow, e: Event): (g: Flow)
    requires Sane(f)
    ensures Sane(g) && g.fwdDone == f.fwdDone && g.backDone == f.backDone
  {
    match e
    case Data(p, wndMax) =>
      if f.pcb && !f.pcbEof && p != [] && NonEmpty(p) && (f.queue == [] || |Flatten(f.queue)| <= wndMax) then
        FlattenSplit(f.queue, p);
        f.(queue := f.queue + p)
      else f
    case End => if f.pcb then f.(pcbEof := true) else f
    case Ack(len) =>
      if f.acked + len <= |f.handed| then
        f.(acked := f.acked + len, used := f.used - len, rp := if f.used == len then 0 else f.rp)
      else f
    case Error => f.(pcb := false)
  }

  function HeardAll(f: Flow, es: seq<Event>): (g: Flow)
    requires Sane(f)
    ensures Sane(g) && g.fwdDone == f.fwdDone && g.backDone == f.backDone
    decreases |es|
  {
    if es == [] then f else HeardAll(Heard(f, es[0]), es[1..])
  }

  /** One turn of the splice loop. */
  function Turned(f: Flow, t: Turn): (g: Flow)
    requires Sane(f)
    ensures Sane(g)
  {
    var a := if f.fwdDone then f else SplicedF(f, Taking(f.queue, t.fw));
    if a.backDone then a else SplicedB(a, Filling(a.size - a.used, t.bw), [t.took0, t.took1], t.flushed)
  }

  /** The splice loop: on until both directions have ended, the yielder fails or the turns run out. */
  function Spliced(f: Flow, turns: seq<Turn>): (g: Flow)
    requires Sane(f)
    ensures Sane(g)
    decreases |turns|
  {
    if turns == [] then f
    else
      var a := Turned(f, turns[0]);
      if (a.fwdDone && a.backDone) || !turns[0].yielded then a
      else Spliced(HeardAll(a, turns[0].meanwhile), turns[1..])
  }

  /** The wait for the ring to empty, and whether it has come to its end. */
  function Waited(f: Flow, naps: seq<seq<Event>>): (g: (Flow, bool))
    requires Sane(f)
    ensures Sane(g.0)
    decreases |naps|
  {
    if !f.pcb || f.used == 0 then (f, true)
    else if naps == [] then (f, false)
    else Waited(HeardAll(f, naps[0]), naps[1..])
  }

  // ---- one step of each loop ----

  lemma HearsOne(f: Flow, es: seq<Event>)
    requires Sane(f) && es != []
    ensures HeardAll(f, es) == HeardAll(Heard(f, es[0]), es[1..])
  {
  }

  lemma HearsNone(f: Flow)
    requires Sane(f)
    ensures HeardAll(f, []) == f
  {
  }

  lemma TurnIs(f: Flow, t: Turn)
    requires Sane(f)
    ensures
      var a := if f.fwdDone then f else SplicedF(f, Taking(f.queue, t.fw));
      Turned(f, t)
      == if a.backDone then a else SplicedB(a, Filling(a.size - a.used, t.bw), [t.took0, t.took1], t.flushed)
  {
    hide SplicedF, SplicedB, Taking, Filling, Flatten, NonEmpty;
  }

  lemma SplicesOne(f: Flow, turns: seq<Turn>)
    requires Sane(f) && turns != []
    ensures
      var a := Turned(f, turns[0]);
      Spliced(f, turns)
      == if (a.fwdDone && a.backDone) || !turns[0].yielded then a
         else Spliced(HeardAll(a, turns[0].meanwhile), turns[1..])
  {
  }

  lemma SplicesNone(f: Flow)
    requires Sane(f)
    ensures Spliced(f, []) == f
  {
  }

  lemma WaitsOne(f: Flow, naps: seq<seq<Event>>)
    requires Sane(f)
    ensures Waited(f, naps)
      == if !f.pcb || f.used == 0 then (f, true)
         else if naps == [] then (f, false)
         else Waited(HeardAll(f, naps[0]), naps[1..])
  {
  }

  lemma HeardData(f: Flow, p: seq<seq<Byte>>, wndMax: nat)
    requires Sane(f)
    ensures Heard(f, Data(p, wndMax)) == f.(queue := f.queue +
      if f.pcb && !f.pcbEof && p != [] && NonEmpty(p) && (f.queue == [] || |Flatten(f.queue)| <= wndMax) then p else [])
  {
    hide Flatten, NonEmpty;
    assert f.queue + [] == f.queue;
  }

  lemma HeardAck(f: Flow, len: nat)
    requires Sane(f)
    ensures
      var g := Heard(f, Ack(len));
      if f.acked + len <= |f.handed| then
        && len <= f.used
        && g == f.(acked := f.acked + len, used := f.used - len, rp := if f.used == len then 0 else f.rp)
      else g == f
  {
    hide Flatten, NonEmpty;
  }

  lemma HeardEnd(f: Flow)
    requires Sane(f)
    ensures Heard(f, End) == f.(pcbEof := f.pcb || f.pcbEof)
    ensures Heard(f, Error) == f.(pcb := false)
  {
  }
}
