/** The UDP session of hev-socks5-session-udp.c: its name map and its pool of waiting datagrams. */
module UdpSession {
  import opened Bytes
  import opened Wrappers
  import opened HevList
  import opened UdpNames

  /** UDP_POOL_SIZE: the pool refuses datagrams once it holds more than this. */
  const POOL: nat := 512

  datatype SocksAddr = Ipv4(addr: U32, port: U16) | Ipv6(bytes: seq<Byte>, port: U16)
                     | Named(name: seq<Byte>, port: U16) | Unknown

  datatype Frame = Frame(addr: SocksAddr, data: seq<Byte>)

  const EMPTY: Slot := Slot([], 0, 0)

  /** The slot array, with the cursor at next, holds the first slots only, or has gone round. */
  ghost predicate Rotating(a: seq<Slot>, next: nat) {
    && |a| == SLOTS && next < SLOTS
    && (forall i :: 0 <= i < next ==> a[i].name != [])
    && (if a[next].name == [] then forall i :: next <= i < SLOTS ==> a[i].name == []
        else forall i :: 0 <= i < SLOTS ==> a[i].name != [])
  }

  /** The records, oldest insertion first. */
  ghost function Order(a: seq<Slot>, next: nat): (s: seq<Slot>)
    requires Rotating(a, next)
  {
    if a[next].name == [] then a[..next] else a[next..] + a[..next]
  }

  /** Where slot i comes in the order. */
  function Turn(a: seq<Slot>, next: nat, i: nat): nat
    requires |a| == SLOTS && next < SLOTS && i < SLOTS
  {
    if a[next].name == [] then i else if i >= next then i - next else i + SLOTS - next
  }

  lemma TurnIs(a: seq<Slot>, next: nat, i: nat)
    requires Rotating(a, next) && i < SLOTS && a[i].name != []
    ensures var s, k := Order(a, next), Turn(a, next, i); k < |s| && s[k] == a[i]
  {
  }

  lemma Replacing(a: seq<Slot>, next: nat, i: nat, e: Slot)
    requires Rotating(a, next) && i < SLOTS && a[i].name == e.name != []
    ensures var s, k := Order(a, next), Turn(a, next, i);
            k < |s| && Rotating(a[i := e], next) && Order(a[i := e], next) == s[k := e]
  {
    var s, k := Order(a, next), Turn(a, next, i);
    var b := a[i := e];
    assert Rotating(b, next);
    var r := Order(b, next);
    assert |r| == |s| && forall j :: 0 <= j < |r| ==> r[j] == s[k := e][j];
  }

  lemma PosIs(s: seq<Slot>, k: nat)
    requires k < |s| && Distinct(NamesOf(s))
    ensures PosOf(s, s[k].name) == k
  {
    var p := PosOf(s, s[k].name);
    assert NamesOf(s)[k] == s[k].name;
    if p < |s| { assert NamesOf(s)[p] == s[k].name; }
  }

  lemma FoundAt(a: seq<Slot>, next: nat, i: nat, e: Slot)
    requires Rotating(a, next) && i < SLOTS && Storable(a[i].name) && Distinct(NamesOf(Order(a, next)))
    requires e.name == a[i].name
    ensures var s, k := Order(a, next), PosOf(Order(a, next), a[i].name);
            k < |s| && s[k] == a[i] && Rotating(a[i := e], next) && Order(a[i := e], next) == s[k := e]
  {
    hide PosOf, NamesOf, Turn;
    TurnIs(a, next, i);
    PosIs(Order(a, next), Turn(a, next, i));
    Replacing(a, next, i, e);
  }

  lemma NotFound(a: seq<Slot>, next: nat, name: seq<Byte>)
    requires Rotating(a, next) && (forall i :: 0 <= i < SLOTS ==> a[i].name != name)
    ensures PosOf(Order(a, next), name) == |Order(a, next)|
  {
    var s := Order(a, next);
    forall k | 0 <= k < |s| ensures s[k].name != name {
      assert s[k] == a[if a[next].name == [] then k else if k < SLOTS - next then next + k else k - (SLOTS - next)];
    }
  }

  lemma Inserting(a: seq<Slot>, next: nat, e: Slot)
    requires Rotating(a, next) && e.name != []
    ensures var s, n := Order(a, next), (next + 1) % SLOTS;
            && Rotating(a[next := e], n)
            && Order(a[next := e], n) == (if |s| < SLOTS then s else s[1..]) + [e]
  {
    hide Order, Rotating;
    Rotates(a, next);
    if next + 1 < SLOTS {
      InsertingInside(a, next, e);
    } else {
      InsertingLast(a, next, e);
    }
  }

  lemma Rotates(a: seq<Slot>, next: nat)
    requires Rotating(a, next)
    ensures |a| == SLOTS && next < SLOTS && (next + 1) % SLOTS == if next + 1 < SLOTS then next + 1 else 0
  {
  }

  lemma InsertingInside(a: seq<Slot>, next: nat, e: Slot)
    requires Rotating(a, next) && e.name != [] && next + 1 < SLOTS
    ensures var s, b := Order(a, next), a[next := e];
            && Rotating(b, next + 1)
            && Order(b, next + 1) == (if |s| < SLOTS then s else s[1..]) + [e]
  {
    var b := a[next := e];
    assert forall i :: 0 <= i < SLOTS && i != next ==> b[i] == a[i];
    Pieces(a, next, e);
  }

  /** The slot after the last is the first. */
  lemma InsertingLast(a: seq<Slot>, next: nat, e: Slot)
    requires Rotating(a, next) && e.name != [] && next + 1 == SLOTS
    ensures var s, b := Order(a, next), a[next := e];
            && Rotating(b, 0)
            && Order(b, 0) == (if |s| < SLOTS then s else s[1..]) + [e]
  {
    var b := a[next := e];
    assert forall i :: 0 <= i < SLOTS && i != next ==> b[i] == a[i];
    Pieces(a, next, e);
  }

  lemma Pieces(a: seq<Slot>, next: nat, e: Slot)
    requires |a| == SLOTS && next < SLOTS
    ensures
      var b := a[next := e];
      && b[..next + 1] == a[..next] + [e] && b[next + 1..] == a[next + 1..]
      && (a[next..] + a[..next])[1..] + [e] == a[next + 1..] + (a[..next] + [e])
      && (next + 1 == SLOTS ==> b[0..] + b[..0] == a[..next] + [e])
  {
  }

  class UdpSession {
    const names: array<Slot>
    var namesNext: nat
    const frameList: List<Frame>
    var frames: nat
    var addr: U32
    var port: U16
    /** Datagrams taken from lwIP, and those the proxy has accepted, in order. */
    ghost var accepted: seq<Frame>
    ghost var sent: seq<Frame>
    /** Every record name_map_learn was called with, in order. */
    ghost var learned: seq<Slot>

    ghost function Known(): seq<Slot>
      requires NamesOk()
      reads `namesNext, `learned, names
    {
      Order(names[..], namesNext)
    }

    ghost function Waiting(): (r: seq<Frame>)
      reads frameList
      ensures |r| == |frameList.links|
    {
      seq(|frameList.links|, i requires 0 <= i < |frameList.links| reads frameList => frameList.links[i].item)
    }

    ghost predicate NamesOk()
      reads `namesNext, `learned, names
    {
      Rotating(names[..], namesNext) && Order(names[..], namesNext) == Run(learned)
    }

    ghost predicate PoolOk()
      reads `frames, `accepted, `sent, frameList, frameList.Repr
    {
      && frameList.Valid() && frames == |frameList.links| <= POOL + 1
      && this !in frameList.Repr && names !in frameList.Repr
      && accepted == sent + Waiting()
    }

    ghost predicate Valid()
      reads this, names, frameList, frameList.Repr
    {
      NamesOk() && PoolOk()
    }

    constructor ()
      ensures Valid() && Known() == [] && fresh(names) && fresh(frameList) && fresh(frameList.Repr)
      ensures accepted == [] && learned == [] && addr == 0 && port == 0
    {
      names := new Slot[SLOTS](_ => EMPTY);
      namesNext, frames, addr, port := 0, 0, 0, 0;
      frameList := new List<Frame>();
      accepted, sent, learned := [], [], [];
      new;
      assert Known() == [];
      assert Waiting() == [];
    }

    /** name_map_learn. */
    method Learn(name: seq<Byte>, ip: U32, p: U16)
      requires NamesOk()
      modifies names, `namesNext, `learned
      ensures NamesOk() && learned == old(learned) + [Slot(name, ip, p)]
      ensures Known() == UdpNames.Learn(old(Known()), Slot(name, ip, p))
    {
      hide Rotating, Order, PosOf, NamesOf;
      Rotates(names[..], namesNext);
      var e := Slot(name, ip, p);
      RunSound(learned);
      assert (learned + [e])[..|learned|] == learned;
      learned := learned + [e];
      if |name| == 0 || |name| > NAME_MAX {
        return;
      }
      for i := 0 to SLOTS
        invariant names[..] == old(names[..]) && namesNext == old(namesNext) && learned == old(learned) + [e]
        invariant forall j :: 0 <= j < i ==> names[j].name != name
      {
        if names[i].name == name {
          FoundAt(names[..], namesNext, i, e);
          names[i] := e;
          assert names[..] == old(names[..])[i := e];
          return;
        }
      }
      NotFound(names[..], namesNext, name);
      Inserting(names[..], namesNext, e);
      var slot := namesNext;
      namesNext := (namesNext + 1) % SLOTS;
      names[slot] := e;
      assert names[..] == old(names[..])[slot := e];
    }

    /** name_map_lookup. */
    method Lookup(name: seq<Byte>) returns (r: Option<(U32, U16)>)
      requires NamesOk()
      ensures r == UdpNames.Lookup(Known(), name)
    {
      RunSound(learned);
      if |name| == 0 || |name| > NAME_MAX {
        return None;
      }
      for i := 0 to SLOTS
        invariant forall j :: 0 <= j < i ==> names[j].name != name
      {
        if names[i].name == name {
          FoundAt(names[..], namesNext, i, names[i]);
          return Some((names[i].addr, names[i].port));
        }
      }
      NotFound(names[..], namesNext, name);
      return None;
    }

    /** udp_recv_handler: resolved is the destination as addr_from_lwip names it, ip and p its raw form. */
    method Recv(data: seq<Byte>, resolved: SocksAddr, ip: U32, p: U16) returns (taken: bool)
      requires Valid()
      modifies this, names, frameList, frameList.Repr
      ensures Valid() && fresh(frameList.Repr - old(frameList.Repr))
      ensures taken <==> |old(Waiting())| <= 512
      ensures accepted == old(accepted) + (if taken then [Frame(resolved, data)] else []) && sent == old(sent)
      ensures learned == old(learned) + if taken && resolved.Named? then [Slot(resolved.name, ip, p)] else []
      ensures (addr, port) == if taken && resolved.Named? then (ip, p) else old((addr, port))
    {
      hide NamesOk, Known;
      if frames > POOL {
        return false;
      }
      if resolved.Named? {
        Learn(resolved.name, ip, p);
        addr, port := ip, p;
      }
      Enqueue(Frame(resolved, data));
      return true;
    }

    method Enqueue(f: Frame)
      requires PoolOk() && frames <= POOL
      modifies `frames, `accepted, frameList, frameList.Repr
      ensures PoolOk() && fresh(frameList.Repr - old(frameList.Repr))
      ensures accepted == old(accepted) + [f] && sent == old(sent)
    {
      var frame := new Link<Frame>(f);
      ghost var waiting := Waiting();
      frames := frames + 1;
      frameList.AddTail(frame);
      accepted := accepted + [f];
      assert Waiting() == waiting + [f];
    }

    method Dequeue()
      requires PoolOk() && Waiting() != []
      modifies `frames, `sent, frameList, frameList.Repr
      ensures PoolOk() && frameList.Repr == old(frameList.Repr) && accepted == old(accepted)
      ensures sent == old(sent) + [old(Waiting())[0]] && Waiting() == old(Waiting())[1..]
    {
      ghost var waiting := Waiting();
      var node := frameList.First();
      frameList.Del(node, 0);
      frames := frames - 1;
      sent := sent + [node.item];
      assert Waiting() == waiting[1..];
    }

    /** The messages of the first n waiting frames, following the list. */
    method Gather(n: nat) returns (msgs: seq<Frame>)
      requires PoolOk() && n <= frames
      ensures msgs == Waiting()[..n]
    {
      ghost var w := Waiting();
      msgs := [];
      var node := frameList.First();
      for i := 0 to n
        invariant msgs == w[..i]
        invariant i < frames ==> node == frameList.links[i]
      {
        msgs := msgs + [node.item];
        node := node.next;
      }
    }

    /** hev_socks5_session_udp_fwd_f: the proxy accepts the first k of at most num messages. */
    method FwdF(num: nat, k: int) returns (res: int, msgs: seq<Frame>)
      requires Valid() && k <= num && k <= frames
      modifies `frames, `sent, frameList, frameList.Repr
      ensures Valid()
      ensures res == if old(Waiting()) == [] then 0 else if k <= 0 then -1 else 1
      ensures msgs == old(Waiting())[..if num < |old(Waiting())| then num else |old(Waiting())|]
      ensures sent == old(sent) + (if k > 0 then msgs[..k] else []) && accepted == old(accepted)
    {
      hide NamesOk;
      msgs := [];
      if frames <= 0 {
        return 0, [];
      }
      var n := if frames > num then num else frames;
      msgs := Gather(n);
      if k <= 0 {
        return -1, msgs;
      }
      ghost var w := Waiting();
      for i := 0 to k
        invariant NamesOk() && PoolOk() && frameList.Repr == old(frameList.Repr)
        invariant Waiting() == w[i..] && sent == old(sent) + w[..i]
      {
        Dequeue();
      }
      res := 1;
    }

    /**
     * Which source address hev_socks5_session_udp_fwd_b gives a reply; None: the reply is dropped.
     * A named peer answers from the address the application last used for it, while remembered.
     */
    method ReplySource(from: SocksAddr) returns (r: Option<(U32, U16)>, plain: bool)
      requires Valid()
      ensures from.Named? ==>
                && !plain
                && r == if Storable(from.name) && from.name in Newest(Inserted(learned))
                        then LastLearned(learned, from.name) else None
      ensures !from.Named? ==>
                if addr != 0 && port != 0 && from.Ipv4? && from.addr == addr
                then !plain && r == Some((addr, port)) else plain && r == None
    {
      plain := false;
      if from.Named? {
        r := Lookup(from.name);
        if Storable(from.name) {
          LookupIsLastLearned(learned, from.name);
        }
      } else if addr != 0 && port != 0 && from.Ipv4? && from.addr == addr {
        r := Some((addr, port));
      } else {
        r, plain := None, true;
      }
    }
  }
}
