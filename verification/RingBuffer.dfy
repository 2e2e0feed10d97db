/**
 * The ring buffer of hev-ring-buffer.c. A byte passes through three stages: free, readable, and
 * handed out to lwIP but not acknowledged; reading and releasing advance separately.
 */
module RingBuffer {
  import opened Bytes
  import opened Bits

  /** One struct iovec into the ring: a base offset and a length. */
  datatype Iov = Iov(base: nat, len: nat)

  function Wrap(x: nat, n: nat): (r: nat)
    requires x < 2 * n
    ensures r < n
  {
    if x < n then x else x - n
  }

  lemma WrapIsMod(x: nat, n: nat)
    requires x < 2 * n
    ensures x % n == Wrap(x, n)
  {
    ModIs(x, n, if x < n then 0 else 1, Wrap(x, n));
  }

  /** The len cells from pos on, going round the end. */
  function Cells(d: seq<Byte>, pos: nat, len: nat): (r: seq<Byte>)
    requires pos < |d| && len <= |d|
    ensures |r| == len && forall i :: 0 <= i < len ==> r[i] == d[Wrap(pos + i, |d|)]
  {
    seq(len, i requires 0 <= i < len => d[Wrap(pos + i, |d|)])
  }

  lemma CellsSplit(d: seq<Byte>, pos: nat, a: nat, b: nat)
    requires pos < |d| && a + b <= |d|
    ensures Cells(d, pos, a + b) == Cells(d, pos, a) + Cells(d, Wrap(pos + a, |d|), b)
  {
    var l, r := Cells(d, pos, a + b), Cells(d, pos, a) + Cells(d, Wrap(pos + a, |d|), b);
    forall i | 0 <= i < a + b ensures l[i] == r[i] {
      assert i >= a ==> Wrap(Wrap(pos + a, |d|) + (i - a), |d|) == Wrap(pos + i, |d|);
    }
  }

  lemma CellsSegments(d: seq<Byte>, pos: nat, len: nat)
    requires pos < |d| && len <= |d|
    ensures Cells(d, pos, len) ==
            if pos + len <= |d| then d[pos..pos + len] else d[pos..] + d[..pos + len - |d|]
  {
    var l := Cells(d, pos, len);
    if pos + len <= |d| {
      assert forall i :: 0 <= i < len ==> l[i] == d[pos..pos + len][i];
    } else {
      var r := d[pos..] + d[..pos + len - |d|];
      assert |r| == len;
      assert forall i :: 0 <= i < len ==> l[i] == r[i];
    }
  }

  /** The bytes an iovec array denotes. */
  function Gather(d: seq<Byte>, iov: seq<Iov>): seq<Byte>
    requires InRange(|d|, iov)
  {
    if iov == [] then [] else d[iov[0].base..iov[0].base + iov[0].len] + Gather(d, iov[1..])
  }

  /** The cells an iovec array names, in the order readv fills them. */
  function Spread(iov: seq<Iov>): seq<nat> {
    if iov == [] then [] else seq(iov[0].len, i requires 0 <= i < iov[0].len => iov[0].base + i) + Spread(iov[1..])
  }

  predicate InRange(n: nat, iov: seq<Iov>) {
    iov == [] || (iov[0].base + iov[0].len <= n && InRange(n, iov[1..]))
  }

  /** The segments of the len cells from pos on, as reading and writing compute them. */
  function Segments(pos: nat, len: nat, n: nat): (r: seq<Iov>)
    requires pos < n && len <= n
    ensures InRange(n, r) && |r| <= 2 && (r == [] <==> len == 0)
  {
    if len == 0 then [] else if len <= n - pos then [Iov(pos, len)]
    else [Iov(pos, n - pos), Iov(0, len - (n - pos))]
  }

  lemma SegmentsGather(d: seq<Byte>, pos: nat, len: nat)
    requires pos < |d| && len <= |d|
    ensures Gather(d, Segments(pos, len, |d|)) == Cells(d, pos, len)
  {
    hide Cells, Gather, InRange;
    CellsSegments(d, pos, len);
    if len > |d| - pos {
      GatherWrapped(d, pos, |d| - pos, len - (|d| - pos));
    } else if len > 0 {
      GatherOne(d, Iov(pos, len));
    } else {
      GatherNone(d);
      assert d[pos..pos] == [];
    }
  }

  lemma GatherWrapped(d: seq<Byte>, pos: nat, n: nat, k: nat)
    requires pos + n == |d| && k <= |d|
    ensures InRange(|d|, [Iov(pos, n), Iov(0, k)])
    ensures Gather(d, [Iov(pos, n), Iov(0, k)]) == d[pos..] + d[..k]
  {
    hide Gather, InRange;
    GatherTwo(d, Iov(pos, n), Iov(0, k));
    SliceEnds(d, pos, k);
  }

  lemma SliceEnds(d: seq<Byte>, pos: nat, k: nat)
    requires pos <= |d| && k <= |d|
    ensures d[pos..pos + (|d| - pos)] == d[pos..] && d[0..0 + k] == d[..k]
  {
  }

  lemma GatherNone(d: seq<Byte>)
    ensures InRange(|d|, []) && Gather(d, []) == []
  {
  }

  lemma GatherOne(d: seq<Byte>, a: Iov)
    requires a.base + a.len <= |d|
    ensures InRange(|d|, [a]) && Gather(d, [a]) == d[a.base..a.base + a.len]
  {
    assert [a][1..] == [];
  }

  lemma GatherTwo(d: seq<Byte>, a: Iov, b: Iov)
    requires a.base + a.len <= |d| && b.base + b.len <= |d|
    ensures InRange(|d|, [a, b])
    ensures Gather(d, [a, b]) == d[a.base..a.base + a.len] + d[b.base..b.base + b.len]
  {
    hide Gather, InRange;
    GatherOne(d, b);
    GatherMore(d, a, [b]);
    assert [a] + [b] == [a, b];
  }

  lemma GatherMore(d: seq<Byte>, a: Iov, rest: seq<Iov>)
    requires a.base + a.len <= |d| && InRange(|d|, rest)
    ensures InRange(|d|, [a] + rest)
    ensures Gather(d, [a] + rest) == d[a.base..a.base + a.len] + Gather(d, rest)
  {
    var all := [a] + rest;
    assert all[0] == a && all[1..] == rest;
    assert InRange(|d|, all);
  }

  lemma {:induction false} SpreadInRange(n: nat, iov: seq<Iov>)
    requires InRange(n, iov)
    ensures forall i :: 0 <= i < |Spread(iov)| ==> Spread(iov)[i] < n
  {
    if iov != [] {
      SpreadInRange(n, iov[1..]);
    }
  }

  lemma SpreadOne(a: Iov)
    ensures |Spread([a])| == a.len && forall i :: 0 <= i < a.len ==> Spread([a])[i] == a.base + i
  {
    assert [a][1..] == [];
  }

  lemma SpreadTwo(a: Iov, b: Iov)
    ensures Spread([a, b]) == Spread([a]) + Spread([b])
  {
    assert [a, b][1..] == [b] && [a][1..] == [];
  }

  /** What readv leaves in the buffer. */
  ghost predicate Scattered(was: seq<Byte>, now: seq<Byte>, cells: seq<nat>, bytes: seq<Byte>)
    requires |was| == |now| && |bytes| <= |cells| && forall i :: 0 <= i < |cells| ==> cells[i] < |was|
  {
    && (forall i :: 0 <= i < |bytes| ==> now[cells[i]] == bytes[i])
    && (forall c :: 0 <= c < |was| && c !in cells[..|bytes|] ==> now[c] == was[c])
  }

  /** How far cell c is past pos, going round. */
  function Past(pos: nat, c: nat, n: nat): (k: nat)
    requires pos < n && c < n
    ensures k < n && Wrap(pos + k, n) == c
  {
    if c >= pos then c - pos else c - pos + n
  }

  /** Handing out the first a of the readable cells moves them to the end of those in flight. */
  lemma HandOut(d: seq<Byte>, base: nat, flight: nat, rp: nat, a: nat, b: nat)
    requires base < |d| && flight + a + b <= |d| && rp == Wrap(base + flight, |d|)
    ensures Cells(d, base, flight + a) == Cells(d, base, flight) + Cells(d, rp, a + b)[..a]
    ensures Cells(d, Wrap(rp + a, |d|), b) == Cells(d, rp, a + b)[a..]
    ensures Wrap(Wrap(rp + a, |d|) + |d| - (flight + a), |d|) == base
    ensures Wrap(rp + |d| - flight, |d|) == base
    ensures Wrap(Wrap(rp + a, |d|) + b, |d|) == Wrap(rp + (a + b), |d|)
  {
    hide Cells;
    CellsSplit(d, rp, a, b);
    CellsSplit(d, base, flight, a);
  }

  /** How many segments the readable bytes lie in. */
  function Pieces(pos: nat, len: nat, n: nat): nat
    requires pos < n
  {
    if len == 0 then 0 else if len <= n - pos then 1 else 2
  }

  lemma NoPieces(pos: nat, len: nat, n: nat)
    requires pos < n
    ensures Pieces(pos, len, n) == 0 <==> len == 0
    ensures Wrap(pos, n) == pos
  {
  }

  class RingBuffer {
    var rp: nat
    var wp: nat
    var rdaSize: nat
    var useSize: nat
    const data: array<Byte>

    ghost predicate Valid()
      reads this
    {
      && rp < data.Length && wp < data.Length
      && rdaSize <= useSize <= data.Length
      && wp == Wrap(rp + rdaSize, data.Length)
    }

    /** Where the oldest unacknowledged byte is. */
    ghost function Base(): (b: nat)
      requires Valid()
      reads this
    {
      Wrap(rp + data.Length - (useSize - rdaSize), data.Length)
    }

    /** Handed out and not acknowledged yet, oldest first. */
    ghost function InFlight(): (r: seq<Byte>)
      requires Valid()
      reads this, data
    {
      Cells(data[..], Base(), useSize - rdaSize)
    }

    /** Written and not handed out yet, oldest first. */
    ghost function Readable(): (r: seq<Byte>)
      requires Valid()
      reads this, data
      ensures |r| == rdaSize
    {
      Cells(data[..], rp, rdaSize)
    }

    constructor (size: nat)
      requires 1 <= size
      ensures Valid() && fresh(data) && data.Length == size && InFlight() == [] && Readable() == []
      ensures rp == 0 && rdaSize == 0 && useSize == 0
    {
      rp, wp, rdaSize, useSize := 0, 0, 0, 0;
      data := new Byte[size];
    }

    method GetUseSize() returns (n: nat)
      requires Valid()
      ensures n == |InFlight()| + |Readable()|
    {
      n := useSize;
    }

    /** The readable bytes as at most two segments of the ring. */
    method Reading() returns (iov: seq<Iov>)
      requires Valid()
      ensures |iov| <= 2 && InRange(data.Length, iov) && Gather(data[..], iov) == Readable()
      ensures |iov| == Pieces(rp, rdaSize, data.Length) && iov == Segments(rp, rdaSize, data.Length)
      ensures iov == [] <==> Readable() == []
      ensures forall i :: 0 <= i < |iov| ==> iov[i].len > 0
    {
      SegmentsGather(data[..], rp, rdaSize);
      if rdaSize == 0 {
        return [];
      }
      var upperSize := data.Length - rp;
      if rdaSize <= upperSize {
        return [Iov(rp, rdaSize)];
      }
      return [Iov(rp, upperSize), Iov(0, rdaSize - upperSize)];
    }

    /** size readable bytes are now in flight. */
    method ReadFinish(size: nat)
      requires Valid() && size <= |Readable()|
      modifies `rp, `rdaSize
      ensures Valid() && rp == Wrap(old(rp) + size, data.Length) && rdaSize == old(rdaSize) - size
      ensures InFlight() == old(InFlight() + Readable()[..size])
      ensures Readable() == old(Readable()[size..])
    {
      hide Cells, Wrap;
      WrapIsMod(rp + size, data.Length);
      BaseTo();
      HandOut(data[..], Base(), useSize - rdaSize, rp, size, rdaSize - size);
      rp := (rp + size) % data.Length;
      rdaSize := rdaSize - size;
    }

    lemma BaseTo()
      requires Valid()
      ensures rp == Wrap(Base() + (useSize - rdaSize), data.Length)
    {
    }

    /** The oldest size bytes in flight were acknowledged; an empty ring starts over at zero. */
    method ReadRelease(size: nat)
      requires Valid() && size <= |InFlight()|
      modifies `useSize, `rp, `wp
      ensures Valid() && useSize == old(useSize) - size
      ensures (rp, wp) == if useSize == 0 then (0, 0) else old((rp, wp))
      ensures InFlight() == old(InFlight()[size..])
      ensures Readable() == old(Readable())
    {
      CellsSplit(data[..], Base(), size, useSize - rdaSize - size);
      useSize := useSize - size;
      if useSize == 0 {
        rp := 0;
        wp := 0;
      }
    }

    /** The free cells: each of them once, in the order they will be filled. */
    method Writing() returns (iov: seq<Iov>)
      requires Valid()
      ensures InRange(data.Length, iov) && (iov == [] <==> useSize == data.Length)
      ensures |Spread(iov)| == data.Length - useSize
      ensures forall i :: 0 <= i < |Spread(iov)| ==> Spread(iov)[i] == Wrap(wp + i, data.Length)
      ensures forall c :: 0 <= c < data.Length ==> (c in Spread(iov) <==> IsFree(c))
      ensures forall i, j :: 0 <= i < j < |Spread(iov)| ==> Spread(iov)[i] != Spread(iov)[j]
    {
      var n := data.Length;
      if useSize == n {
        return [];
      }
      var upperSize := n - wp;
      var spcSize := n - useSize;
      if spcSize <= upperSize {
        iov := [Iov(wp, spcSize)];
        SpreadOne(iov[0]);
      } else {
        iov := [Iov(wp, upperSize), Iov(0, spcSize - upperSize)];
        assert iov[1..] == [iov[1]];
        SpreadTwo(iov[0], iov[1]);
        SpreadOne(iov[0]);
        SpreadOne(iov[1]);
      }
      FreeCells(Spread(iov));
    }

    /** Counting on from wp names exactly the free cells. */
    lemma FreeCells(cells: seq<nat>)
      requires Valid() && |cells| == data.Length - useSize
      requires forall i :: 0 <= i < |cells| ==> cells[i] == Wrap(wp + i, data.Length)
      ensures forall c :: 0 <= c < data.Length ==> (c in cells <==> IsFree(c))
      ensures forall i, j :: 0 <= i < j < |cells| ==> cells[i] != cells[j]
    {
      var n := data.Length;
      forall c | 0 <= c < n
        ensures c in cells <==> IsFree(c)
      {
        var k := Past(wp, c, n);
        if k < |cells| {
          assert cells[k] == c;
        }
        if c in cells {
          var i :| 0 <= i < |cells| && cells[i] == c;
          assert Past(wp, c, n) == i;
        }
      }
    }

    /** Cell c is one of the cells that writing offers. */
    predicate IsFree(c: nat)
      requires Valid() && c < data.Length
      reads this
    {
      Past(wp, c, data.Length) < data.Length - useSize
    }

    /** Cell c holds a byte in flight or a readable byte. */
    ghost predicate IsUsed(c: nat)
      requires Valid() && c < data.Length
      reads this
    {
      Past(Base(), c, data.Length) < useSize
    }

    /** Every cell is either free, or in flight or readable; never both. */
    lemma FreeXorUsed(c: nat)
      requires Valid() && c < data.Length
      ensures IsFree(c) <==> !IsUsed(c)
    {
    }

    /** readv into the segments given: the bytes fill their cells in order. */
    method Fill(iov: seq<Iov>, bytes: seq<Byte>)
      requires InRange(data.Length, iov) && |bytes| <= |Spread(iov)|
      requires forall i, j :: 0 <= i < j < |Spread(iov)| ==> Spread(iov)[i] != Spread(iov)[j]
      modifies data
      ensures forall i :: 0 <= i < |Spread(iov)| ==> Spread(iov)[i] < data.Length
      ensures Scattered(old(data[..]), data[..], Spread(iov), bytes)
    {
      hide Spread;
      SpreadInRange(data.Length, iov);
      var cells := Spread(iov);
      ghost var was := data[..];
      for i := 0 to |bytes|
        invariant forall k :: 0 <= k < i ==> data[cells[k]] == bytes[k]
        invariant forall c :: 0 <= c < data.Length && c !in cells[..i] ==> data[c] == was[c]
      {
        assert cells[..i + 1] == cells[..i] + [cells[i]];
        data[cells[i]] := bytes[i];
      }
    }

    /** Filling free cells touches neither queue. */
    lemma FilledFree(was: seq<Byte>, cells: seq<nat>, bytes: seq<Byte>)
      requires Valid() && |was| == data.Length && |bytes| <= |cells| == data.Length - useSize
      requires forall i :: 0 <= i < |cells| ==> cells[i] == Wrap(wp + i, data.Length)
      requires (forall i :: 0 <= i < |cells| ==> cells[i] < |was|) && Scattered(was, data[..], cells, bytes)
      ensures Cells(was, Base(), useSize - rdaSize) == InFlight() && Cells(was, rp, rdaSize) == Readable()
      ensures Cells(data[..], wp, |bytes|) == bytes
      ensures forall c :: 0 <= c < data.Length && IsUsed(c) ==> data[c] == was[c]
    {
      var n := data.Length;
      FreeCells(cells);
      forall c | 0 <= c < n && IsUsed(c)
        ensures data[c] == was[c]
      {
        FreeXorUsed(c);
        assert data[..][c] == data[c];
      }
      forall i | 0 <= i < useSize - rdaSize
        ensures InFlight()[i] == Cells(was, Base(), useSize - rdaSize)[i]
      {
        assert Past(Base(), Wrap(Base() + i, n), n) == i;
      }
      forall i | 0 <= i < rdaSize
        ensures Readable()[i] == Cells(was, rp, rdaSize)[i]
      {
        assert Past(Base(), Wrap(rp + i, n), n) == useSize - rdaSize + i;
      }
      forall i | 0 <= i < |bytes|
        ensures Cells(data[..], wp, |bytes|)[i] == bytes[i]
      {
        assert data[..][cells[i]] == bytes[i];
      }
    }

    method WriteFinish(size: nat)
      requires Valid() && size <= data.Length - useSize
      modifies `wp, `useSize, `rdaSize
      ensures Valid() && InFlight() == old(InFlight())
      ensures useSize == old(useSize) + size && rdaSize == old(rdaSize) + size
      ensures Readable() == old(Readable() + Cells(data[..], wp, size))
    {
      WrapIsMod(wp + size, data.Length);
      CellsSplit(data[..], rp, rdaSize, size);
      wp := (wp + size) % data.Length;
      useSize := useSize + size;
      rdaSize := rdaSize + size;
    }
  }
}
