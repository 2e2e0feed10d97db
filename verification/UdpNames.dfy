/**
 * The per-session name map of hev-socks5-session-udp.c as a bounded queue of records, oldest
 * insertion first, and what every run of it remembers.
 */
module UdpNames {
  import opened Bytes
  import opened Wrappers
  import opened HevList

  const SLOTS: nat := 16
  const NAME_MAX: nat := 255

  datatype Slot = Slot(name: seq<Byte>, addr: U32, port: U16)

  predicate Storable(name: seq<Byte>) {
    1 <= |name| <= NAME_MAX
  }

  /** Position of a name, or |s| when it is absent. */
  function PosOf(s: seq<Slot>, name: seq<Byte>): (k: nat)
    ensures k <= |s|
    ensures k < |s| ==> s[k].name == name
    ensures forall i :: 0 <= i < k ==> s[i].name != name
  {
    if s == [] || s[0].name == name then 0 else 1 + PosOf(s[1..], name)
  }

  function Learn(s: seq<Slot>, e: Slot): (r: seq<Slot>) {
    var k := PosOf(s, e.name);
    if !Storable(e.name) then s
    else if k < |s| then s[k := e]
    else if |s| < SLOTS then s + [e]
    else s[1..] + [e]
  }

  function Lookup(s: seq<Slot>, name: seq<Byte>): Option<(U32, U16)> {
    var k := PosOf(s, name);
    if Storable(name) && k < |s| then Some((s[k].addr, s[k].port)) else None
  }

  // ---- runs ----

  function Run(es: seq<Slot>): seq<Slot> {
    if es == [] then [] else Learn(Run(es[..|es| - 1]), es[|es| - 1])
  }

  function NamesOf(s: seq<Slot>): (r: seq<seq<Byte>>)
    ensures |r| == |s| && forall i :: 0 <= i < |s| ==> r[i] == s[i].name
  {
    seq(|s|, i requires 0 <= i < |s| => s[i].name)
  }

  /** The insertions of a run: the storable names that were not in the map when they arrived. */
  function Inserted(es: seq<Slot>): seq<seq<Byte>> {
    if es == [] then []
    else
      var e := es[|es| - 1];
      Inserted(es[..|es| - 1]) +
      if Storable(e.name) && e.name !in NamesOf(Run(es[..|es| - 1])) then [e.name] else []
  }

  function Newest(h: seq<seq<Byte>>): seq<seq<Byte>> {
    if |h| <= 16 then h else h[|h| - 16..]
  }

  lemma PosOfIn(s: seq<Slot>, name: seq<Byte>)
    ensures PosOf(s, name) < |s| <==> name in NamesOf(s)
  {
    if name in NamesOf(s) {
      var i :| 0 <= i < |s| && NamesOf(s)[i] == name;
    }
  }

  /** What every run keeps: room for sixteen storable names, all different. */
  ghost predicate Sound(s: seq<Slot>) {
    |s| <= SLOTS && Distinct(NamesOf(s)) && forall i :: 0 <= i < |s| ==> Storable(s[i].name)
  }

  lemma LearnKeeps(s: seq<Slot>, e: Slot)
    requires Sound(s)
    ensures Sound(Learn(s, e))
  {
    LearnNames(s, e);
  }

  lemma {:induction false} RunSound(es: seq<Slot>)
    ensures Sound(Run(es))
  {
    if es != [] {
      RunSound(es[..|es| - 1]);
      LearnKeeps(Run(es[..|es| - 1]), es[|es| - 1]);
    }
  }

  lemma NewestSnoc(h: seq<seq<Byte>>, n: seq<Byte>)
    ensures Newest(h + [n]) == (if |Newest(h)| < SLOTS then Newest(h) else Newest(h)[1..]) + [n]
  {
  }

  /** Main theorem on forgetting: the map holds exactly the sixteen latest insertions, in order. */
  lemma {:induction false} HoldsNewest(es: seq<Slot>)
    ensures NamesOf(Run(es)) == Newest(Inserted(es))
  {
    hide Learn, NamesOf, Newest, PosOf;
    if es == [] {
      assert NamesOf(Run(es)) == [] == Newest([]) by { Empty(); }
    } else {
      var s, e, h := Run(es[..|es| - 1]), es[|es| - 1], Inserted(es[..|es| - 1]);
      HoldsNewest(es[..|es| - 1]);
      PosOfIn(s, e.name);
      LearnNames(s, e);
      NewestSnoc(h, e.name);
      assert h + [] == h;
    }
  }

  lemma Empty()
    ensures NamesOf([]) == [] == Newest([])
  {
  }

  lemma LearnNames(s: seq<Slot>, e: Slot)
    ensures NamesOf(Learn(s, e)) ==
            if !Storable(e.name) || PosOf(s, e.name) < |s| then NamesOf(s)
            else if |s| < SLOTS then NamesOf(s) + [e.name]
            else NamesOf(s)[1..] + [e.name]
  {
    hide NamesOf;
    var k := PosOf(s, e.name);
    if Storable(e.name) {
      if k < |s| {
        NamesReplaced(s, k, e);
      } else if |s| < SLOTS {
        NamesAppended(s, e);
      } else {
        NamesAppended(s[1..], e);
        NamesOfRest(s);
      }
    }
  }

  lemma NamesReplaced(s: seq<Slot>, k: nat, e: Slot)
    requires k < |s| && s[k].name == e.name
    ensures NamesOf(s[k := e]) == NamesOf(s)
  {
  }

  lemma NamesAppended(s: seq<Slot>, e: Slot)
    ensures NamesOf(s + [e]) == NamesOf(s) + [e.name]
  {
  }

  lemma NamesOfRest(s: seq<Slot>)
    requires s != []
    ensures NamesOf(s[1..]) == NamesOf(s)[1..]
  {
  }

  /** The last record learned under a name. */
  function LastLearned(es: seq<Slot>, name: seq<Byte>): Option<(U32, U16)> {
    if es == [] then None
    else if es[|es| - 1].name == name then Some((es[|es| - 1].addr, es[|es| - 1].port))
    else LastLearned(es[..|es| - 1], name)
  }

  /**
   * Main theorem on lookups: after any run a name is known exactly while it is among the sixteen
   * latest insertions, and then the answer is the address and port learned last.
   */
  lemma {:induction false} LookupIsLastLearned(es: seq<Slot>, name: seq<Byte>)
    requires Storable(name)
    ensures Lookup(Run(es), name) == if name in Newest(Inserted(es)) then LastLearned(es, name) else None
    ensures name in Newest(Inserted(es)) ==> LastLearned(es, name).Some?
  {
    HoldsNewest(es);
    PosOfIn(Run(es), name);
    if es != [] && name in Newest(Inserted(es)) {
      var p, e := es[..|es| - 1], es[|es| - 1];
      HoldsNewest(p);
      RunSound(p);
      LookupStep(Run(p), e, name);
      if e.name != name {
        PosOfIn(Run(p), name);
        LookupIsLastLearned(p, name);
      }
    }
  }

  /** One learning step, seen by a name that is known afterwards. */
  lemma LookupStep(s: seq<Slot>, e: Slot, name: seq<Byte>)
    requires Storable(name) && Distinct(NamesOf(s)) && name in NamesOf(Learn(s, e))
    ensures e.name == name ==> Lookup(Learn(s, e), name) == Some((e.addr, e.port))
    ensures e.name != name ==> name in NamesOf(s) && Lookup(Learn(s, e), name) == Lookup(s, name)
  {
  }

  // ---- how long a name is remembered ----

  /** Position of a name that is there, and how many records came in after it. */
  ghost predicate Recent(s: seq<Slot>, e: Slot, n: nat) {
    var k := PosOf(s, e.name);
    k < |s| <= SLOTS && s[k] == e && |s| - 1 - k <= n
  }

  /** A record learned for a new name is found again, whatever fifteen others are learned after it. */
  lemma {:induction false} RemembersSixteen(es: seq<Slot>, e: Slot, more: seq<Slot>)
    requires 1 <= |e.name| <= 255 && e.name !in NamesOf(Run(es))
    requires |more| <= 15 && forall i :: 0 <= i < |more| ==> more[i].name != e.name
    ensures Lookup(Run(es + [e] + more), e.name) == Some((e.addr, e.port))
  {
    StaysRecent(es, e, more);
  }

  lemma {:induction false} StaysRecent(es: seq<Slot>, e: Slot, more: seq<Slot>)
    requires 1 <= |e.name| <= 255 && e.name !in NamesOf(Run(es))
    requires |more| <= 15 && forall i :: 0 <= i < |more| ==> more[i].name != e.name
    ensures Recent(Run(es + [e] + more), e, |more|)
    decreases |more|
  {
    hide Learn, PosOf, NamesOf;
    RunSound(es);
    if more == [] {
      assert es + [e] + more == es + [e] && (es + [e])[..|es|] == es;
      JustLearned(Run(es), e);
    } else {
      var n := |more| - 1;
      var before := es + [e] + more[..n];
      assert (es + [e] + more)[..|es| + 1 + n] == before && (es + [e] + more)[|es| + 1 + n] == more[n];
      StaysRecent(es, e, more[..n]);
      RecentStill(Run(before), e, n, more[n]);
    }
  }

  lemma JustLearned(s: seq<Slot>, e: Slot)
    requires Sound(s) && 1 <= |e.name| <= 255 && e.name !in NamesOf(s)
    ensures Recent(Learn(s, e), e, 0)
  {
    PosOfIn(s, e.name);
    var t := if |s| < SLOTS then s else s[1..];
    PosAppended(t, e);
  }

  lemma PosAppended(t: seq<Slot>, e: Slot)
    requires forall i :: 0 <= i < |t| ==> t[i].name != e.name
    ensures PosOf(t + [e], e.name) == |t|
  {
    assert (t + [e])[|t|] == e;
  }

  lemma RecentStill(s: seq<Slot>, e: Slot, n: nat, d: Slot)
    requires Recent(s, e, n) && n < 15 && d.name != e.name
    ensures Recent(Learn(s, d), e, n + 1)
  {
    var k, r := PosOf(s, e.name), Learn(s, d);
    var j := if r == s || |r| > |s| || PosOf(s, d.name) < |s| then k else k - 1;
    assert r[j] == e;
    FirstAt(r, e.name, j);
  }

  lemma FirstAt(s: seq<Slot>, name: seq<Byte>, k: nat)
    requires k < |s| && s[k].name == name && forall i :: 0 <= i < k ==> s[i].name != name
    ensures PosOf(s, name) == k
  {
  }
}
