/**
 * The value that the search tree, the recency list and the index array of hev-mapped-dns.c
 * represent together: a bounded cache listed from least to most recently touched. The theorems
 * below characterise every run of it without mentioning how a step rearranges the cache.
 */
module LruSpec {
  import opened HevList

  datatype Entry<N> = Entry(name: N, idx: nat)

  type Cache<!N> = seq<Entry<N>>

  function Names<N>(s: Cache<N>): (r: seq<N>)
    ensures |r| == |s|
    ensures forall i :: 0 <= i < |s| ==> r[i] == s[i].name
  {
    seq(|s|, i requires 0 <= i < |s| => s[i].name)
  }

  /** Names distinct, and the indices in use are exactly 0 .. |s| - 1. */
  ghost predicate WellFormed<N(!new)>(s: Cache<N>, max: nat) {
    && |s| <= max
    && (forall i, j :: 0 <= i < j < |s| ==> s[i].name != s[j].name && s[i].idx != s[j].idx)
    && (forall i :: 0 <= i < |s| ==> s[i].idx < |s|)
  }

  /** Position of a name, or |s| when it is absent. */
  function PosOf<N(==)>(s: Cache<N>, name: N): (k: nat)
    ensures k <= |s|
    ensures k < |s| ==> s[k].name == name
    ensures forall i :: 0 <= i < k ==> s[i].name != name
  {
    if s == [] || s[0].name == name then 0 else 1 + PosOf(s[1..], name)
  }

  /** Position of an index, or |s| when no entry carries it. */
  function PosOfIdx<N>(s: Cache<N>, idx: nat): (k: nat)
    ensures k <= |s|
    ensures k < |s| ==> s[k].idx == idx
    ensures forall i :: 0 <= i < k ==> s[i].idx != idx
  {
    if s == [] || s[0].idx == idx then 0 else 1 + PosOfIdx(s[1..], idx)
  }

  /** The entry at k becomes the most recent one. */
  function Touch<N>(s: Cache<N>, k: nat): (r: Cache<N>)
    requires k < |s|
  {
    DropAt(s, k) + [s[k]]
  }

  /** A name the cache lacks: a fresh index while there is room, else the oldest one's. */
  function Add<N>(s: Cache<N>, max: nat, name: N): (r: Cache<N>)
    ensures r != [] && r[|r| - 1].name == name
  {
    if |s| < max || s == [] then s + [Entry(name, |s|)] else s[1..] + [Entry(name, s[0].idx)]
  }

  function Find<N(==)>(s: Cache<N>, max: nat, name: N): (r: Cache<N>)
    requires 1 <= max
    ensures r != [] && r[|r| - 1].name == name
  {
    var k := PosOf(s, name);
    if k < |s| then Touch(s, k) else Add(s, max, name)
  }

  /** The index that Find hands out: the one the name carries afterwards. */
  function FoundIdx<N(==)>(s: Cache<N>, max: nat, name: N): nat
    requires 1 <= max
  {
    var r := Find(s, max, name);
    r[|r| - 1].idx
  }

  function Lookup<N>(s: Cache<N>, idx: nat): (r: Cache<N>) {
    var k := PosOfIdx(s, idx);
    if k < |s| then Touch(s, k) else s
  }

  lemma TouchWellFormed<N(!new)>(s: Cache<N>, max: nat, k: nat)
    requires WellFormed(s, max) && k < |s|
    ensures WellFormed(Touch(s, k), max)
    ensures forall e :: e in s <==> e in Touch(s, k)
  {
    var r := Touch(s, k);
    forall e | e in s ensures e in r {
      var i :| 0 <= i < |s| && s[i] == e;
      assert r[if i < k then i else if i == k then |s| - 1 else i - 1] == e;
    }
  }

  lemma AddWellFormed<N(!new)>(s: Cache<N>, max: nat, name: N)
    requires WellFormed(s, max) && 1 <= max && PosOf(s, name) == |s|
    ensures WellFormed(Add(s, max, name), max)
  {
    var r, gone := Add(s, max, name), if |s| < max then 0 else 1;
    assert forall i :: 0 <= i < |r| - 1 ==> r[i] == s[i + gone];
  }

  lemma FindWellFormed<N(!new)>(s: Cache<N>, max: nat, name: N)
    requires WellFormed(s, max) && 1 <= max
    ensures WellFormed(Find(s, max, name), max)
  {
    if PosOf(s, name) < |s| {
      TouchWellFormed(s, max, PosOf(s, name));
    } else {
      AddWellFormed(s, max, name);
    }
  }

  lemma LookupWellFormed<N(!new)>(s: Cache<N>, max: nat, idx: nat)
    requires WellFormed(s, max)
    ensures WellFormed(Lookup(s, idx), max)
  {
    if PosOfIdx(s, idx) < |s| {
      TouchWellFormed(s, max, PosOfIdx(s, idx));
    }
  }

  /** One find after another: the cache that results and the indices handed out. */
  function FindAll<N(==)>(s: Cache<N>, max: nat, names: seq<N>): (r: (Cache<N>, seq<nat>))
    requires 1 <= max
    ensures |r.1| == |names|
  {
    if names == [] then (s, [])
    else
      var p := FindAll(s, max, names[..|names| - 1]);
      var name := names[|names| - 1];
      (Find(p.0, max, name), p.1 + [FoundIdx(p.0, max, name)])
  }

  // ---- runs ----

  datatype Op<N> = FindOp(name: N) | LookupOp(idx: nat)

  function Step<N(==)>(s: Cache<N>, max: nat, op: Op<N>): Cache<N>
    requires 1 <= max
  {
    match op
    case FindOp(name) => Find(s, max, name)
    case LookupOp(idx) => Lookup(s, idx)
  }

  function Run<N(==)>(s: Cache<N>, max: nat, ops: seq<Op<N>>): Cache<N>
    requires 1 <= max
  {
    if ops == [] then s else Step(Run(s, max, ops[..|ops| - 1]), max, ops[|ops| - 1])
  }

  /** The names a run touches, in order; a lookup that misses touches nothing. */
  function Touched<N(==)>(max: nat, ops: seq<Op<N>>): seq<N>
    requires 1 <= max
  {
    if ops == [] then []
    else
      var before := ops[..|ops| - 1];
      var op := ops[|ops| - 1];
      Touched(max, before) +
      match op
      case FindOp(name) => [name]
      case LookupOp(idx) =>
        var s := Run([], max, before);
        var k := PosOfIdx(s, idx);
        if k < |s| then [s[k].name] else []
  }

  lemma {:induction false} RunWellFormed<N(!new)>(max: nat, ops: seq<Op<N>>)
    requires 1 <= max
    ensures WellFormed(Run([], max, ops), max)
  {
    if ops != [] {
      var before := ops[..|ops| - 1];
      RunWellFormed(max, before);
      match ops[|ops| - 1]
      case FindOp(name) => FindWellFormed(Run([], max, before), max, name);
      case LookupOp(idx) => LookupWellFormed(Run([], max, before), max, idx);
    }
  }

  // ---- an independent reading of recency ----

  function SetOf<N>(h: seq<N>): set<N> {
    set x | x in h
  }

  /** The names other than n touched after the last time n was (all of h if n never was). */
  function Younger<N(==)>(h: seq<N>, n: N): (r: set<N>)
    ensures n !in r
  {
    if h == [] || h[|h| - 1] == n then {}
    else {h[|h| - 1]} + Younger(h[..|h| - 1], n)
  }

  /** n was touched, and fewer than max distinct other names have been touched since. */
  ghost predicate Remembered<N>(h: seq<N>, max: nat, n: N) {
    n in h && |Younger(h, n)| < max
  }

  /** What the names of the cache, oldest first, say about the history h that produced them. */
  ghost predicate Mirrors<N(!new)>(ns: seq<N>, max: nat, h: seq<N>) {
    && |ns| <= max
    && Distinct(ns)
    && (forall k {:trigger Younger(h, ns[k])} :: 0 <= k < |ns| ==>
          ns[k] in h && Younger(h, ns[k]) == SetOf(ns[k + 1..]))
    && (forall n {:trigger Younger(h, n)} :: n in h && n !in ns ==> |ns| == max && SetOf(ns) <= Younger(h, n))
  }

  lemma SetOfSnoc<N>(a: seq<N>, n: N)
    ensures SetOf(a + [n]) == SetOf(a) + {n}
  {
    assert (a + [n])[|a|] == n;
    forall x | x in a ensures x in a + [n] {}
  }

  lemma YoungerSnoc<N>(h: seq<N>, n: N, m: N)
    ensures Younger(h + [n], m) == if m == n then {} else {n} + Younger(h, m)
  {
    assert (h + [n])[..|h|] == h;
  }

  lemma DropSuffix<N>(ns: seq<N>, k: nat, j: nat)
    requires k < |ns| && j < |ns|
    ensures SetOf(DropAt(ns, k)[j..]) + {ns[k]} == SetOf(ns[if j <= k then j else j + 1..]) + {ns[k]}
  {
    var d, j' := DropAt(ns, k), if j <= k then j else j + 1;
    forall i | j' <= i < |ns| && i != k ensures ns[i] in d[j..] {
      assert d[if i < k then i else i - 1] == ns[i];
    }
    forall i | j <= i < |d| ensures d[i] in ns[j'..] {
      assert d[i] == ns[if i < k then i else i + 1];
    }
  }

  /** What remains when n is taken from, or the oldest name makes room in, a full list. */
  function Rest<N(==)>(ns: seq<N>, max: nat, k: nat): (r: seq<N>)
    requires k <= |ns|
  {
    if k < |ns| then DropAt(ns, k) else if |ns| < max || ns == [] then ns else ns[1..]
  }

  ghost predicate Removes<N>(ns: seq<N>, k: nat, n: N) {
    k <= |ns| && (if k < |ns| then ns[k] == n else n !in ns)
  }

  /** Where the j-th name of Rest comes from. */
  function Origin<N(==)>(ns: seq<N>, max: nat, k: nat, j: nat): (i: nat)
    requires k <= |ns| && j < |Rest(ns, max, k)|
    ensures i < |ns| && i != k && Rest(ns, max, k)[j] == ns[i]
  {
    if k < |ns| then (if j < k then j else j + 1)
    else if |ns| < max || ns == [] then j else j + 1
  }

  lemma RestSuffix<N>(ns: seq<N>, max: nat, n: N, k: nat, j: nat)
    requires Removes(ns, k, n) && j < |Rest(ns, max, k)|
    ensures SetOf((Rest(ns, max, k) + [n])[j + 1..]) == {n} + SetOf(ns[Origin(ns, max, k, j) + 1..])
  {
    var r, i := Rest(ns, max, k), Origin(ns, max, k, j);
    assert (r + [n])[j + 1..] == r[j + 1..] + [n];
    SetOfSnoc(r[j + 1..], n);
    if k < |ns| {
      DropSuffix(ns, k, j + 1);
    } else {
      assert r[j + 1..] == ns[i + 1..];
    }
  }

  lemma StepMirrors<N(!new)>(ns: seq<N>, max: nat, h: seq<N>, n: N, k: nat)
    requires Mirrors(ns, max, h) && 1 <= max
    requires Removes(ns, k, n)
    ensures Mirrors(Rest(ns, max, k) + [n], max, h + [n])
  {
    var r := Rest(ns, max, k);
    forall j | 0 <= j < |r|
      ensures r[j] in h && r[j] != n && Younger(h + [n], r[j]) == SetOf((r + [n])[j + 1..])
    {
      var i := Origin(ns, max, k, j);
      assert Younger(h, ns[i]) == SetOf(ns[i + 1..]);
      RestSuffix(ns, max, n, k, j);
      YoungerSnoc(h, n, r[j]);
    }
    YoungerSnoc(h, n, n);
    forall m | m in h + [n] && m !in r + [n]
      ensures |r| + 1 == max && SetOf(r + [n]) <= Younger(h + [n], m)
    {
      ForgottenStays(ns, max, h, n, k, m);
    }
  }

  lemma ForgottenStays<N(!new)>(ns: seq<N>, max: nat, h: seq<N>, n: N, k: nat, m: N)
    requires Mirrors(ns, max, h) && 1 <= max
    requires Removes(ns, k, n)
    requires m in h + [n] && m !in Rest(ns, max, k) + [n]
    ensures |Rest(ns, max, k)| + 1 == max
    ensures SetOf(Rest(ns, max, k) + [n]) <= Younger(h + [n], m)
  {
    var r := Rest(ns, max, k);
    assert m != n by { assert (r + [n])[|r|] == n; }
    assert m in h;
    SetOfSnoc(r, n);
    YoungerSnoc(h, n, m);
    if m in ns {
      assert k == |ns| == max && ns[0] == m && Younger(h, ns[0]) == SetOf(ns[1..]);
    }
    if k < |ns| {
      DropSuffix(ns, k, 0);
      assert ns[0..] == ns && r[0..] == r;
    } else {
      assert m !in ns ==> SetOf(ns) <= Younger(h, m);
      assert SetOf(r) <= SetOf(ns);
    }
  }

  lemma NamesSnoc<N>(s: Cache<N>, e: Entry<N>)
    ensures Names(s + [e]) == Names(s) + [e.name]
  {
  }

  lemma TouchNames<N>(s: Cache<N>, k: nat)
    requires k < |s|
    ensures Names(Touch(s, k)) == DropAt(Names(s), k) + [s[k].name]
  {
    NamesSnoc(DropAt(s, k), s[k]);
    assert Names(DropAt(s, k)) == DropAt(Names(s), k);
  }

  lemma AddNames<N>(s: Cache<N>, max: nat, n: N)
    ensures Names(Add(s, max, n)) == Rest(Names(s), max, |s|) + [n]
  {
    if |s| < max || s == [] {
      NamesSnoc(s, Entry(n, |s|));
    } else {
      NamesSnoc(s[1..], Entry(n, s[0].idx));
      assert Names(s[1..]) == Names(s)[1..];
    }
  }

  /** On names, a find rebuilds the list as Rest plus the name found. */
  lemma FindNames<N>(s: Cache<N>, max: nat, n: N)
    requires 1 <= max && |s| <= max
    ensures Names(Find(s, max, n)) == Rest(Names(s), max, PosOf(s, n)) + [n]
  {
    if PosOf(s, n) < |s| {
      TouchNames(s, PosOf(s, n));
    } else {
      AddNames(s, max, n);
    }
  }

  lemma {:induction false} RunMirrors<N(!new)>(max: nat, ops: seq<Op<N>>)
    requires 1 <= max
    ensures Mirrors(Names(Run([], max, ops)), max, Touched(max, ops))
  {
    if ops != [] {
      var before := ops[..|ops| - 1];
      var s, h := Run([], max, before), Touched(max, before);
      RunMirrors(max, before);
      match ops[|ops| - 1]
      case FindOp(name) =>
        StepMirrors(Names(s), max, h, name, PosOf(s, name));
        FindNames(s, max, name);
      case LookupOp(idx) =>
        var k := PosOfIdx(s, idx);
        if k < |s| {
          StepMirrors(Names(s), max, h, s[k].name, k);
          TouchNames(s, k);
        } else {
          assert h + [] == h;
        }
    }
  }

  lemma DistinctSize<N>(ns: seq<N>)
    requires Distinct(ns)
    ensures |SetOf(ns)| == |ns|
  {
    if ns != [] {
      var r := ns[..|ns| - 1];
      assert ns == r + [ns[|ns| - 1]];
      SetOfSnoc(r, ns[|ns| - 1]);
      DistinctSize(r);
    }
  }

  lemma MirrorsMeaning<N(!new)>(ns: seq<N>, max: nat, h: seq<N>, n: N)
    requires Mirrors(ns, max, h)
    ensures n in ns <==> Remembered(h, max, n)
    ensures forall k :: 0 <= k < |ns| ==> |Younger(h, ns[k])| == |ns| - k - 1
  {
    forall k | 0 <= k < |ns| ensures |Younger(h, ns[k])| == |ns| - k - 1 {
      DistinctSize(ns[k + 1..]);
    }
    if n in h && n !in ns {
      DistinctSize(ns);
      Smaller(SetOf(ns), Younger(h, n));
    }
  }

  /**
   * Main theorem on eviction. After any run the cache holds exactly the remembered names, and
   * the entry at distance d from the recent end is the one with d names touched since.
   */
  lemma ExactLru<N(!new)>(max: nat, ops: seq<Op<N>>, n: N)
    requires 1 <= max
    ensures n in Names(Run([], max, ops)) <==> Remembered(Touched(max, ops), max, n)
    ensures var ns := Names(Run([], max, ops));
            forall k :: 0 <= k < |ns| ==> |Younger(Touched(max, ops), ns[k])| == |ns| - k - 1
  {
    RunMirrors(max, ops);
    MirrorsMeaning(Names(Run([], max, ops)), max, Touched(max, ops), n);
  }

  lemma Smaller<X>(a: set<X>, b: set<X>)
    requires a <= b
    ensures |a| <= |b|
  {
    assert b == a + (b - a);
  }

  // ---- a remembered name keeps its index ----

  lemma StepKeepsEntry<N(!new)>(s: Cache<N>, max: nat, op: Op<N>, e: Entry<N>)
    requires WellFormed(s, max) && 1 <= max && e in s
    requires e.name in Names(Step(s, max, op))
    ensures e in Step(s, max, op)
  {
    var r := Step(s, max, op);
    var j :| 0 <= j < |s| && s[j] == e;
    match op
    case LookupOp(idx) =>
      if PosOfIdx(s, idx) < |s| { TouchWellFormed(s, max, PosOfIdx(s, idx)); }
    case FindOp(name) =>
      if PosOf(s, name) < |s| {
        TouchWellFormed(s, max, PosOf(s, name));
      } else if |s| == max {
        assert j > 0 ==> r[j - 1] == e;
      } else {
        assert r[j] == e;
      }
  }

  lemma {:induction false} TouchedExtends<N>(max: nat, pre: seq<Op<N>>, post: seq<Op<N>>)
    requires 1 <= max
    ensures Touched(max, pre) <= Touched(max, pre + post)
  {
    if post == [] {
      assert pre + post == pre;
    } else {
      assert (pre + post)[..|pre + post| - 1] == pre + post[..|post| - 1];
      TouchedExtends(max, pre, post[..|post| - 1]);
    }
  }

  lemma {:induction false} YoungerAfter<N>(h: seq<N>, t: seq<N>, n: N)
    requires h != [] && h[|h| - 1] == n
    ensures Younger(h + t, n) <= SetOf(t) - {n}
  {
    if t != [] {
      var t' := t[..|t| - 1];
      assert (h + t)[..|h + t| - 1] == h + t';
      YoungerAfter(h, t', n);
    } else {
      assert h + t == h;
    }
  }

  /** The names touched by post when it runs right after pre. */
  ghost function Since<N>(max: nat, pre: seq<Op<N>>, post: seq<Op<N>>): seq<N>
    requires 1 <= max
  {
    TouchedExtends(max, pre, post);
    Touched(max, pre + post)[|Touched(max, pre)|..]
  }

  /** Fewer than max other names touched since: n is still remembered. */
  lemma StillRemembered<N(!new)>(max: nat, pre: seq<Op<N>>, post: seq<Op<N>>, n: N)
    requires 1 <= max
    requires var h := Touched(max, pre); h != [] && h[|h| - 1] == n
    requires |SetOf(Since(max, pre, post)) - {n}| < max
    ensures n in Names(Run([], max, pre + post))
  {
    var h, t := Touched(max, pre), Since(max, pre, post);
    TouchedExtends(max, pre, post);
    assert h + t == Touched(max, pre + post);
    YoungerAfter(h, t, n);
    Smaller(Younger(h + t, n), SetOf(t) - {n});
    assert (h + t)[|h| - 1] == n;
    ExactLru(max, pre + post, n);
  }

  lemma SinceGrows<N>(max: nat, pre: seq<Op<N>>, post: seq<Op<N>>, op: Op<N>, n: N)
    requires 1 <= max
    ensures |SetOf(Since(max, pre, post)) - {n}| <= |SetOf(Since(max, pre, post + [op])) - {n}|
  {
    var a, b := Since(max, pre, post), Since(max, pre, post + [op]);
    TouchedExtends(max, pre, post);
    TouchedExtends(max, pre + post, [op]);
    assert pre + post + [op] == pre + (post + [op]);
    assert a <= b;
    Smaller(SetOf(a) - {n}, SetOf(b) - {n});
  }

  /**
   * Main theorem on stability. Once n has been touched and carries idx, it carries the same idx
   * after any further run that touches fewer than max distinct other names.
   */
  lemma {:induction false} IndexStable<N(!new)>(max: nat, pre: seq<Op<N>>, post: seq<Op<N>>, n: N, idx: nat)
    requires 1 <= max
    requires var h := Touched(max, pre); h != [] && h[|h| - 1] == n
    requires Entry(n, idx) in Run([], max, pre)
    requires |SetOf(Since(max, pre, post)) - {n}| < max
    ensures Entry(n, idx) in Run([], max, pre + post)
  {
    if post == [] {
      assert pre + post == pre;
    } else {
      var p, op := post[..|post| - 1], post[|post| - 1];
      assert post == p + [op];
      SinceGrows(max, pre, p, op, n);
      IndexStable(max, pre, p, n, idx);
      StillRemembered(max, pre, post, n);
      RunWellFormed(max, pre + p);
      assert (pre + post)[..|pre + post| - 1] == pre + p;
      StepKeepsEntry(Run([], max, pre + p), max, op, Entry(n, idx));
    }
  }

  // ---- several finds in one go ----

  /** The names of d fill the recent end of the cache and nothing else carries one. */
  ghost predicate AtEnd<N(!new)>(s: Cache<N>, d: set<N>) {
    && |d| <= |s|
    && (forall k :: 0 <= k < |s| ==> (s[k].name in d <==> |s| - |d| <= k))
  }

  lemma FindAtEnd<N(!new)>(s: Cache<N>, max: nat, d: set<N>, n: N)
    requires WellFormed(s, max) && 1 <= max && AtEnd(s, d) && |d + {n}| <= max
    ensures AtEnd(Find(s, max, n), d + {n})
  {
    var k, r := PosOf(s, n), Find(s, max, n);
    assert n in d ==> d + {n} == d;
    if k < |s| {
      assert n in d <==> |s| - |d| <= k;
      forall i | 0 <= i < |r| ensures r[i].name in d + {n} <==> |r| - |d + {n}| <= i {
        assert r[i] == s[Before(|s|, k, i)];
        assert r[i].name == n <==> i == |r| - 1;
      }
    } else {
      assert n !in d by { if n in d { InD(s, d, n); } }
      var gone := if |s| < max then 0 else 1;
      assert |d| < max;
      forall i | 0 <= i < |r| ensures r[i].name in d + {n} <==> |r| - |d + {n}| <= i {
        if i < |r| - 1 {
          assert r[i] == s[i + gone];
        }
      }
    }
  }

  /** By counting: the |d| entries at the end carry |d| distinct names of d, hence all of them. */
  lemma InD<N(!new)>(s: Cache<N>, d: set<N>, n: N)
    requires AtEnd(s, d) && n in d && (forall i, j :: 0 <= i < j < |s| ==> s[i].name != s[j].name)
    ensures exists k :: 0 <= k < |s| && s[k].name == n
  {
    var ns := Names(s)[|s| - |d|..];
    DistinctSize(ns);
    assert SetOf(ns) <= d;
    if n !in SetOf(ns) {
      Smaller(SetOf(ns), d - {n});
    } else {
      var i :| 0 <= i < |ns| && ns[i] == n;
      assert s[i + |s| - |d|].name == n;
    }
  }

  /** A find that leaves d at the end keeps every entry whose name is in d. */
  lemma FindKeeps<N(!new)>(c: Cache<N>, max: nat, d: set<N>, n: N, e: Entry<N>)
    requires WellFormed(c, max) && 1 <= max && AtEnd(Find(c, max, n), d) && e in c && e.name in d
    ensures e in Find(c, max, n)
  {
    var r := Find(c, max, n);
    FindWellFormed(c, max, n);
    InD(r, d, e.name);
    var k :| 0 <= k < |r| && r[k].name == e.name;
    assert Names(r)[k] == e.name;
    StepKeepsEntry(c, max, FindOp(n), e);
  }

  ghost predicate Carries<N>(c: Cache<N>, names: seq<N>, idxs: seq<nat>) {
    |names| == |idxs| && forall i :: 0 <= i < |names| ==> Entry(names[i], idxs[i]) in c
  }

  /** Several finds of at most max distinct names: every index handed out is still right at the end. */
  lemma {:induction false} FindAllKeeps<N(!new)>(s: Cache<N>, max: nat, names: seq<N>)
    requires WellFormed(s, max) && 1 <= max && |SetOf(names)| <= max
    ensures WellFormed(FindAll(s, max, names).0, max)
    ensures AtEnd(FindAll(s, max, names).0, SetOf(names))
    ensures Carries(FindAll(s, max, names).0, names, FindAll(s, max, names).1)
  {
    if names != [] {
      var p, n := names[..|names| - 1], names[|names| - 1];
      var all := FindAll(s, max, p);
      assert names == p + [n];
      SetOfSnoc(p, n);
      Smaller(SetOf(p), SetOf(names));
      FindAllKeeps(s, max, p);
      FindAtEnd(all.0, max, SetOf(p), n);
      FindWellFormed(all.0, max, n);
      CarriesOneMore(all.0, max, p, all.1, n);
    }
  }

  lemma CarriesOneMore<N(!new)>(c: Cache<N>, max: nat, p: seq<N>, idxs: seq<nat>, n: N)
    requires WellFormed(c, max) && 1 <= max && Carries(c, p, idxs)
    requires AtEnd(Find(c, max, n), SetOf(p) + {n})
    ensures Carries(Find(c, max, n), p + [n], idxs + [FoundIdx(c, max, n)])
  {
    var r := Find(c, max, n);
    assert r[|r| - 1] == Entry(n, FoundIdx(c, max, n));
    forall i | 0 <= i < |p| ensures Entry(p[i], idxs[i]) in r {
      FindKeeps(c, max, SetOf(p) + {n}, n, Entry(p[i], idxs[i]));
    }
  }
}
