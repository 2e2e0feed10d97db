/** Bitwise operators on natural numbers, and 32-bit words built from them. */
module Bits {
  import opened Bytes

  function And(a: nat, b: nat): (r: nat)
    ensures r <= a && r <= b
    decreases a + b
  {
    if a == 0 || b == 0 then 0 else 2 * And(a / 2, b / 2) + (if a % 2 == 1 && b % 2 == 1 then 1 else 0)
  }

  function Or(a: nat, b: nat): (r: nat)
    ensures a <= r && b <= r
    decreases a + b
  {
    if a == 0 then b else if b == 0 then a
    else 2 * Or(a / 2, b / 2) + (if a % 2 + b % 2 == 0 then 0 else 1)
  }

  function Not32(x: U32): U32 {
    0xFFFF_FFFF - x
  }

  /** A word read as a C int. */
  function Signed(x: U32): int {
    if x < 0x8000_0000 then x else x - 0x1_0000_0000
  }

  function Pow2(k: nat): (r: nat)
    ensures r >= 1
  {
    if k == 0 then 1 else 2 * Pow2(k - 1)
  }

  /** Masking with k low ones is the remainder. */
  lemma {:induction false} AndLow(x: nat, k: nat)
    ensures And(x, Pow2(k) - 1) == x % Pow2(k)
    decreases k
  {
    if k > 0 {
      var p := Pow2(k - 1);
      AndLow(x / 2, k - 1);
      AndOdd(x, p);
      HalfMod(x, p);
    }
  }

  lemma AndOdd(x: nat, p: nat)
    requires p >= 1
    ensures And(x, 2 * p - 1) == 2 * And(x / 2, p - 1) + x % 2
  {
    assert 2 * p - 1 == 2 * (p - 1) + 1;
    HalfOf(p - 1, 1);
  }

  lemma HalfOf(h: nat, b: nat)
    requires b <= 1
    ensures (2 * h + b) / 2 == h && (2 * h + b) % 2 == b
  {
  }

  lemma HalfMod(x: nat, p: nat)
    requires p >= 1
    ensures x % (2 * p) == 2 * (x / 2 % p) + x % 2
  {
    var q, r := x / 2 / p, x / 2 % p;
    assert x == 2 * (x / 2) + x % 2;
    assert x / 2 == q * p + r;
    assert x == q * (2 * p) + (2 * r + x % 2);
    ModIs(x, 2 * p, q, 2 * r + x % 2);
  }

  lemma Multiple(a: int, d: int)
    requires d > 0
    ensures a >= 1 ==> a * d >= d
    ensures a <= -1 ==> a * d <= -d
  {
  }

  lemma ModIs(x: int, d: int, q: int, r: int)
    requires x == q * d + r && 0 <= r < d
    ensures x % d == r && x / d == q
  {
    var q', r' := x / d, x % d;
    assert x == d * q' + r';
    assert (q - q') * d == q * d - d * q';
    Multiple(q - q', d);
  }

  lemma Offset(a: nat, b: nat, p: nat)
    requires 0 < p && a % p == 0 && b < p
    ensures (a + b) % p == b
  {
    ModIs(a + b, p, a / p, b);
  }

  /** Or-ing into k zero bits is addition. */
  lemma {:induction false} OrDisjoint(a: nat, b: nat, k: nat)
    requires a % Pow2(k) == 0 && b < Pow2(k)
    ensures Or(a, b) == a + b
  {
    if k > 0 && a > 0 && b > 0 {
      var p := Pow2(k - 1);
      HalfMod(a, p);
      OrDisjoint(a / 2, b / 2, k - 1);
    }
  }

  lemma {:induction false} Pow2Add(a: nat, b: nat)
    ensures Pow2(a + b) == Pow2(a) * Pow2(b)
  {
    if a > 0 {
      Pow2Add(a - 1, b);
      assert 2 * (Pow2(a - 1) * Pow2(b)) == (2 * Pow2(a - 1)) * Pow2(b);
    }
  }

  lemma Pow2Word()
    ensures Pow2(8) == 256 && Pow2(16) == 0x1_0000 && Pow2(32) == 0x1_0000_0000
  {
    assert Pow2(2) == 4;
    Pow2Add(2, 2);
    Pow2Add(4, 4);
    Pow2Add(8, 8);
    Pow2Add(16, 16);
  }

  lemma {:induction false} OrBound(a: nat, b: nat, k: nat)
    requires a < Pow2(k) && b < Pow2(k)
    ensures Or(a, b) < Pow2(k)
  {
    if a > 0 && b > 0 {
      OrBound(a / 2, b / 2, k - 1);
    }
  }

  function Or32(a: U32, b: U32): (r: U32)
    ensures r == Or(a, b)
  {
    Pow2Word();
    OrBound(a, b, 32);
    Or(a, b)
  }

  /** A contiguous netmask with k host bits. */
  ghost predicate Netmask(mask: U32, k: nat) {
    Not32(mask) == Pow2(k) - 1
  }

  /** The address minted for idx on a network keeps idx as its host part. */
  lemma HostPart(net: U32, mask: U32, k: nat, idx: nat)
    requires Netmask(mask, k) && net % Pow2(k) == 0 && idx <= Not32(mask)
    ensures Or(net, idx) == net + idx && And(Or(net, idx), Not32(mask)) == idx
  {
    OrDisjoint(net, idx, k);
    AndLow(net + idx, k);
    Offset(net, idx, Pow2(k));
  }

  /** Masking the low k of n bits away. */
  lemma {:induction false} AndHigh(x: nat, n: nat, k: nat)
    requires k <= n && x < Pow2(n)
    ensures Pow2(k) <= Pow2(n) && And(x, Pow2(n) - Pow2(k)) == x - x % Pow2(k)
    decreases n
  {
    if k == 0 {
      AndLow(x, n);
      ModIs(x, Pow2(n), 0, x);
    } else {
      var p, m := Pow2(k - 1), Pow2(n - 1);
      AndHigh(x / 2, n - 1, k - 1);
      HalfMod(x, p);
      HalfOf(m - p, 0);
    }
  }

  lemma {:induction false} Pow2Grows(k: nat, n: nat)
    requires k <= n
    ensures Pow2(k) <= Pow2(n)
    decreases n - k
  {
    if k < n {
      Pow2Grows(k + 1, n);
    }
  }

  /** And it stays in the network. */
  lemma NetPart(net: U32, mask: U32, k: nat, idx: nat)
    requires Netmask(mask, k) && net % Pow2(k) == 0 && idx <= Not32(mask)
    ensures And(net + idx, mask) == net && net + idx < 0x1_0000_0000
  {
    hide And, Or, Pow2;
    Pow2Word();
    if k > 32 {
      Pow2Grows(33, k);
      TwicePow2(32);
      assert false;
    }
    HostPart(net, mask, k, idx);
    OrBound32(net, idx);
    AndHigh(net + idx, 32, k);
    Offset(net, idx, Pow2(k));
  }

  lemma TwicePow2(k: nat)
    ensures Pow2(k + 1) == 2 * Pow2(k)
  {
  }

  lemma OrBound32(a: U32, b: U32)
    ensures Or(a, b) < 0x1_0000_0000
  {
    Pow2Word();
    OrBound(a, b, 32);
  }

  predicate Bit(x: nat, k: nat) {
    x / Pow2(k) % 2 == 1
  }

  lemma BitShift(x: nat, k: nat)
    requires k > 0
    ensures Bit(x, k) == Bit(x / 2, k - 1)
  {
    var p := Pow2(k - 1);
    var q, r := x / 2 / p, x / 2 % p;
    assert x / 2 == p * q + r;
    assert x == (2 * p) * q + (2 * r + x % 2);
    ModIs(x, 2 * p, q, 2 * r + x % 2);
  }

  lemma OrHalves(a: nat, b: nat)
    ensures Or(a, b) / 2 == Or(a / 2, b / 2) && (Or(a, b) % 2 == 1 <==> a % 2 == 1 || b % 2 == 1)
  {
    if a > 0 && b > 0 {
      HalfOf(Or(a / 2, b / 2), if a % 2 + b % 2 == 0 then 0 else 1);
    }
  }

  lemma AndHalves(a: nat, b: nat)
    ensures And(a, b) / 2 == And(a / 2, b / 2) && (And(a, b) % 2 == 1 <==> a % 2 == 1 && b % 2 == 1)
  {
    if a > 0 && b > 0 {
      HalfOf(And(a / 2, b / 2), if a % 2 == 1 && b % 2 == 1 then 1 else 0);
    }
  }

  lemma {:induction false} OrBit(a: nat, b: nat, k: nat)
    ensures Bit(Or(a, b), k) <==> Bit(a, k) || Bit(b, k)
    decreases k
  {
    hide Or, And;
    OrHalves(a, b);
    if k > 0 {
      BitShift(a, k);
      BitShift(b, k);
      BitShift(Or(a, b), k);
      OrBit(a / 2, b / 2, k - 1);
    }
  }

  lemma {:induction false} AndBit(a: nat, b: nat, k: nat)
    ensures Bit(And(a, b), k) <==> Bit(a, k) && Bit(b, k)
    decreases k
  {
    hide Or, And;
    AndHalves(a, b);
    if k > 0 {
      BitShift(a, k);
      BitShift(b, k);
      BitShift(And(a, b), k);
      AndBit(a / 2, b / 2, k - 1);
    }
  }

  lemma {:induction false} PowerBit(j: nat, k: nat)
    ensures Bit(Pow2(j), k) <==> j == k
    decreases k
  {
    hide Bit, Pow2;
    Pow2Halves(j);
    if k > 0 {
      BitShift(Pow2(j), k);
      if j > 0 {
        PowerBit(j - 1, k - 1);
      } else {
        NoBit(k - 1);
      }
    } else {
      LowBit(Pow2(j));
    }
  }

  lemma Pow2Halves(j: nat)
    ensures if j == 0 then Pow2(j) == 1 else Pow2(j) / 2 == Pow2(j - 1) && Pow2(j) % 2 == 0
  {
  }

  lemma NoBit(k: nat)
    ensures !Bit(0, k)
  {
    ModIs(0, Pow2(k), 0, 0);
  }

  lemma LowBit(x: nat)
    ensures Bit(x, 0) <==> x % 2 == 1
  {
  }
}
