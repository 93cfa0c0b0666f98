/** Exclusive or on numbers, bit by bit. */
module Bits {
  import opened Common

  function Pow2(k: nat): (p: nat)
    ensures p >= 1
  {
    if k == 0 then 1 else 2 * Pow2(k - 1)
  }

  function XorBits(a: nat, b: nat): nat
    decreases a + b
  {
    if a == 0 && b == 0 then 0 else 2 * XorBits(a / 2, b / 2) + (a + b) % 2
  }

  function Xor(a: byte, b: byte): byte {
    XorBelow(a, b, 8);
    XorBits(a, b)
  }

  lemma {:induction false} XorBelow(a: nat, b: nat, k: nat)
    requires a < Pow2(k) && b < Pow2(k)
    ensures XorBits(a, b) < Pow2(k)
    ensures k == 8 ==> Pow2(k) == 256
    decreases k
  {
    if k > 0 && (a != 0 || b != 0) { XorBelow(a / 2, b / 2, k - 1); }
  }

  /** The lowest bit and the rest. */
  lemma {:induction false} XorStep(a: nat, b: nat)
    ensures XorBits(a, b) / 2 == XorBits(a / 2, b / 2) && XorBits(a, b) % 2 == (a + b) % 2
  {
  }

  lemma {:induction false} XorCommutes(a: nat, b: nat)
    ensures XorBits(a, b) == XorBits(b, a)
    decreases a + b
  {
    if a != 0 || b != 0 { XorCommutes(a / 2, b / 2); }
  }

  lemma {:induction false} XorZero(a: nat)
    ensures XorBits(a, 0) == XorBits(0, a) == a
    decreases a
  {
    if a != 0 { XorZero(a / 2); }
  }

  lemma {:induction false} XorSelf(a: nat)
    ensures XorBits(a, a) == 0
    decreases a
  {
    if a != 0 { XorSelf(a / 2); }
  }

  lemma Odd3(a: nat, b: nat, c: nat, u: nat, v: nat)
    requires u % 2 == (a + b) % 2 && v % 2 == (b + c) % 2
    ensures (u + c) % 2 == (a + v) % 2
  {
  }

  lemma {:induction false} XorAssociates(a: nat, b: nat, c: nat)
    ensures XorBits(XorBits(a, b), c) == XorBits(a, XorBits(b, c))
    decreases a + b + c
  {
    if a == 0 && b == 0 {
      XorZero(c);
      XorZero(XorBits(0, c));
    } else if b == 0 && c == 0 {
      XorZero(a);
      XorZero(XorBits(a, 0));
    } else {
      XorAssociates(a / 2, b / 2, c / 2);
      var u, v := XorBits(a, b), XorBits(b, c);
      XorStep(a, b);
      XorStep(b, c);
      XorStep(u, c);
      XorStep(a, v);
      Odd3(a, b, c, u, v);
      TwoHalves(XorBits(u, c), XorBits(a, v));
    }
  }

  lemma TwoHalves(x: nat, y: nat)
    requires x / 2 == y / 2 && x % 2 == y % 2
    ensures x == y
  {
  }

  /** The middle terms of two sums change places. */
  lemma {:induction false} XorSwap(a: nat, b: nat, c: nat, d: nat)
    ensures XorBits(XorBits(a, b), XorBits(c, d)) == XorBits(XorBits(a, c), XorBits(b, d))
  {
    XorAssociates(a, b, XorBits(c, d));
    XorAssociates(b, c, d);
    XorCommutes(b, c);
    XorAssociates(c, b, d);
    XorAssociates(a, c, XorBits(b, d));
  }

  /** Exclusive or works on the parts above and below a bit position separately. */
  lemma {:induction false} XorSplit(k: nat, p: nat, h: nat, l: nat, a: nat, g: nat, m: nat, b: nat)
    requires p == Pow2(k) && l < p && m < p && a == p * h + l && b == p * g + m
    ensures XorBits(a, b) == p * XorBits(h, g) + XorBits(l, m)
    decreases k
  {
    if k == 0 {
      SplitNothing(p, h, l, a);
      SplitNothing(p, g, m, b);
      SplitNothing(p, XorBits(h, g), 0, XorBits(h, g));
    } else {
      var q := Pow2(k - 1);
      Halve(q, h, l, a);
      Halve(q, g, m, b);
      XorSplit(k - 1, q, h, l / 2, a / 2, g, m / 2, b / 2);
      XorStep(a, b);
      XorStep(l, m);
      SameOdd(a, b, l, m);
      Join(q, XorBits(h, g), XorBits(l, m), XorBits(a, b));
    }
  }

  lemma SameOdd(a: nat, b: nat, c: nat, d: nat)
    requires a % 2 == c % 2 && b % 2 == d % 2
    ensures (a + b) % 2 == (c + d) % 2
  {
  }

  lemma SplitNothing(p: nat, h: nat, l: nat, a: nat)
    requires p == 1 && l < p
    ensures p * h + l == h && l == 0
  {
  }

  lemma Halve(p: nat, h: nat, l: nat, a: nat)
    requires a == (2 * p) * h + l
    ensures a / 2 == p * h + l / 2 && a % 2 == l % 2
  {
    assert a == 2 * (p * h) + l;
  }

  lemma Join(p: nat, h: nat, l: nat, x: nat)
    requires x / 2 == p * h + l / 2 && x % 2 == l % 2
    ensures x == (2 * p) * h + l
  {
    assert (2 * p) * h == 2 * (p * h);
  }

  lemma {:induction false} XorTwice(a: byte, b: byte)
    ensures Xor(Xor(a, b), b) == a
  {
    XorAssociates(a, b, b);
    XorSelf(b);
    XorZero(a);
  }
}
