/**
  The arithmetic of the QR encoder: bytes as polynomials over two elements, multiplied modulo
  x^8 + x^4 + x^3 + x^2 + 1 (section 7.5 of ISO/IEC 18004:2015).
 */
module Gf256 {
  import opened Common
  import opened Bits

  /** Multiplication by x. */
  function X(a: byte): byte {
    if a >= 128 then Xor(2 * (a - 128), 0x1d) else 2 * a
  }

  /** The product with the low `k` bits of `b`: `a` times x to the i for every bit i that is set. */
  function MulBits(a: byte, b: nat, k: nat): byte
    decreases k
  {
    if k == 0 then 0 else Xor(Times(b % 2, a), MulBits(X(a), b / 2, k - 1))
  }

  function Times(bit: nat, a: byte): byte {
    if bit == 1 then a else 0
  }

  const WIDTH: nat := 8

  function Mul(a: byte, b: byte): byte {
    MulBits(a, b, WIDTH)
  }

  // ----- laws

  /** The top bit and the other seven. */
  predicate Parts(a: byte, h: nat, l: nat) {
    a == 128 * h + l && l < 128 && h < 2
  }

  lemma {:induction false} XorParts(a: byte, h: nat, l: nat, b: byte, g: nat, m: nat)
    requires Parts(a, h, l) && Parts(b, g, m)
    ensures Parts(Xor(a, b), (h + g) % 2, XorBits(l, m))
  {
    assert Pow2(4) == 16;
    assert Pow2(7) == 128;
    XorSplit(7, 128, h, l, a, g, m, b);
    XorBelow(l, m, 7);
    assert XorBits(h, g) == (h + g) % 2;
  }

  lemma {:induction false} XorDouble(a: nat, b: nat)
    ensures XorBits(2 * a, 2 * b) == 2 * XorBits(a, b)
  {
    XorStep(2 * a, 2 * b);
  }

  lemma {:induction false} XOfParts(a: byte, h: nat, l: nat)
    requires Parts(a, h, l)
    ensures X(a) == XorBits(2 * l, 0x1d * h)
  {
    XorZero(2 * l);
  }

  lemma {:induction false} TopBits(h: nat, g: nat)
    requires h < 2 && g < 2
    ensures XorBits(0x1d * h, 0x1d * g) == 0x1d * ((h + g) % 2)
  {
    XorZero(0x1d * h);
    XorZero(0x1d * g);
    XorSelf(0x1d);
  }

  lemma {:induction false} XAdds(a: byte, b: byte)
    ensures X(Xor(a, b)) == Xor(X(a), X(b))
  {
    XAddsParts(a, a / 128, a % 128, b, b / 128, b % 128);
  }

  lemma {:induction false} XAddsParts(a: byte, h: nat, l: nat, b: byte, g: nat, m: nat)
    requires Parts(a, h, l) && Parts(b, g, m)
    ensures X(Xor(a, b)) == XorBits(X(a), X(b))
  {
    XorParts(a, h, l, b, g, m);
    XOfParts(a, h, l);
    XOfParts(b, g, m);
    XOfParts(Xor(a, b), (h + g) % 2, XorBits(l, m));
    XorDouble(l, m);
    TopBits(h, g);
    XorSwap(2 * l, 0x1d * h, 2 * m, 0x1d * g);
  }

  lemma {:induction false} TimesAdds(bit: nat, a: byte, b: byte)
    ensures Times(bit, Xor(a, b)) == Xor(Times(bit, a), Times(bit, b))
  {
    XorZero(0);
  }

  lemma {:induction false} LeftAdds(a: byte, b: byte, c: nat, k: nat)
    ensures MulBits(Xor(a, b), c, k) == Xor(MulBits(a, c, k), MulBits(b, c, k))
    decreases k
  {
    if k == 0 {
      XorZero(0);
    } else {
      XAdds(a, b);
      LeftAdds(X(a), X(b), c / 2, k - 1);
      TimesAdds(c % 2, a, b);
      XorSwap(Times(c % 2, a), Times(c % 2, b), MulBits(X(a), c / 2, k - 1), MulBits(X(b), c / 2, k - 1));
    }
  }

  lemma {:induction false} XOut(a: byte, b: nat, k: nat)
    ensures MulBits(X(a), b, k) == X(MulBits(a, b, k))
    decreases k
  {
    if k > 0 {
      XOut(X(a), b / 2, k - 1);
      XAdds(Times(b % 2, a), MulBits(X(a), b / 2, k - 1));
    }
  }

  lemma {:induction false} ZeroLeft(b: nat, k: nat)
    ensures MulBits(0, b, k) == 0
    decreases k
  {
    if k > 0 {
      ZeroLeft(b / 2, k - 1);
      XorZero(0);
    }
  }

  /** Two factors on the right change places. */
  lemma {:induction false} RightSwap(e: byte, a: nat, b: nat, k: nat, n: nat)
    ensures MulBits(MulBits(e, b, n), a, k) == MulBits(MulBits(e, a, k), b, n)
    decreases k
  {
    ZeroLeft(b, n);
    if k > 0 {
      XOut(e, b, n);
      RightSwap(X(e), a / 2, b, k - 1, n);
      LeftAdds(Times(a % 2, e), MulBits(X(e), a / 2, k - 1), b, n);
    }
  }

  /** Powers of x below x to the 8 are powers of two, so multiplying one of them by bits shifts the bits. */
  lemma {:induction false} PowerLeft(j: nat, p: nat, b: nat, k: nat, q: nat)
    requires j + k == 8 && k > 0 && p == Pow2(j) && p < 256 && q == Pow2(k) && b < q
    ensures MulBits(p, b, k) == p * b
    decreases k
  {
    Lengths(j, k);
    if k == 1 {
      XorZero(Times(b % 2, p));
    } else {
      PowerLeft(j + 1, 2 * p, b / 2, k - 1, Pow2(k - 1));
      BitsApart(j, p, b);
    }
  }

  lemma Lengths(j: nat, k: nat)
    requires j + k == 8 && k > 0
    ensures k == 1 <==> Pow2(j) == 128
    ensures k > 1 ==> Pow2(j) < 128
  {
    assert Pow2(1) == 2 && Pow2(2) == 4 && Pow2(3) == 8;
    assert Pow2(4) == 16 && Pow2(5) == 32 && Pow2(6) == 64;
    assert Pow2(7) == 128;
  }

  lemma {:induction false} BitsApart(j: nat, p: nat, b: nat)
    requires p == Pow2(j)
    ensures XorBits(Times2(b % 2, p), (2 * p) * (b / 2)) == p * b
  {
    var c, bit := b / 2, b % 2;
    Products(p, bit, c, b);
    XorSplit(j, p, bit, 0, p * bit, 2 * c, 0, p * (2 * c));
    LowBitIn(bit, c);
    XorZero(0);
  }

  lemma Products(p: nat, bit: nat, c: nat, b: nat)
    requires bit < 2 && b == 2 * c + bit
    ensures Times2(bit, p) == p * bit && (2 * p) * c == p * (2 * c) && p * b == p * (2 * c + bit)
  {
  }

  lemma {:induction false} LowBitIn(bit: nat, c: nat)
    requires bit < 2
    ensures XorBits(bit, 2 * c) == 2 * c + bit
  {
    XorStep(bit, 2 * c);
    XorZero(c);
  }

  function Times2(bit: nat, a: nat): nat {
    if bit == 1 then a else 0
  }

  lemma {:induction false} OneLeft(b: byte)
    ensures Mul(1, b) == b
  {
    Lengths(7, 1);
    PowerLeft(0, 1, b, WIDTH, 256);
  }

  lemma {:induction false} Commutes(a: byte, b: byte)
    ensures Mul(a, b) == Mul(b, a)
  {
    RightSwap(1, a, b, WIDTH, WIDTH);
    OneLeft(a);
    OneLeft(b);
  }

  lemma {:induction false} Associates(a: byte, b: byte, c: byte)
    ensures Mul(Mul(a, b), c) == Mul(a, Mul(b, c))
  {
    Commutes(a, b);
    RightSwap(b, c, a, WIDTH, WIDTH);
    Commutes(Mul(b, c), a);
  }

  lemma {:induction false} Distributes(a: byte, b: byte, c: byte)
    ensures Mul(Xor(a, b), c) == Xor(Mul(a, c), Mul(b, c))
    ensures Mul(c, Xor(a, b)) == Xor(Mul(c, a), Mul(c, b))
  {
    LeftAdds(a, b, c, WIDTH);
    Commutes(Xor(a, b), c);
    Commutes(a, c);
    Commutes(b, c);
  }

  lemma {:induction false} ZeroAndOne(a: byte)
    ensures Mul(0, a) == Mul(a, 0) == 0 && Mul(1, a) == Mul(a, 1) == a
  {
    ZeroLeft(a, WIDTH);
    OneLeft(a);
    Commutes(0, a);
    Commutes(1, a);
  }

  // ----- the product is the remainder of the carry-less product modulo 0x11d

  /** The product of two polynomials over two elements, without any reduction. */
  function CarryLess(m: nat, b: nat): nat
    decreases b
  {
    if b == 0 then 0 else XorBits(Times2(b % 2, m), 2 * CarryLess(m, b / 2))
  }

  lemma {:induction false} Times2Adds(u: nat, v: nat, m: nat)
    requires u < 2 && v < 2
    ensures Times2((u + v) % 2, m) == XorBits(Times2(u, m), Times2(v, m))
  {
    XorZero(m);
    XorSelf(m);
  }

  lemma {:induction false} CarryLessStep(m: nat, b: nat)
    ensures CarryLess(m, b) == XorBits(Times2(b % 2, m), 2 * CarryLess(m, b / 2))
  {
    XorZero(0);
  }

  lemma {:induction false} CarryLessAdds(m: nat, q: nat, r: nat)
    ensures CarryLess(m, XorBits(q, r)) == XorBits(CarryLess(m, q), CarryLess(m, r))
    decreases q + r
  {
    if q == 0 && r == 0 {
      XorZero(0);
    } else {
      CarryLessAdds(m, q / 2, r / 2);
      XorStep(q, r);
      CarryLessStep(m, XorBits(q, r));
      CarryLessStep(m, q);
      CarryLessStep(m, r);
      Parity(q, r);
      Times2Adds(q % 2, r % 2, m);
      XorDouble(CarryLess(m, q / 2), CarryLess(m, r / 2));
      XorSwap(Times2(q % 2, m), Times2(r % 2, m), 2 * CarryLess(m, q / 2), 2 * CarryLess(m, r / 2));
    }
  }

  lemma Parity(q: nat, r: nat)
    ensures (q + r) % 2 == (q % 2 + r % 2) % 2
  {
  }

  lemma {:induction false} CarryLessDouble(m: nat, b: nat)
    ensures CarryLess(2 * m, b) == 2 * CarryLess(m, b)
    ensures CarryLess(m, 2 * b) == 2 * CarryLess(m, b)
    decreases b
  {
    CarryLessStep(m, 2 * b);
    XorZero(2 * CarryLess(m, b));
    if b > 0 {
      CarryLessDouble(m, b / 2);
      CarryLessStep(m, b);
      XorDouble(Times2(b % 2, m), 2 * CarryLess(m, b / 2));
    }
  }

  /** `a` is what is left of `w` after taking away `r` times the modulus. */
  ghost predicate Reduced(w: nat, r: nat, a: nat) {
    w == XorBits(CarryLess(0x11d, r), a)
  }

  lemma {:induction false} ReducedDouble(w: nat, r: nat, a: byte, h: nat, l: nat)
    requires Reduced(w, r, a) && Parts(a, h, l)
    ensures Reduced(2 * w, XorBits(2 * r, h), X(a))
  {
    XorDouble(CarryLess(0x11d, r), a);
    CarryLessDouble(0x11d, r);
    CarryLessAdds(0x11d, 2 * r, h);
    CarryLessStep(0x11d, h);
    XorZero(Times2(h, 0x11d));
    TopBitOut(a, h, l);
    XorAssociates(2 * CarryLess(0x11d, r), Times2(h, 0x11d), X(a));
  }

  lemma {:induction false} NinthBit(l: nat)
    requires l < 256
    ensures XorBits(256, l) == 256 + l
  {
    assert Pow2(4) == 16;
    assert Pow2(8) == 256;
    XorSplit(8, 256, 1, 0, 256, 0, l, l);
    XorZero(l);
    XorZero(1);
  }

  /** Doubling and multiplying by x differ by the modulus exactly when the top bit is set. */
  lemma {:induction false} TopBitOut(a: byte, h: nat, l: nat)
    requires Parts(a, h, l)
    ensures 2 * a == XorBits(Times2(h, 0x11d), X(a))
  {
    XOfParts(a, h, l);
    NinthBit(0x1d);
    NinthBit(2 * l);
    XorZero(2 * l);
    XorSelf(0x1d);
    XorSwap(256, 0x1d, 2 * l, 0x1d);
    XorZero(256 + 2 * l);
  }

  lemma {:induction false} RemainderBits(w: nat, r: nat, a: byte, b: nat, k: nat) returns (q: nat)
    requires Reduced(w, r, a) && b < Pow2(k)
    ensures Reduced(CarryLess(w, b), q, MulBits(a, b, k))
    decreases k
  {
    if k == 0 {
      q := 0;
      XorZero(0);
    } else {
      ReducedDouble(w, r, a, a / 128, a % 128);
      var rest := RemainderBits(2 * w, XorBits(2 * r, a / 128), X(a), b / 2, k - 1);
      CarryLessStep(w, b);
      CarryLessDouble(w, b / 2);
      q := XorBits(Times2(b % 2, r), rest);
      CarryLessAdds(0x11d, Times2(b % 2, r), rest);
      CarryLessStep(0x11d, 0);
      XorZero(0);
      XorSwap(CarryLess(0x11d, Times2(b % 2, r)), Times(b % 2, a), CarryLess(0x11d, rest), MulBits(X(a), b / 2, k - 1));
    }
  }

  /** The carry-less product is a multiple of 0x11d plus `Mul`, which has degree below 8. */
  lemma {:induction false} MulIsRemainder(a: byte, b: byte) returns (q: nat)
    ensures CarryLess(a, b) == XorBits(CarryLess(0x11d, q), Mul(a, b))
  {
    XorZero(a);
    assert Pow2(4) == 16;
    assert Pow2(8) == 256;
    q := RemainderBits(a, 0, a, b, WIDTH);
  }

  // ----- the loops

  /** A byte shifted left, the top bit falling out. */
  lemma ShiftedLeft(left: byte)
    ensures (2 * left) % 256 == if left >= 128 then 2 * (left - 128) else 2 * left
  {
  }

  method Shift(left: byte) returns (x: byte)
    ensures x == X(left)
  {
    ShiftedLeft(left);
    var high := left >= 128;
    x := (2 * left) % 256;
    if high { x := Xor(x, 0x1d); }
  }

  method AddIf(result: byte, left: byte, bit: nat) returns (r: byte)
    ensures r == Xor(result, Times(bit, left))
  {
    XorZero(result);
    r := result;
    if bit == 1 { r := Xor(r, left); }
  }

  /** What is still to be added, when `result` has been added up and `k` turns are left. */
  ghost predicate Partial(product: byte, result: byte, l: byte, r: nat, k: nat) {
    r < Pow2(k) && product == Xor(result, MulBits(l, r, k))
  }

  lemma {:induction false} MulStart(left: byte, right: byte)
    ensures Partial(Mul(left, right), 0, left, right, WIDTH)
  {
    assert Pow2(4) == 16;
    assert Pow2(8) == 256;
    XorZero(Mul(left, right));
  }

  lemma {:induction false} MulTurn(product: byte, result: byte, l: byte, r: nat, k: nat)
    requires Partial(product, result, l, r, k) && r > 0
    ensures k > 0 && Partial(product, Xor(result, Times(r % 2, l)), X(l), r / 2, k - 1)
  {
    XorAssociates(result, Times(r % 2, l), MulBits(X(l), r / 2, k - 1));
  }

  lemma {:induction false} MulEnd(product: byte, result: byte, l: byte, k: nat)
    requires Partial(product, result, l, 0, k)
    ensures product == result
  {
    NoBits(l, k);
    XorZero(result);
  }

  /** `multiply`. */
  method Multiply(left: byte, right: byte) returns (result: byte)
    ensures result == Mul(left, right)
  {
    ghost var product, k: nat := Mul(left, right), WIDTH;
    var l: byte, r: byte := left, right;
    result := 0;
    MulStart(left, right);
    while r != 0
      invariant Partial(product, result, l, r, k)
      decreases r
    {
      MulTurn(product, result, l, r, k);
      result := AddIf(result, l, r % 2);
      l := Shift(l);
      r, k := r / 2, k - 1;
    }
    MulEnd(product, result, l, k);
  }

  lemma {:induction false} NoBits(a: byte, k: nat)
    ensures MulBits(a, 0, k) == 0
    decreases k
  {
    if k > 0 {
      NoBits(X(a), k - 1);
      XorZero(0);
    }
  }
}
