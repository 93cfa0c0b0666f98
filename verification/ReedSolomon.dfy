module ReedSolomon {
  // Error correction of the QR encoder: the generator polynomial and the in-place division that leaves the
  // correction bytes. Polynomials are sequences of coefficients, the highest power first. Everything is stated
  // over a ring on bytes; `GF` is the one the encoder computes in.

  import opened Common
  import opened Gf256
  import B = Bits

  datatype Ring = Ring(add: (byte, byte) -> byte, mul: (byte, byte) -> byte)

  const GF: Ring := Ring((a, b) => B.Xor(a, b), (a, b) => Mul(a, b))

  ghost predicate AddLaws(f: Ring, a: byte, b: byte, c: byte) {
    && f.add(f.add(a, b), c) == f.add(a, f.add(b, c)) && f.add(a, b) == f.add(b, a)
    && f.add(a, 0) == f.add(0, a) == a && f.add(a, a) == 0
  }

  ghost predicate MulLaws(f: Ring, a: byte, b: byte, c: byte) {
    && f.mul(f.mul(a, b), c) == f.mul(a, f.mul(b, c)) && f.mul(a, b) == f.mul(b, a)
    && f.mul(a, 1) == f.mul(1, a) == a && f.mul(a, 0) == f.mul(0, a) == 0
  }

  /** A commutative ring in which every element is its own negative. */
  ghost predicate LawsAt(f: Ring, a: byte, b: byte, c: byte) {
    && AddLaws(f, a, b, c) && MulLaws(f, a, b, c)
    && f.mul(f.add(a, b), c) == f.add(f.mul(a, c), f.mul(b, c))
  }

  /** The operations are the encoder's. */
  ghost predicate OpsAt(f: Ring, a: byte, b: byte) {
    f.add(a, b) == B.Xor(a, b) && f.mul(a, b) == Mul(a, b)
  }

  ghost predicate Laws(f: Ring) {
    forall a, b, c {:trigger LawsAt(f, a, b, c)} :: LawsAt(f, a, b, c)
  }

  ghost predicate Ops(f: Ring) {
    forall a, b {:trigger OpsAt(f, a, b)} :: OpsAt(f, a, b)
  }

  lemma {:induction false} GfLaws()
    ensures Laws(GF) && Ops(GF)
  {
    forall a, b, c
      ensures LawsAt(GF, a, b, c)
    {
      GfLawsAt(a, b, c);
    }
  }

  lemma {:induction false} GfAdds(a: byte, b: byte, c: byte)
    ensures AddLaws(GF, a, b, c)
  {
    B.XorAssociates(a, b, c);
    B.XorCommutes(a, b);
    B.XorZero(a);
    B.XorSelf(a);
  }

  lemma {:induction false} GfMultiplies(a: byte, b: byte, c: byte)
    ensures MulLaws(GF, a, b, c)
  {
    Associates(a, b, c);
    Commutes(a, b);
    ZeroAndOne(a);
  }

  lemma {:induction false} GfLawsAt(a: byte, b: byte, c: byte)
    ensures LawsAt(GF, a, b, c)
  {
    GfAdds(a, b, c);
    GfMultiplies(a, b, c);
    Distributes(a, b, c);
  }

  lemma At(f: Ring, a: byte, b: byte, c: byte)
    requires Laws(f)
    ensures LawsAt(f, a, b, c)
  {
  }

  method Plus(ghost f: Ring, a: byte, b: byte) returns (c: byte)
    requires Ops(f)
    ensures c == f.add(a, b)
  {
    assert OpsAt(f, a, b);
    c := B.Xor(a, b);
  }

  method Product(ghost f: Ring, a: byte, b: byte) returns (c: byte)
    requires Ops(f)
    ensures c == f.mul(a, b)
  {
    assert OpsAt(f, a, b);
    c := Multiply(a, b);
  }

  // ----- polynomials

  function Pow(f: Ring, value: byte, exponent: nat): byte {
    if exponent == 0 then 1 else f.mul(Pow(f, value, exponent - 1), value)
  }

  /** The value of a polynomial at `x`. */
  function Eval(f: Ring, p: seq<byte>, x: byte): byte {
    if p == [] then 0 else f.add(f.mul(Eval(f, p[..|p| - 1], x), x), p[|p| - 1])
  }

  /** `r` plus `c` times `g`, with the lowest coefficients under each other. */
  function AddRight(f: Ring, r: seq<byte>, g: seq<byte>, c: byte): (s: seq<byte>)
    requires |g| <= |r|
    ensures |s| == |r|
    ensures forall i {:trigger s[i]} :: 0 <= i < |r| ==>
              s[i] == if i < |r| - |g| then r[i] else f.add(r[i], f.mul(g[i - (|r| - |g|)], c))
  {
    if g == [] then r
    else AddRight(f, r[..|r| - 1], g[..|g| - 1], c) + [f.add(r[|r| - 1], f.mul(g[|g| - 1], c))]
  }

  function Zeros(n: nat): (z: seq<byte>)
    ensures |z| == n && forall i {:trigger z[i]} :: 0 <= i < n ==> z[i] == 0
  {
    if n == 0 then [] else Zeros(n - 1) + [0]
  }

  /** The product of two polynomials: for each coefficient of `q`, shift and add. */
  function PolyMul(f: Ring, g: seq<byte>, q: seq<byte>): (p: seq<byte>)
    requires g != []
    ensures |p| == |g| + |q| - 1
  {
    if q == [] then Zeros(|g| - 1) else AddRight(f, PolyMul(f, g, q[..|q| - 1]) + [0], g, q[|q| - 1])
  }

  /** The product of x + 2^i for i below `degree`. */
  function Generator(f: Ring, degree: nat): (g: seq<byte>)
    ensures |g| == degree + 1 && g[0] == 1
  {
    if degree == 0 then [1]
    else
      var p := Generator(f, degree - 1);
      AddRight(f, p + [0], p, Pow(f, 2, degree - 1))
  }

  // ----- evaluation turns products of polynomials into products

  lemma {:induction false} EvalSnoc(f: Ring, p: seq<byte>, last: byte, x: byte)
    ensures Eval(f, p + [last], x) == f.add(f.mul(Eval(f, p, x), x), last)
  {
    assert (p + [last])[..|p|] == p;
  }

  lemma {:induction false} EvalShift(f: Ring, p: seq<byte>, x: byte)
    requires Laws(f)
    ensures Eval(f, p + [0], x) == f.mul(Eval(f, p, x), x)
  {
    EvalSnoc(f, p, 0, x);
    At(f, f.mul(Eval(f, p, x), x), 0, 0);
  }

  lemma Middle(f: Ring, a: byte, b: byte, c: byte, d: byte)
    requires Laws(f)
    ensures f.add(f.add(a, b), f.add(c, d)) == f.add(f.add(a, c), f.add(b, d))
  {
    At(f, a, b, f.add(c, d));
    At(f, b, c, d);
    At(f, c, b, d);
    At(f, a, c, f.add(b, d));
  }

  /** One step of Horner's rule on both summands. */
  lemma HornerAdds(f: Ring, a: byte, b: byte, c: byte, x: byte, last: byte, top: byte)
    requires Laws(f)
    ensures f.add(f.mul(f.add(a, f.mul(b, c)), x), f.add(last, f.mul(top, c)))
         == f.add(f.add(f.mul(a, x), last), f.mul(f.add(f.mul(b, x), top), c))
  {
    At(f, a, f.mul(b, c), x);
    At(f, b, c, x);
    At(f, c, x, b);
    At(f, b, x, c);
    At(f, f.mul(b, x), top, c);
    Middle(f, f.mul(a, x), f.mul(f.mul(b, c), x), last, f.mul(top, c));
  }

  lemma {:induction false} EvalAddRight(f: Ring, r: seq<byte>, g: seq<byte>, c: byte, x: byte)
    requires Laws(f) && |g| <= |r|
    ensures Eval(f, AddRight(f, r, g, c), x) == f.add(Eval(f, r, x), f.mul(Eval(f, g, x), c))
    decreases |g|
  {
    if g == [] {
      At(f, c, 0, 0);
      At(f, Eval(f, r, x), 0, 0);
    } else {
      var r', g', last, top := r[..|r| - 1], g[..|g| - 1], r[|r| - 1], g[|g| - 1];
      EvalAddRight(f, r', g', c, x);
      EvalSnoc(f, AddRight(f, r', g', c), f.add(last, f.mul(top, c)), x);
      HornerAdds(f, Eval(f, r', x), Eval(f, g', x), c, x, last, top);
    }
  }

  lemma {:induction false} EvalZeros(f: Ring, n: nat, x: byte)
    requires Laws(f)
    ensures Eval(f, Zeros(n), x) == 0
  {
    if n > 0 {
      EvalZeros(f, n - 1, x);
      EvalShift(f, Zeros(n - 1), x);
      At(f, x, 0, 0);
    }
  }

  lemma FactorOut(f: Ring, g: byte, q: byte, x: byte, c: byte)
    requires Laws(f)
    ensures f.add(f.mul(f.mul(g, q), x), f.mul(g, c)) == f.mul(g, f.add(f.mul(q, x), c))
  {
    At(f, g, q, x);
    At(f, g, f.mul(q, x), c);
    At(f, f.mul(q, x), c, g);
    At(f, g, c, 0);
    At(f, g, f.add(f.mul(q, x), c), 0);
  }

  /** The value of a product is the product of the values. */
  lemma {:induction false} EvalProduct(f: Ring, g: seq<byte>, q: seq<byte>, x: byte)
    requires Laws(f) && g != []
    ensures Eval(f, PolyMul(f, g, q), x) == f.mul(Eval(f, g, x), Eval(f, q, x))
    decreases |q|
  {
    if q == [] {
      EvalZeros(f, |g| - 1, x);
      At(f, Eval(f, g, x), 0, 0);
    } else {
      var q', c := q[..|q| - 1], q[|q| - 1];
      EvalProduct(f, g, q', x);
      EvalShift(f, PolyMul(f, g, q'), x);
      EvalAddRight(f, PolyMul(f, g, q') + [0], g, c, x);
      FactorOut(f, Eval(f, g, x), Eval(f, q', x), x, c);
    }
  }

  /** Multiplying by x + root. */
  lemma {:induction false} EvalFactor(f: Ring, p: seq<byte>, root: byte, x: byte)
    requires Laws(f)
    ensures Eval(f, AddRight(f, p + [0], p, root), x) == f.add(f.mul(Eval(f, p, x), x), f.mul(Eval(f, p, x), root))
  {
    EvalShift(f, p, x);
    EvalAddRight(f, p + [0], p, root, x);
  }

  lemma FactorVanishes(f: Ring, v: byte, root: byte, x: byte)
    requires Laws(f) && (v == 0 || root == x)
    ensures f.add(f.mul(v, x), f.mul(v, root)) == 0
  {
    At(f, f.mul(v, x), 0, 0);
    At(f, x, 0, 0);
    At(f, root, 0, 0);
    At(f, 0, 0, 0);
  }

  /** Each of the first `degree` powers of two is a root of the generator. */
  lemma {:induction false} GeneratorVanishes(f: Ring, degree: nat, i: nat)
    requires Laws(f) && i < degree
    ensures Eval(f, Generator(f, degree), Pow(f, 2, i)) == 0
    decreases degree
  {
    var p, root, x := Generator(f, degree - 1), Pow(f, 2, degree - 1), Pow(f, 2, i);
    if i < degree - 1 { GeneratorVanishes(f, degree - 1, i); }
    EvalFactor(f, p, root, x);
    FactorVanishes(f, Eval(f, p, x), root, x);
  }

  // ----- the division

  /** `correction` are the bytes behind `data` that make the whole a multiple of the generator. */
  ghost predicate Corrects(f: Ring, data: seq<byte>, correction: seq<byte>, degree: nat) {
    |correction| == degree && exists q: seq<byte> ::
        |q| == |data| && PolyMul(f, Generator(f, degree), q) == data + correction
  }

  /** A corrected block vanishes at every power of two below the degree. */
  lemma {:induction false} CodewordVanishes(f: Ring, data: seq<byte>, correction: seq<byte>, degree: nat, i: nat)
    requires Laws(f) && Corrects(f, data, correction, degree) && i < degree
    ensures Eval(f, data + correction, Pow(f, 2, i)) == 0
  {
    var g := Generator(f, degree);
    var q :| |q| == |data| && PolyMul(f, g, q) == data + correction;
    EvalProduct(f, g, q, Pow(f, 2, i));
    GeneratorVanishes(f, degree, i);
    At(f, Eval(f, q, Pow(f, 2, i)), 0, 0);
  }

  /** `generator`. */
  method MakeGenerator(ghost f: Ring, degree: nat) returns (polynomial: seq<byte>)
    requires Ops(f) && Laws(f)
    ensures polynomial == Generator(f, degree)
  {
    polynomial := [1];
    var exponent := 0;
    while exponent < degree
      invariant exponent <= degree && polynomial == Generator(f, exponent)
    {
      var root := Raise(f, 2, exponent);
      polynomial := TimesFactor(f, polynomial, root);
      exponent := exponent + 1;
    }
  }

  /** `power`. */
  method Raise(ghost f: Ring, value: byte, exponent: nat) returns (result: byte)
    requires Ops(f)
    ensures result == Pow(f, value, exponent)
  {
    result := 1;
    for i := 0 to exponent
      invariant result == Pow(f, value, i)
    {
      result := Product(f, result, value);
    }
  }

  /** Coefficient `i` of `p` times x + root. */
  lemma FactorEntry(f: Ring, p: seq<byte>, root: byte, i: nat)
    requires Laws(f) && i <= |p|
    ensures AddRight(f, p + [0], p, root)[i]
         == f.add(if i == 0 then 0 else f.mul(p[i - 1], root), if i < |p| then p[i] else 0)
  {
    var low, high := if i == 0 then 0 else f.mul(p[i - 1], root), if i < |p| then p[i] else 0;
    At(f, low, high, 0);
    At(f, high, 0, 0);
  }

  /** The inner loop of `generator` has done the entries below `i` and half of entry `i`. */
  ghost predicate FactorDone(f: Ring, p: seq<byte>, root: byte, next: seq<byte>, i: nat)
    requires i <= |p| && |next| == |p| + 1
  {
    && (forall k {:trigger next[k]} :: 0 <= k < i ==> next[k] == AddRight(f, p + [0], p, root)[k])
    && next[i] == (if i == 0 then 0 else f.mul(p[i - 1], root))
    && (forall k {:trigger next[k]} :: i < k <= |p| ==> next[k] == 0)
  }

  method FactorTurn(ghost f: Ring, p: seq<byte>, root: byte, next: array<byte>, i: nat)
    requires Ops(f) && Laws(f) && i < |p| && next.Length == |p| + 1 && FactorDone(f, p, root, next[..], i)
    modifies next
    ensures FactorDone(f, p, root, next[..], i + 1)
  {
    FactorEntry(f, p, root, i);
    var entry := Plus(f, next[i], p[i]);
    var scaled := Product(f, p[i], root);
    At(f, scaled, 0, 0);
    scaled := Plus(f, next[i + 1], scaled);
    next[i], next[i + 1] := entry, scaled;
  }

  /** The inner loop of `generator`. */
  method TimesFactor(ghost f: Ring, p: seq<byte>, root: byte) returns (s: seq<byte>)
    requires Ops(f) && Laws(f)
    ensures s == AddRight(f, p + [0], p, root)
  {
    var next := new byte[|p| + 1](_ => 0);
    for i := 0 to |p|
      invariant FactorDone(f, p, root, next[..], i)
    {
      FactorTurn(f, p, root, next, i);
    }
    FactorEntry(f, p, root, |p|);
    At(f, next[|p|], 0, 0);
    s := next[..];
  }

  // ----- the in-place division

  /** `input` is the remainder behind `done` plus what has been taken away so far. */
  ghost predicate Dividing(f: Ring, g: seq<byte>, input: seq<byte>, remainder: seq<byte>, done: nat)
    requires g != [] && |remainder| == |input| && done + |g| - 1 <= |input|
  {
    var taken := PolyMul(f, g, remainder[..done]);
    && |taken| == done + |g| - 1
    && (forall j {:trigger input[j]} :: 0 <= j < done ==> input[j] == taken[j])
    && (forall j {:trigger input[j]} :: done <= j < |taken| ==> input[j] == f.add(remainder[j], taken[j]))
    && (forall j {:trigger input[j]} :: |taken| <= j < |input| ==> input[j] == remainder[j])
  }

  /** The next product: everything moves up one power, and the generator comes in with the next coefficient. */
  lemma {:induction false} TakenOn(f: Ring, g: seq<byte>, before: seq<byte>, after: seq<byte>, done: nat)
    requires g != [] && done < |before| == |after| && after[..done + 1] == before[..done + 1]
    ensures PolyMul(f, g, after[..done + 1]) == AddRight(f, PolyMul(f, g, before[..done]) + [0], g, before[done])
  {
    assert after[..done + 1][..done] == before[..done];
  }

  /** One turn: subtracting the leading coefficient times the generator. */
  lemma {:induction false} DivideOn(f: Ring, g: seq<byte>, input: seq<byte>, before: seq<byte>, after: seq<byte>,
          done: nat)
    requires Laws(f) && g != [] && g[0] == 1 && |before| == |after| == |input| && done + |g| <= |input|
    requires Dividing(f, g, input, before, done)
    requires forall j {:trigger after[j]} :: 0 <= j < |input| ==>
               after[j] == if done < j < done + |g| then f.add(before[j], f.mul(g[j - done], before[done]))
                   else before[j]
    ensures Dividing(f, g, input, after, done + 1)
  {
    assert after[..done + 1] == before[..done + 1];
    TakenOn(f, g, before, after, done);
    var c, t := before[done], PolyMul(f, g, before[..done]) + [0];
    var taken := AddRight(f, t, g, c);
    forall j | 0 <= j < |input|
      ensures input[j] == if j <= done then taken[j] else if j < |taken| then f.add(after[j], taken[j]) else after[j]
    {
      if done <= j < |taken| {
        assert taken[j] == f.add(t[j], f.mul(g[j - done], c));
        assert input[j] == f.add(before[j], t[j]) by { At(f, before[j], 0, 0); }
        DivideAt(f, before[j], t[j], f.mul(g[j - done], c));
        At(f, c, t[j], 0);
      }
    }
  }

  /** What is taken away twice is not taken away. */
  lemma DivideAt(f: Ring, r: byte, t: byte, x: byte)
    requires Laws(f)
    ensures f.add(f.add(r, x), f.add(t, x)) == f.add(r, t)
  {
    Middle(f, r, x, t, x);
    At(f, x, 0, 0);
    At(f, f.add(r, t), 0, 0);
  }

  lemma {:induction false} DivideStart(f: Ring, g: seq<byte>, input: seq<byte>)
    requires Laws(f) && g != [] && |g| - 1 <= |input|
    ensures Dividing(f, g, input, input, 0)
  {
    assert PolyMul(f, g, input[..0]) == Zeros(|g| - 1);
    forall j | 0 <= j < |g| - 1
      ensures f.add(input[j], Zeros(|g| - 1)[j]) == input[j]
    {
      At(f, input[j], 0, 0);
    }
  }

  /** A zero coefficient takes nothing away. */
  lemma NothingTaken(f: Ring, g: seq<byte>, before: seq<byte>, done: nat)
    requires Laws(f) && done + |g| <= |before| && g != [] && before[done] == 0
    ensures forall j :: 0 <= j < |before| ==>
              before[j] == if done < j < done + |g| then f.add(before[j], f.mul(g[j - done], before[done]))
                  else before[j]
  {
    forall j | done < j < done + |g|
      ensures before[j] == f.add(before[j], f.mul(g[j - done], before[done]))
    {
      At(f, g[j - done], 0, 0);
      At(f, before[j], 0, 0);
    }
  }

  /** The inner loop of `correction`. */
  method Subtract(ghost f: Ring, remainder: array<byte>, divisor: seq<byte>, index: nat, coefficient: byte)
    requires Ops(f) && divisor != [] && index + |divisor| <= remainder.Length
    modifies remainder
    ensures forall j :: 0 <= j < remainder.Length ==>
              remainder[j] == if index < j < index + |divisor|
                  then f.add(old(remainder[j]), f.mul(divisor[j - index], coefficient))
                              else old(remainder[j])
  {
    for term := 1 to |divisor|
      invariant forall j :: 0 <= j < remainder.Length ==>
                  remainder[j] == if index < j < index + term then f.add(old(remainder[j]),
                      f.mul(divisor[j - index], coefficient))
                                  else old(remainder[j])
    {
      var scaled := Product(f, divisor[term], coefficient);
      remainder[index + term] := Plus(f, remainder[index + term], scaled);
    }
  }

  /** One turn of the outer loop. */
  method Divide(ghost f: Ring, remainder: array<byte>, divisor: seq<byte>, index: nat, ghost input: seq<byte>)
    requires Ops(f) && Laws(f) && divisor != [] && divisor[0] == 1
    requires index + |divisor| <= remainder.Length == |input| && Dividing(f, divisor, input, remainder[..], index)
    modifies remainder
    ensures Dividing(f, divisor, input, remainder[..], index + 1)
  {
    ghost var before := remainder[..];
    var coefficient := remainder[index];
    if coefficient != 0 {
      Subtract(f, remainder, divisor, index, coefficient);
    } else {
      NothingTaken(f, divisor, before, index);
    }
    DivideOn(f, divisor, input, before, remainder[..], index);
  }

  /** `correction`. */
  method Correction(ghost f: Ring, data: seq<byte>, degree: nat) returns (correction: seq<byte>)
    requires Ops(f) && Laws(f)
    ensures Corrects(f, data, correction, degree)
  {
    var divisor := MakeGenerator(f, degree);
    ghost var input := data + Zeros(degree);
    var remainder := new byte[|data| + degree](i requires 0 <= i < |data| + degree => if i < |data| then data[i]
        else 0);
    assert remainder[..] == input;
    DivideStart(f, divisor, input);
    for index := 0 to |data|
      invariant Dividing(f, divisor, input, remainder[..], index)
    {
      Divide(f, remainder, divisor, index, input);
    }
    DivideEnd(f, data, remainder[..], degree);
    correction := remainder[|data|..];
    assert correction == remainder[..][|data|..];
  }

  /** What was taken away in all is the data, followed by what remains. */
  lemma {:induction false} AllTaken(f: Ring, g: seq<byte>, data: seq<byte>, remainder: seq<byte>, degree: nat,
          taken: seq<byte>)
    requires Laws(f) && |g| == degree + 1 && |remainder| == |data| + degree
            && taken == PolyMul(f, g, remainder[..|data|])
    requires Dividing(f, g, data + Zeros(degree), remainder, |data|)
    ensures taken == data + remainder[|data|..]
  {
    var input, whole := data + Zeros(degree), data + remainder[|data|..];
    forall j | 0 <= j < |taken|
      ensures taken[j] == whole[j]
    {
      assert input[j] == if j < |data| then data[j] else 0;
      if j >= |data| { SameByte(f, remainder[j], taken[j]); }
    }
  }

  lemma {:induction false} DivideEnd(f: Ring, data: seq<byte>, remainder: seq<byte>, degree: nat)
    requires Laws(f) && |remainder| == |data| + degree
    requires Dividing(f, Generator(f, degree), data + Zeros(degree), remainder, |data|)
    ensures Corrects(f, data, remainder[|data|..], degree)
  {
    var q := remainder[..|data|];
    AllTaken(f, Generator(f, degree), data, remainder, degree, PolyMul(f, Generator(f, degree), q));
  }

  lemma SameByte(f: Ring, r: byte, t: byte)
    requires Laws(f) && f.add(r, t) == 0
    ensures r == t
  {
    At(f, r, t, t);
    At(f, t, 0, 0);
    At(f, r, 0, 0);
  }

  // ----- there is only one correction

  /** Later coefficients of the quotient do not reach back. */
  lemma {:induction false} ProductAt(f: Ring, g: seq<byte>, q: seq<byte>, j: nat)
    requires Laws(f) && g != [] && g[0] == 1 && j < |q|
    ensures PolyMul(f, g, q)[j] == f.add((PolyMul(f, g, q[..j]) + [0])[j], q[j])
    decreases |q|
  {
    var q' := q[..|q| - 1];
    var t := PolyMul(f, g, q') + [0];
    if j < |q'| {
      ProductAt(f, g, q', j);
      assert q'[..j] == q[..j];
      assert PolyMul(f, g, q)[j] == t[j];
    } else {
      At(f, q[j], 0, 0);
      assert q[..j] == q';
    }
  }

  lemma {:induction false} NextUnique(f: Ring, g: seq<byte>, p: seq<byte>, q: seq<byte>, prefix: seq<byte>, i: nat)
    requires Laws(f) && g != [] && g[0] == 1 && i < |p| == |q| && p[..i] == prefix == q[..i]
    requires PolyMul(f, g, p)[i] == PolyMul(f, g, q)[i]
    ensures p[i] == q[i]
  {
    ProductAt(f, g, p, i);
    ProductAt(f, g, q, i);
    Cancel(f, (PolyMul(f, g, prefix) + [0])[i], p[i], q[i]);
  }

  lemma {:induction false} QuotientUnique(f: Ring, g: seq<byte>, p: seq<byte>, q: seq<byte>, j: nat)
    requires Laws(f) && g != [] && g[0] == 1 && |p| == |q| && j <= |p|
    requires forall i :: 0 <= i < |p| ==> PolyMul(f, g, p)[i] == PolyMul(f, g, q)[i]
    ensures p[..j] == q[..j]
  {
    if j > 0 {
      QuotientUnique(f, g, p, q, j - 1);
      NextUnique(f, g, p, q, p[..j - 1], j - 1);
      OneMore(p, q, j);
    }
  }

  lemma OneMore(p: seq<byte>, q: seq<byte>, j: nat)
    requires 0 < j <= |p| == |q| && p[..j - 1] == q[..j - 1] && p[j - 1] == q[j - 1]
    ensures p[..j] == q[..j]
  {
    assert p[..j] == p[..j - 1] + [p[j - 1]] && q[..j] == q[..j - 1] + [q[j - 1]];
  }

  lemma Cancel(f: Ring, a: byte, b: byte, c: byte)
    requires Laws(f) && f.add(a, b) == f.add(a, c)
    ensures b == c
  {
    At(f, a, a, b);
    At(f, a, a, c);
    At(f, b, 0, 0);
    At(f, c, 0, 0);
  }

  /** The correction bytes of a block are determined by its data. */
  lemma {:induction false} CorrectionUnique(f: Ring, data: seq<byte>, a: seq<byte>, b: seq<byte>, degree: nat)
    requires Laws(f) && Corrects(f, data, a, degree) && Corrects(f, data, b, degree)
    ensures a == b
  {
    var g := Generator(f, degree);
    var p: seq<byte> :| |p| == |data| && PolyMul(f, g, p) == data + a;
    var q: seq<byte> :| |q| == |data| && PolyMul(f, g, q) == data + b;
    SameQuotient(f, g, data, p, q, a, b);
    SameTail(data, a, b);
  }

  lemma {:induction false} SameQuotient(f: Ring, g: seq<byte>, data: seq<byte>, p: seq<byte>, q: seq<byte>,
          a: seq<byte>, b: seq<byte>)
    requires Laws(f) && g != [] && g[0] == 1 && |p| == |q| == |data|
    requires PolyMul(f, g, p) == data + a && PolyMul(f, g, q) == data + b
    ensures p == q
  {
    forall i | 0 <= i < |p|
      ensures PolyMul(f, g, p)[i] == PolyMul(f, g, q)[i]
    {
      assert (data + a)[i] == data[i] == (data + b)[i];
    }
    QuotientUnique(f, g, p, q, |p|);
    assert p[..|p|] == p && q[..|q|] == q;
  }

  lemma SameTail(data: seq<byte>, a: seq<byte>, b: seq<byte>)
    requires data + a == data + b
    ensures a == b
  {
    assert a == (data + a)[|data|..] && b == (data + b)[|data|..];
  }

  // ----- in the encoder's field

  /** The correction of a block: with it the block vanishes at the first `degree` powers of two, in GF(256). */
  method CorrectBlock(data: seq<byte>, degree: nat) returns (correction: seq<byte>)
    ensures Corrects(GF, data, correction, degree)
    ensures forall i: nat :: i < degree ==> Eval(GF, data + correction, Pow(GF, 2, i)) == 0
  {
    GfLaws();
    correction := Correction(GF, data, degree);
    forall i: nat | i < degree
      ensures Eval(GF, data + correction, Pow(GF, 2, i)) == 0
    {
      CodewordVanishes(GF, data, correction, degree, i);
    }
  }

  /** No other bytes correct the block. */
  lemma {:induction false} GfCorrectionUnique(data: seq<byte>, a: seq<byte>, b: seq<byte>, degree: nat)
    requires Corrects(GF, data, a, degree) && Corrects(GF, data, b, degree)
    ensures a == b
  {
    GfLaws();
    CorrectionUnique(GF, data, a, b, degree);
  }
}
