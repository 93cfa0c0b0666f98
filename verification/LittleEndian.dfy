/** Little-endian and big-endian numbers as bytes. */
module Endian {
  import opened Common

  newtype u64 = x: int | 0 <= x < 0x1_0000_0000_0000_0000
  newtype u32 = x: int | 0 <= x < 0x1_0000_0000

  function Pow256(k: nat): (p: nat)
    ensures p >= 1
  {
    if k == 0 then 1 else 256 * Pow256(k - 1)
  }

  /** The number little-endian bytes stand for. */
  function Le(s: seq<byte>): nat {
    if s == [] then 0 else s[0] + 256 * Le(s[1..])
  }

  function ToLe(n: nat, k: nat): (s: seq<byte>)
    ensures |s| == k
    decreases k
  {
    if k == 0 then [] else [n % 256] + ToLe(n / 256, k - 1)
  }

  lemma {:induction false} LeBound(s: seq<byte>)
    ensures Le(s) < Pow256(|s|)
  {
    if s != [] { LeBound(s[1..]); }
  }

  /** Written and read back. */
  lemma {:induction false} LeToLe(n: nat, k: nat)
    requires n < Pow256(k)
    ensures Le(ToLe(n, k)) == n
    decreases k
  {
    if k > 0 {
      LeToLe(n / 256, k - 1);
      assert ToLe(n, k)[1..] == ToLe(n / 256, k - 1);
    }
  }

  lemma {:induction false} LeSnoc(s: seq<byte>, b: byte)
    ensures Le(s + [b]) == Le(s) + b * Pow256(|s|)
    decreases |s|
  {
    if s == [] {
      assert s + [b] == [b];
    } else {
      LeSnoc(s[1..], b);
      assert (s + [b])[1..] == s[1..] + [b];
      assert 256 * (b * Pow256(|s| - 1)) == b * Pow256(|s|);
    }
  }

  lemma Pow256Values()
    ensures Pow256(4) == 0x1_0000_0000 && Pow256(8) == 0x1_0000_0000_0000_0000
  {
    assert Pow256(2) == 0x1_0000;
    assert Pow256(3) == 0x100_0000;
    assert Pow256(4) == 0x1_0000_0000;
    assert Pow256(5) == 0x100_0000_0000;
    assert Pow256(6) == 0x1_0000_0000_0000;
    assert Pow256(7) == 0x100_0000_0000_0000;
  }

  /** The loop of `readLe64`: byte `i` is shifted by `8 * i` bits into a place no other byte uses. */
  method ReadLe64(bytes: seq<byte>) returns (value: u64)
    requires |bytes| == 8
    ensures value as nat == Le(bytes)
  {
    Pow256Values();
    var sum: nat, weight: nat := 0, 1;
    for i := 0 to 8
      invariant sum == Le(bytes[..i]) && weight == Pow256(i)
    {
      assert bytes[..i + 1] == bytes[..i] + [bytes[i]];
      LeSnoc(bytes[..i], bytes[i]);
      sum, weight := sum + bytes[i] * weight, weight * 256;
    }
    assert bytes[..8] == bytes;
    LeBound(bytes);
    value := sum as u64;
  }

  method ReadLe32(bytes: seq<byte>) returns (value: u32)
    requires |bytes| == 4
    ensures value as nat == Le(bytes)
  {
    Pow256Values();
    LeBound(bytes);
    var b0, b1, b2, b3 := bytes[0], bytes[1], bytes[2], bytes[3];
    assert Le(bytes) == b0 + 256 * (b1 + 256 * (b2 + 256 * b3)) by {
      assert Le(bytes[3..]) == b3;
      assert bytes[2..][1..] == bytes[3..] && bytes[1..][1..] == bytes[2..];
      assert Le(bytes[2..]) == b2 + 256 * b3;
      assert Le(bytes[1..]) == b1 + 256 * Le(bytes[2..]);
    }
    value := (b0 + b1 * 0x100 + b2 * 0x1_0000 + b3 * 0x100_0000) as u32;
  }

  // ----- big-endian counters

  /** The low `k` bytes of a number, most significant first. */
  function Be(n: nat, k: nat): (s: seq<byte>)
    ensures |s| == k
    decreases k
  {
    if k == 0 then [] else Be(n / 256, k - 1) + [n % 256]
  }

  /** Adding one to a big-endian number, with the carry running towards the front. */
  function Increment(s: seq<byte>): (r: seq<byte>)
    ensures |r| == |s|
  {
    if s == [] then []
    else if s[|s| - 1] == 255 then Increment(s[..|s| - 1]) + [0]
    else s[..|s| - 1] + [s[|s| - 1] + 1]
  }

  /** As long as the low part does not overflow, the carry never reaches what stands before it. */
  lemma {:induction false} IncrementBe(upper: seq<byte>, n: nat, k: nat)
    requires n + 1 < Pow256(k)
    ensures Increment(upper + Be(n, k)) == upper + Be(n + 1, k)
    decreases k
  {
    var s := upper + Be(n, k);
    assert s[..|s| - 1] == upper + Be(n / 256, k - 1);
    assert s[|s| - 1] == n % 256;
    if n % 256 == 255 {
      assert (n + 1) / 256 == n / 256 + 1 && (n + 1) % 256 == 0;
      IncrementBe(upper, n / 256, k - 1);
    } else {
      assert (n + 1) / 256 == n / 256 && (n + 1) % 256 == n % 256 + 1;
    }
  }

  /** Each byte on its own, as a shift produces it. */
  lemma {:induction false} BeAt(n: nat, k: nat, i: nat)
    requires i < k
    ensures Be(n, k)[i] == (n / Pow256(k - 1 - i)) % 256
    decreases k
  {
    if i < k - 1 {
      BeAt(n / 256, k - 1, i);
      DivTwice(n, Pow256(k - 2 - i));
    }
  }

  lemma DivTwice(n: nat, b: nat)
    requires b > 0
    ensures (n / 256) / b == n / (256 * b)
  {
    var q := n / (256 * b);
    var r := n % (256 * b);
    assert n == q * (256 * b) + r;
    assert n / 256 == q * b + r / 256 by {
      assert n == 256 * (q * b) + r;
    }
    assert r / 256 < b;
    QuotientIs(n / 256, b, q, r / 256);
  }
}
