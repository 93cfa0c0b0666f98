/** The codewords of a QR symbol. */
module QrData {
  // Packing of the content, error correction per block, interleaving (sections 7.4 and 7.6 of ISO/IEC
  // 18004:2015, byte mode, medium error correction, versions 1 to 10).

  import opened Common
  import opened Bits
  import opened ReedSolomon

  datatype Block = Block(total: nat, data: nat)

  /** How many blocks of which sizes, by version. */
  const MEDIUM_BLOCKS: seq<(nat, nat, nat)> :=
    [(1, 26, 16), (1, 44, 28), (1, 70, 44), (2, 50, 32), (2, 67, 43), (4, 43, 27), (4, 49, 31), (2, 60, 38),
        (3, 58, 36), (4, 69, 43)]

  /** The additional blocks from version 8 on. */
  const MEDIUM_EXTRA_BLOCKS: seq<(nat, nat, nat)> := [(2, 61, 39), (2, 59, 37), (1, 70, 44)]

  predicate Version(v: nat) {
    1 <= v <= 10
  }

  function Repeat<T>(n: nat, x: T): (r: seq<T>)
    ensures |r| == n && forall i :: 0 <= i < n ==> r[i] == x
  {
    if n == 0 then [] else Repeat(n - 1, x) + [x]
  }

  function BlocksFor(version: nat): seq<Block>
    requires Version(version)
  {
    var first := MEDIUM_BLOCKS[version - 1];
    Repeat(first.0, Block(first.1, first.2))
    + if version >= 8 then
        var extra := MEDIUM_EXTRA_BLOCKS[version - 8];
        Repeat(extra.0, Block(extra.1, extra.2))
      else []
  }

  function DataSum(blocks: seq<Block>): nat {
    if blocks == [] then 0 else DataSum(blocks[..|blocks| - 1]) + blocks[|blocks| - 1].data
  }

  // ----- bits

  const BYTE_BITS: nat := 8
  const MODE_BITS: nat := 4

  /** The low `k` bits, most significant first. */
  function BitsOf(v: nat, k: nat): (r: seq<bool>)
    ensures |r| == k
  {
    if k == 0 then [] else BitsOf(v / 2, k - 1) + [v % 2 == 1]
  }

  function BitsValue(bits: seq<bool>): nat {
    if bits == [] then 0 else 2 * BitsValue(bits[..|bits| - 1]) + (if bits[|bits| - 1] then 1 else 0)
  }

  lemma {:induction false} ValueOfBits(v: nat, k: nat)
    requires v < Pow2(k)
    ensures BitsValue(BitsOf(v, k)) == v
    decreases k
  {
    if k > 0 {
      ValueOfBits(v / 2, k - 1);
      assert BitsOf(v, k)[..k - 1] == BitsOf(v / 2, k - 1);
    }
  }

  lemma {:induction false} BitsOfValue(bits: seq<bool>)
    ensures BitsValue(bits) < Pow2(|bits|) && BitsOf(BitsValue(bits), |bits|) == bits
  {
    if bits != [] { BitsOfValue(bits[..|bits| - 1]); }
  }

  /** The bits of bytes, one after the other. */
  function BytesBits(bytes: seq<byte>): (r: seq<bool>)
    ensures |r| == 8 * |bytes|
  {
    if bytes == [] then [] else BytesBits(bytes[..|bytes| - 1]) + BitsOf(bytes[|bytes| - 1], BYTE_BITS)
  }

  lemma {:induction false} BytesBitsAppend(a: seq<byte>, b: seq<byte>)
    ensures BytesBits(a + b) == BytesBits(a) + BytesBits(b)
    decreases |b|
  {
    if b == [] {
      assert a + b == a;
    } else {
      BytesBitsAppend(a, b[..|b| - 1]);
      assert (a + b)[..|a + b| - 1] == a + b[..|b| - 1];
      Regroup(BytesBits(a), BytesBits(b[..|b| - 1]), BitsOf(b[|b| - 1], BYTE_BITS));
    }
  }

  function Falses(n: nat): (r: seq<bool>)
    ensures |r| == n && forall i :: 0 <= i < n ==> !r[i]
  {
    if n == 0 then [] else Falses(n - 1) + [false]
  }

  lemma {:induction false} BitsOfZero(k: nat)
    ensures BitsOf(0, k) == Falses(k)
  {
    if k > 0 { BitsOfZero(k - 1); }
  }

  // ----- what the codewords of a content are

  function CountBits(version: nat): nat {
    if version < 10 then 8 else 16
  }

  /** Mode, length and bytes. */
  function Payload(content: seq<byte>, version: nat): (r: seq<bool>)
    ensures |r| == 4 + CountBits(version) + 8 * |content|
  {
    BitsOf(4, MODE_BITS) + BitsOf(|content|, CountBits(version)) + BytesBits(content)
  }

  predicate Fits(length: nat, version: nat)
    requires Version(version)
  {
    4 + CountBits(version) + 8 * length <= 8 * DataSum(BlocksFor(version))
  }

  /** The bytes the payload and the terminator fill. */
  function Filled(content: seq<byte>, version: nat, capacity: nat): (n: nat)
    requires |Payload(content, version)| <= 8 * capacity
    ensures |Payload(content, version)| <= 8 * n <= |Payload(content, version)| + 11 && n <= capacity
  {
    var used := |Payload(content, version)| + Min(4, 8 * capacity - |Payload(content, version)|);
    (used + 7) / 8
  }

  /** The payload, zero bits up to the next byte border behind the terminator, and alternating pad bytes. */
  ghost predicate Encodes(content: seq<byte>, version: nat, capacity: nat, data: seq<byte>) {
    var payload := Payload(content, version);
    && |data| == capacity && |payload| <= 8 * capacity
    && var n := Filled(content, version, capacity);
       && BytesBits(data[..n]) == payload + Falses(8 * n - |payload|)
       && forall j :: n <= j < capacity ==> data[j] == if (j - n) % 2 == 0 then 0xec else 0x11
  }

  // ----- reading it back

  function BytesOf(bits: seq<bool>): seq<byte>
    requires |bits| % 8 == 0
  {
    if bits == [] then []
    else BytesOf(bits[..|bits| - 8]) + [ByteOf(bits[|bits| - 8..])]
  }

  function ByteOf(bits: seq<bool>): (b: byte)
    requires |bits| == 8
    ensures b == BitsValue(bits)
  {
    BitsOfValue(bits);
    assert Pow2(4) == 16;
    assert Pow2(8) == 256;
    BitsValue(bits)
  }

  lemma {:induction false} BytesReadBack(bytes: seq<byte>)
    ensures BytesOf(BytesBits(bytes)) == bytes
  {
    if bytes != [] {
      var before, last := bytes[..|bytes| - 1], bytes[|bytes| - 1];
      BytesReadBack(before);
      var bits := BytesBits(bytes);
      assert bits[..|bits| - 8] == BytesBits(before) && bits[|bits| - 8..] == BitsOf(last, BYTE_BITS);
      assert Pow2(4) == 16;
      assert Pow2(8) == 256;
      ValueOfBits(last, BYTE_BITS);
    }
  }

  /** Reads mode, length and bytes. */
  function ReadContent(data: seq<byte>, version: nat): Option<seq<byte>> {
    var bits, w := BytesBits(data), 4 + CountBits(version);
    if |bits| < w || BitsValue(bits[..4]) != 4 then None
    else
      var n := BitsValue(bits[4..w]);
      if w + 8 * n > |bits| then None else Some(BytesOf(bits[w..w + 8 * n]))
  }

  lemma PayloadParts(a: seq<bool>, b: seq<bool>, c: seq<bool>, rest: seq<bool>)
    ensures var bits := a + b + c + rest;
            && bits[..|a|] == a && bits[|a|..|a| + |b|] == b && bits[|a| + |b|..|a| + |b| + |c|] == c
  {
  }

  /** What was packed is read back, whatever follows it. */
  lemma {:induction false} ReadBack(content: seq<byte>, version: nat, data: seq<byte>, rest: seq<bool>)
    requires |content| < 256 && BytesBits(data) == Payload(content, version) + rest
    ensures ReadContent(data, version) == Some(content)
  {
    var w := CountBits(version);
    PayloadParts(BitsOf(4, MODE_BITS), BitsOf(|content|, w), BytesBits(content), rest);
    assert Pow2(4) == 16;
    ValueOfBits(4, MODE_BITS);
    assert Pow2(8) == 256;
    if w == 16 { LargerPow(8, 16); }
    ValueOfBits(|content|, w);
    BytesReadBack(content);
  }

  lemma {:induction false} LargerPow(j: nat, k: nat)
    requires j <= k
    ensures Pow2(j) <= Pow2(k)
  {
    if j < k { LargerPow(j, k - 1); }
  }

  lemma {:induction false} EncodesReadBack(content: seq<byte>, version: nat, capacity: nat, data: seq<byte>)
    requires |content| < 256 && Encodes(content, version, capacity, data)
    ensures ReadContent(data, version) == Some(content)
  {
    var n := Filled(content, version, capacity);
    HeadAndTail(data, n);
    HeadReadBack(content, version, data[..n], Falses(8 * n - |Payload(content, version)|), data[n..]);
  }

  lemma {:induction false} HeadReadBack(content: seq<byte>, version: nat, head: seq<byte>, zeros: seq<bool>,
          tail: seq<byte>)
    requires |content| < 256 && BytesBits(head) == Payload(content, version) + zeros
    ensures ReadContent(head + tail, version) == Some(content)
  {
    BytesBitsAppend(head, tail);
    Regroup(Payload(content, version), zeros, BytesBits(tail));
    ReadBack(content, version, head + tail, zeros + BytesBits(tail));
  }

  // ----- interleaving

  /** Entry `i` of the first `k` blocks that have one. */
  function Column(blocks: seq<seq<byte>>, i: nat, k: nat): seq<byte>
    requires k <= |blocks|
  {
    if k == 0 then [] else Column(blocks, i, k - 1) + if i < |blocks[k - 1]| then [blocks[k - 1][i]] else []
  }

  /** The first `n` columns, one after the other. */
  function Columns(blocks: seq<seq<byte>>, n: nat): seq<byte> {
    if n == 0 then [] else Columns(blocks, n - 1) + Column(blocks, n - 1, |blocks|)
  }

  /** How many of the first `k` blocks have an entry `i`. */
  function Ahead(sizes: seq<nat>, i: nat, k: nat): nat
    requires k <= |sizes|
  {
    if k == 0 then 0 else Ahead(sizes, i, k - 1) + if i < sizes[k - 1] then 1 else 0
  }

  function Before(sizes: seq<nat>, n: nat): nat {
    if n == 0 then 0 else Before(sizes, n - 1) + Ahead(sizes, n - 1, |sizes|)
  }

  /** Where entry `i` of block `b` stands in the interleaved stream. */
  function Place(sizes: seq<nat>, b: nat, i: nat): nat
    requires b <= |sizes|
  {
    Before(sizes, i) + Ahead(sizes, i, b)
  }

  /** The sizes of the blocks. */
  ghost predicate SizesOf(sizes: seq<nat>, blocks: seq<seq<byte>>) {
    |sizes| == |blocks| && forall b :: 0 <= b < |sizes| ==> sizes[b] == |blocks[b]|
  }

  lemma {:induction false} ColumnSize(sizes: seq<nat>, blocks: seq<seq<byte>>, i: nat, k: nat)
    requires SizesOf(sizes, blocks) && k <= |blocks|
    ensures |Column(blocks, i, k)| == Ahead(sizes, i, k)
  {
    if k > 0 { ColumnSize(sizes, blocks, i, k - 1); }
  }

  lemma {:induction false} ColumnsSize(sizes: seq<nat>, blocks: seq<seq<byte>>, n: nat)
    requires SizesOf(sizes, blocks)
    ensures |Columns(blocks, n)| == Before(sizes, n)
  {
    if n > 0 {
      ColumnsSize(sizes, blocks, n - 1);
      ColumnSize(sizes, blocks, n - 1, |blocks|);
    }
  }

  lemma {:induction false} ColumnAt(sizes: seq<nat>, blocks: seq<seq<byte>>, i: nat, k: nat, b: nat)
    requires SizesOf(sizes, blocks) && b < k <= |blocks| && i < sizes[b]
    ensures Ahead(sizes, i, b) < |Column(blocks, i, k)| && Column(blocks, i, k)[Ahead(sizes, i, b)] == blocks[b][i]
    decreases k
  {
    ColumnSize(sizes, blocks, i, k - 1);
    if b < k - 1 { ColumnAt(sizes, blocks, i, k - 1, b); }
  }

  /** Every entry of every block stands at its place. */
  lemma {:induction false} ColumnsAt(sizes: seq<nat>, blocks: seq<seq<byte>>, n: nat, b: nat, i: nat)
    requires SizesOf(sizes, blocks) && b < |blocks| && i < sizes[b] && i < n
    ensures Place(sizes, b, i) < |Columns(blocks, n)| && Columns(blocks, n)[Place(sizes, b, i)] == blocks[b][i]
    decreases n
  {
    var before, column := Columns(blocks, n - 1), Column(blocks, n - 1, |blocks|);
    if i < n - 1 {
      ColumnsAt(sizes, blocks, n - 1, b, i);
      ConcatBefore(before, column, Place(sizes, b, i));
    } else {
      ColumnsSize(sizes, blocks, i);
      ColumnAt(sizes, blocks, i, |blocks|, b);
      ConcatAt(before, column, Ahead(sizes, i, b));
    }
  }

  lemma ConcatBefore(a: seq<byte>, b: seq<byte>, k: nat)
    requires k < |a|
    ensures k < |a + b| && (a + b)[k] == a[k]
  {
  }

  lemma ConcatAt(a: seq<byte>, b: seq<byte>, k: nat)
    requires k < |b|
    ensures |a| + k < |a + b| && (a + b)[|a| + k] == b[k]
  {
  }

  /** Reading one block back out of the stream. */
  function ReadBlock(sizes: seq<nat>, stream: seq<byte>, b: nat, size: nat): Option<seq<byte>>
    requires b < |sizes|
  {
    if size == 0 then Some([])
    else
      var before, at := ReadBlock(sizes, stream, b, size - 1), Place(sizes, b, size - 1);
      if before.None? || at >= |stream| then None else Some(before.value + [stream[at]])
  }

  /** De-interleaving gives the blocks back. */
  lemma {:induction false} BlockReadBack(sizes: seq<nat>, blocks: seq<seq<byte>>, n: nat, b: nat, size: nat)
    requires SizesOf(sizes, blocks) && b < |blocks| && size <= sizes[b] <= n
    ensures ReadBlock(sizes, Columns(blocks, n), b, size) == Some(blocks[b][..size])
    decreases size
  {
    if size > 0 {
      BlockReadBack(sizes, blocks, n, b, size - 1);
      ColumnsAt(sizes, blocks, n, b, size - 1);
      assert blocks[b][..size] == blocks[b][..size - 1] + [blocks[b][size - 1]];
    }
  }

  /** Two entries never share a place. */
  lemma {:induction false} PlacesApart(sizes: seq<nat>, b: nat, i: nat, c: nat, j: nat)
    requires b < |sizes| && c < |sizes| && i < sizes[b] && j < sizes[c] && (i < j || (i == j && b < c))
    ensures Place(sizes, b, i) < Place(sizes, c, j)
  {
    if i < j {
      AheadGrows(sizes, i, b + 1, |sizes|);
      BeforeGrows(sizes, i + 1, j);
    } else {
      AheadGrows(sizes, i, b + 1, c);
    }
  }

  lemma {:induction false} AheadGrows(sizes: seq<nat>, i: nat, b: nat, c: nat)
    requires b <= c <= |sizes|
    ensures Ahead(sizes, i, b) <= Ahead(sizes, i, c)
  {
    if b < c { AheadGrows(sizes, i, b, c - 1); }
  }

  lemma {:induction false} BeforeGrows(sizes: seq<nat>, m: nat, n: nat)
    requires m <= n
    ensures Before(sizes, m) <= Before(sizes, n)
  {
    if m < n { BeforeGrows(sizes, m, n - 1); }
  }

  /** Blocks no longer than `n` fill exactly the first `Total` places. */
  lemma {:induction false} BeforeIsTotal(sizes: seq<nat>, n: nat)
    requires forall b :: 0 <= b < |sizes| ==> sizes[b] <= n
    ensures Before(sizes, n) == Total(sizes)
    decreases |sizes|
  {
    if sizes == [] {
      BeforeOfNothing(n);
    } else {
      var front := sizes[..|sizes| - 1];
      BeforeIsTotal(front, n);
      BeforeSnoc(front, sizes[|sizes| - 1], n);
      assert front + [sizes[|sizes| - 1]] == sizes;
    }
  }

  function Total(sizes: seq<nat>): nat {
    if sizes == [] then 0 else Total(sizes[..|sizes| - 1]) + sizes[|sizes| - 1]
  }

  lemma {:induction false} BeforeOfNothing(n: nat)
    ensures Before([], n) == 0
  {
    if n > 0 { BeforeOfNothing(n - 1); }
  }

  lemma {:induction false} AheadSnoc(sizes: seq<nat>, size: nat, i: nat, k: nat)
    requires k <= |sizes|
    ensures Ahead(sizes + [size], i, k) == Ahead(sizes, i, k)
  {
    if k > 0 { AheadSnoc(sizes, size, i, k - 1); }
  }

  lemma {:induction false} BeforeSnoc(sizes: seq<nat>, size: nat, n: nat)
    ensures Before(sizes + [size], n) == Before(sizes, n) + Min(size, n)
  {
    if n > 0 {
      BeforeSnoc(sizes, size, n - 1);
      AheadSnoc(sizes, size, n - 1, |sizes|);
    }
  }

  // ----- packing

  lemma {:induction false} BitAt(v: nat, k: nat, i: nat)
    requires i < k
    ensures BitsOf(v, k)[i] == ((v / Pow2(k - 1 - i)) % 2 == 1)
  {
    if i < k - 1 {
      BitAt(v / 2, k - 1, i);
      HalfTwice(v, Pow2(k - 2 - i));
    }
  }

  lemma HalfTwice(v: nat, p: nat)
    requires p > 0
    ensures (v / 2) / p == v / (2 * p)
  {
    var q, r := v / (2 * p), v % (2 * p);
    assert v == 2 * (q * p) + r by { assert v == q * (2 * p) + r; }
    QuotientIs(v / 2, p, q, r / 2);
  }

  /** `append`. */
  method AppendBits(bits: seq<bool>, value: nat, count: nat) returns (r: seq<bool>)
    ensures r == bits + BitsOf(value, count)
  {
    r := bits;
    var left: nat := count;
    assert BitsOf(value, count)[..count] == BitsOf(value, count);
    while left > 0
      invariant left <= count && r == bits + BitsOf(value, count)[..count - left]
    {
      BitAt(value, count, count - left);
      left := left - 1;
      r := r + [(value / Pow2(left)) % 2 == 1];
    }
  }

  /** The bits in front of the terminator. */
  method PayloadBits(content: seq<byte>, version: nat) returns (bits: seq<bool>)
    ensures bits == Payload(content, version)
  {
    bits := AppendBits([], 4, MODE_BITS);
    bits := AppendBits(bits, |content|, CountBits(version));
    ghost var header := bits;
    for i := 0 to |content|
      invariant bits == header + BytesBits(content[..i])
    {
      assert content[..i + 1][..i] == content[..i];
      Regroup(header, BytesBits(content[..i]), BitsOf(content[i], BYTE_BITS));
      bits := AppendBits(bits, content[i], BYTE_BITS);
    }
    assert content[..|content|] == content;
  }

  /** Eight bits as a byte, each bit set in its own place. */
  method PackByte(bits: seq<bool>) returns (b: byte)
    requires |bits| == 8
    ensures BitsOf(b, BYTE_BITS) == bits
  {
    var sum: nat, weight: nat := 0, 128;
    assert Pow2(4) == 16;
    assert Pow2(8) == 256;
    for i := 0 to 8
      invariant sum == BitsValue(bits[..i]) * Pow2(8 - i) && (i < 8 ==> weight == Pow2(7 - i))
    {
      assert bits[..i + 1][..i] == bits[..i];
      Weigh(BitsValue(bits[..i]), Pow2(7 - i));
      if bits[i] { sum := sum + weight; }
      weight := weight / 2;
    }
    assert bits[..8] == bits;
    BitsOfValue(bits);
    b := sum;
  }

  lemma Weigh(v: nat, p: nat)
    ensures v * (2 * p) == (2 * v) * p && (2 * v + 1) * p == (2 * v) * p + p
  {
  }

  method Pack(bits: seq<bool>) returns (data: seq<byte>)
    requires |bits| % 8 == 0
    ensures BytesBits(data) == bits
  {
    data := [];
    var index := 0;
    while index < |bits|
      invariant index <= |bits| && index % 8 == 0 && BytesBits(data) == bits[..index]
    {
      var b := PackByte(bits[index..index + 8]);
      TakeNext(bits, index, index + 8);
      data := data + [b];
      index := index + 8;
    }
    assert bits[..index] == bits;
  }

  lemma {:induction false} FalsesMore(a: nat, b: nat)
    ensures Falses(a) + Falses(b) == Falses(a + b)
  {
  }

  /** Zero bits up to the next byte border. */
  method FillByte(bits: seq<bool>) returns (r: seq<bool>, ghost k: nat)
    ensures r == bits + Falses(k) && k < 8 && |r| % 8 == 0
  {
    r, k := bits, 0;
    ghost var missing := (8 - |bits| % 8) % 8;
    while |r| % 8 != 0
      invariant r == bits + Falses(k) && k <= missing
      decreases missing - k
    {
      FalsesMore(k, 1);
      Regroup(bits, Falses(k), Falses(1));
      r, k := r + [false], k + 1;
    }
  }

  lemma {:induction false} TwoFalses(bits: seq<bool>, a: nat, b: nat)
    ensures bits + Falses(a) + Falses(b) == bits + Falses(a + b)
  {
    FalsesMore(a, b);
  }

  /** Payload and terminator, up to the next byte border. */
  method Terminated(content: seq<byte>, version: nat, capacity: nat) returns (bits: seq<bool>, ghost zeros: nat)
    requires |Payload(content, version)| <= 8 * capacity
    ensures bits == Payload(content, version) + Falses(zeros)
    ensures |bits| == 8 * Filled(content, version, capacity)
  {
    bits := PayloadBits(content, version);
    ghost var payload := bits;
    var terminator: nat := Min(4, 8 * capacity - |bits|);
    bits := AppendBits(bits, 0, terminator);
    BitsOfZero(terminator);
    ghost var k;
    bits, k := FillByte(bits);
    TwoFalses(payload, terminator, k);
    FilledIs(|payload|, terminator, k, |bits|);
    zeros := terminator + k;
  }

  /** The data codewords: payload, terminator, padding. */
  method DataCodewords(content: seq<byte>, version: nat, capacity: nat) returns (data: seq<byte>)
    requires |Payload(content, version)| <= 8 * capacity
    ensures Encodes(content, version, capacity, data)
  {
    ghost var zeros;
    var bits;
    bits, zeros := Terminated(content, version, capacity);
    var filled := Pack(bits);
    var n := |filled|;
    FilledCount(filled, bits, Filled(content, version, capacity));
    data := Pad(filled, capacity);
    EncodedIs(content, version, capacity, data, n, zeros);
  }

  lemma EncodedIs(content: seq<byte>, version: nat, capacity: nat, data: seq<byte>, n: nat, zeros: nat)
    requires |Payload(content, version)| <= 8 * capacity && n == Filled(content, version, capacity)
            && |data| == capacity
    requires BytesBits(data[..n]) == Payload(content, version) + Falses(zeros)
    requires forall j :: n <= j < capacity ==> data[j] == if (j - n) % 2 == 0 then 0xec else 0x11
    ensures Encodes(content, version, capacity, data)
  {
    assert zeros == 8 * n - |Payload(content, version)|;
  }

  lemma FilledCount(filled: seq<byte>, bits: seq<bool>, n: nat)
    requires BytesBits(filled) == bits && |bits| == 8 * n
    ensures |filled| == n
  {
  }

  lemma FilledIs(payload: nat, terminator: nat, k: nat, bits: nat)
    requires bits == payload + terminator + k && k < 8 && bits % 8 == 0
    ensures 8 * ((payload + terminator + 7) / 8) == bits
  {
  }

  /** Alternating pad bytes up to the capacity. */
  method Pad(filled: seq<byte>, capacity: nat) returns (data: seq<byte>)
    requires |filled| <= capacity
    ensures |data| == capacity && data[..|filled|] == filled
    ensures forall j :: |filled| <= j < capacity ==> data[j] == if (j - |filled|) % 2 == 0 then 0xec else 0x11
  {
    data := filled;
    var alternate := false;
    while |data| < capacity
      invariant |filled| <= |data| <= capacity && data[..|filled|] == filled
      invariant alternate <==> (|data| - |filled|) % 2 == 1
      invariant forall j :: |filled| <= j < |data| ==> data[j] == if (j - |filled|) % 2 == 0 then 0xec else 0x11
    {
      data := data + [if alternate then 0x11 else 0xec];
      alternate := !alternate;
    }
  }

  // ----- blocks

  /** The data cut into blocks, each with its correction. */
  ghost predicate Corrected(f: Ring, data: seq<byte>, blocks: seq<Block>, dataBlocks: seq<seq<byte>>,
          corrections: seq<seq<byte>>) {
    && |dataBlocks| == |corrections| == |blocks| && Joined(dataBlocks) == data
    && forall b {:trigger dataBlocks[b]} :: 0 <= b < |blocks| ==> BlockOk(f, blocks[b], dataBlocks[b], corrections[b])
  }

  ghost predicate BlockOk(f: Ring, block: Block, data: seq<byte>, correction: seq<byte>) {
    |data| == block.data <= block.total && Corrects(f, data, correction, block.total - block.data)
  }

  predicate Sound(blocks: seq<Block>) {
    forall b :: 0 <= b < |blocks| ==> blocks[b].data <= blocks[b].total
  }

  lemma {:induction false} SumGrows(blocks: seq<Block>, k: nat)
    requires k <= |blocks|
    ensures DataSum(blocks[..k]) <= DataSum(blocks)
    decreases |blocks|
  {
    if k < |blocks| {
      SumGrows(blocks[..|blocks| - 1], k);
      assert blocks[..|blocks| - 1][..k] == blocks[..k];
    } else {
      assert blocks[..k] == blocks;
    }
  }

  lemma CorrectedOn(f: Ring, data: seq<byte>, blocks: seq<Block>, dataBlocks: seq<seq<byte>>,
                    corrections: seq<seq<byte>>, offset: nat, i: nat, next: nat, block: seq<byte>,
                    correction: seq<byte>)
    requires i < |blocks| && offset <= next <= |data|
    requires Corrected(f, data[..offset], blocks[..i], dataBlocks, corrections) && block == data[offset..next]
    requires BlockOk(f, blocks[i], block, correction)
    ensures Corrected(f, data[..next], blocks[..i + 1], dataBlocks + [block], corrections + [correction])
  {
    TakeNext(data, offset, next);
    JoinedSnoc(dataBlocks, block);
    forall b | 0 <= b <= i
      ensures BlockOk(f, blocks[b], (dataBlocks + [block])[b], (corrections + [correction])[b])
    {
      if b < i { assert BlockOk(f, blocks[..i][b], dataBlocks[b], corrections[b]); }
    }
  }

  /** One turn of the loop over the blocks. */
  method NextBlock(ghost f: Ring, data: seq<byte>, blocks: seq<Block>, dataBlocks: seq<seq<byte>>,
                   corrections: seq<seq<byte>>, offset: nat, i: nat, next: nat)
    returns (dataBlocks': seq<seq<byte>>, corrections': seq<seq<byte>>)
    requires Ops(f) && Laws(f) && Sound(blocks) && i < |blocks| && offset <= next <= |data|
            && next == offset + blocks[i].data
    requires Corrected(f, data[..offset], blocks[..i], dataBlocks, corrections)
    ensures Corrected(f, data[..next], blocks[..i + 1], dataBlocks', corrections')
  {
    var block := data[offset..next];
    var correction := Correction(f, block, blocks[i].total - blocks[i].data);
    CorrectedOn(f, data, blocks, dataBlocks, corrections, offset, i, next, block, correction);
    dataBlocks', corrections' := dataBlocks + [block], corrections + [correction];
  }

  method SplitBlocks(ghost f: Ring, data: seq<byte>, blocks: seq<Block>)
    returns (dataBlocks: seq<seq<byte>>, corrections: seq<seq<byte>>)
    requires Ops(f) && Laws(f) && Sound(blocks) && |data| == DataSum(blocks)
    ensures Corrected(f, data, blocks, dataBlocks, corrections)
  {
    dataBlocks, corrections := [], [];
    var offset := 0;
    for i := 0 to |blocks|
      invariant offset == DataSum(blocks[..i]) <= |data|
      invariant Corrected(f, data[..offset], blocks[..i], dataBlocks, corrections)
    {
      SumOn(blocks, i);
      var next := offset + blocks[i].data;
      dataBlocks, corrections := NextBlock(f, data, blocks, dataBlocks, corrections, offset, i, next);
      offset := next;
    }
    assert blocks[..|blocks|] == blocks && data[..|data|] == data;
  }

  lemma {:induction false} SumOn(blocks: seq<Block>, i: nat)
    requires i < |blocks|
    ensures DataSum(blocks[..i + 1]) == DataSum(blocks[..i]) + blocks[i].data <= DataSum(blocks)
  {
    assert blocks[..i + 1][..i] == blocks[..i];
    SumGrows(blocks, i + 1);
  }

  /** The loops that interleave. */
  method Interleave(result: seq<byte>, blocks: seq<seq<byte>>, largest: nat) returns (r: seq<byte>)
    ensures r == result + Columns(blocks, largest)
  {
    r := result;
    for index := 0 to largest
      invariant r == result + Columns(blocks, index)
    {
      ghost var before := r;
      for b := 0 to |blocks|
        invariant r == before + Column(blocks, index, b)
      {
        if index < |blocks[b]| { r := r + [blocks[b][index]]; }
      }
      Regroup(result, Columns(blocks, index), Column(blocks, index, |blocks|));
    }
  }

  method Largest(blocks: seq<seq<byte>>) returns (size: nat)
    requires blocks != []
    ensures forall b :: 0 <= b < |blocks| ==> |blocks[b]| <= size
    ensures exists b :: 0 <= b < |blocks| && size == |blocks[b]|
  {
    size := |blocks[0]|;
    for i := 1 to |blocks|
      invariant forall b :: 0 <= b < i ==> |blocks[b]| <= size
      invariant exists b :: 0 <= b < i && size == |blocks[b]|
    {
      if size < |blocks[i]| { size := |blocks[i]|; }
    }
  }

  // ----- the whole stream

  function DataSizes(blocks: seq<Block>): (r: seq<nat>)
    ensures |r| == |blocks| && forall b :: 0 <= b < |r| ==> r[b] == blocks[b].data
  {
    if blocks == [] then [] else DataSizes(blocks[..|blocks| - 1]) + [blocks[|blocks| - 1].data]
  }

  /** The codewords of a content: its data blocks interleaved, then their corrections interleaved. */
  ghost predicate Stream(f: Ring, content: seq<byte>, version: nat, stream: seq<byte>,
                         data: seq<byte>, dataBlocks: seq<seq<byte>>, corrections: seq<seq<byte>>, n: nat, m: nat)
    requires Version(version)
  {
    var blocks := BlocksFor(version);
    && Encodes(content, version, DataSum(blocks), data)
    && Corrected(f, data, blocks, dataBlocks, corrections)
    && (forall b :: 0 <= b < |dataBlocks| ==> |dataBlocks[b]| <= n && |corrections[b]| <= m)
    && stream == Columns(dataBlocks, n) + Columns(corrections, m)
  }

  /** The first `k` blocks, read back out of the stream. */
  function ReadBlocks(sizes: seq<nat>, stream: seq<byte>, k: nat): Option<seq<seq<byte>>>
    requires k <= |sizes|
  {
    if k == 0 then Some([])
    else
      var before, block := ReadBlocks(sizes, stream, k - 1), ReadBlock(sizes, stream, k - 1, sizes[k - 1]);
      if before.None? || block.None? then None else Some(before.value + [block.value])
  }

  lemma {:induction false} BlocksReadBack(sizes: seq<nat>, blocks: seq<seq<byte>>, n: nat, k: nat)
    requires SizesOf(sizes, blocks) && k <= |blocks| && forall b :: 0 <= b < |blocks| ==> sizes[b] <= n
    ensures ReadBlocks(sizes, Columns(blocks, n), k) == Some(blocks[..k])
  {
    if k > 0 {
      BlocksReadBack(sizes, blocks, n, k - 1);
      BlockReadBack(sizes, blocks, n, k - 1, sizes[k - 1]);
      assert blocks[k - 1][..sizes[k - 1]] == blocks[k - 1];
      assert blocks[..k] == blocks[..k - 1] + [blocks[k - 1]];
    }
  }

  /** De-interleaving the data part, joining the blocks, reading mode, length and bytes. */
  function ReadStream(stream: seq<byte>, version: nat): Option<seq<byte>>
    requires Version(version)
  {
    var blocks := BlocksFor(version);
    if |stream| < DataSum(blocks) then None
    else
      var read := ReadBlocks(DataSizes(blocks), stream[..DataSum(blocks)], |blocks|);
      if read.None? then None else ReadContent(Joined(read.value), version)
  }

  lemma {:induction false} TotalIsSum(blocks: seq<Block>)
    ensures Total(DataSizes(blocks)) == DataSum(blocks)
  {
    if blocks != [] {
      TotalIsSum(blocks[..|blocks| - 1]);
      assert DataSizes(blocks)[..|blocks| - 1] == DataSizes(blocks[..|blocks| - 1]);
    }
  }

  /** The content comes back out of its codewords. */
  lemma {:induction false} StreamReadBack(f: Ring, content: seq<byte>, version: nat, stream: seq<byte>,
                                              data: seq<byte>, dataBlocks: seq<seq<byte>>, corrections: seq<seq<byte>>,
                                              n: nat, m: nat)
    requires Version(version) && |content| < 256
            && Stream(f, content, version, stream, data, dataBlocks, corrections, n, m)
    ensures ReadStream(stream, version) == Some(content)
  {
    var blocks := BlocksFor(version);
    DataPart(f, blocks, data, dataBlocks, corrections, n);
    var part := Columns(dataBlocks, n);
    assert stream[..|part|] == part;
    EncodesReadBack(content, version, DataSum(blocks), data);
  }

  lemma {:induction false} DataPart(f: Ring, blocks: seq<Block>, data: seq<byte>, dataBlocks: seq<seq<byte>>,
          corrections: seq<seq<byte>>, n: nat)
    requires Corrected(f, data, blocks, dataBlocks, corrections)
    requires forall b :: 0 <= b < |dataBlocks| ==> |dataBlocks[b]| <= n
    ensures |Columns(dataBlocks, n)| == DataSum(blocks)
    ensures ReadBlocks(DataSizes(blocks), Columns(dataBlocks, n), |blocks|) == Some(dataBlocks)
  {
    var sizes := DataSizes(blocks);
    forall b | 0 <= b < |sizes|
      ensures sizes[b] == |dataBlocks[b]| <= n
    {
      assert BlockOk(f, blocks[b], dataBlocks[b], corrections[b]);
    }
    BlocksReadBack(sizes, dataBlocks, n, |blocks|);
    assert dataBlocks[..|blocks|] == dataBlocks;
    ColumnsSize(sizes, dataBlocks, n);
    BeforeIsTotal(sizes, n);
    TotalIsSum(blocks);
  }

  // ----- the tables

  const CAPACITIES: seq<nat> := [16, 28, 44, 64, 86, 108, 124, 154, 182, 216]

  lemma {:induction false} SumOfRepeat(n: nat, block: Block)
    ensures DataSum(Repeat(n, block)) == n * block.data
  {
    if n > 0 {
      SumOfRepeat(n - 1, block);
      assert Repeat(n, block)[..n - 1] == Repeat(n - 1, block);
      OneMoreTimes(n, block.data);
    }
  }

  lemma {:induction false} SumOfBoth(a: seq<Block>, b: seq<Block>)
    ensures DataSum(a + b) == DataSum(a) + DataSum(b)
    decreases |b|
  {
    if b == [] {
      assert a + b == a;
    } else {
      SumOfBoth(a, b[..|b| - 1]);
      assert (a + b)[..|a + b| - 1] == a + b[..|b| - 1];
    }
  }

  lemma {:induction false} CapacityIs(version: nat)
    requires Version(version)
    ensures DataSum(BlocksFor(version)) == CAPACITIES[version - 1]
  {
    var first := MEDIUM_BLOCKS[version - 1];
    var block := Block(first.1, first.2);
    SumOfRepeat(first.0, block);
    if version >= 8 {
      ExtraCapacity(version, block);
    } else {
      assert Repeat(first.0, block) + [] == Repeat(first.0, block);
    }
  }

  lemma {:induction false} ExtraCapacity(version: nat, block: Block)
    requires 8 <= version <= 10 && block == Block(MEDIUM_BLOCKS[version - 1].1, MEDIUM_BLOCKS[version - 1].2)
    ensures DataSum(BlocksFor(version))
         == MEDIUM_BLOCKS[version - 1].0 * block.data
             + MEDIUM_EXTRA_BLOCKS[version - 8].0 * MEDIUM_EXTRA_BLOCKS[version - 8].2
  {
    var first, extra := MEDIUM_BLOCKS[version - 1], MEDIUM_EXTRA_BLOCKS[version - 8];
    SumOfRepeat(first.0, block);
    SumOfRepeat(extra.0, Block(extra.1, extra.2));
    SumOfBoth(Repeat(first.0, block), Repeat(extra.0, Block(extra.1, extra.2)));
  }

  /** The codewords of each version, with their corrections. */
  const CODEWORDS: seq<nat> := [26, 44, 70, 100, 134, 172, 196, 242, 292, 346]

  /** The first `n` bytes of each of the first `k` blocks. */
  function Heads(blocks: seq<seq<byte>>, n: nat, k: nat): seq<byte>
    requires k <= |blocks|
  {
    if k == 0 then [] else Heads(blocks, n, k - 1) + blocks[k - 1][..Min(n, |blocks[k - 1]|)]
  }

  lemma {:induction false} HeadsNone(blocks: seq<seq<byte>>, k: nat)
    requires k <= |blocks|
    ensures Heads(blocks, 0, k) == []
  {
    if k > 0 { HeadsNone(blocks, k - 1); }
  }

  lemma {:induction false} HeadsAll(blocks: seq<seq<byte>>, n: nat, k: nat)
    requires k <= |blocks| && forall b :: 0 <= b < |blocks| ==> |blocks[b]| <= n
    ensures Heads(blocks, n, k) == Joined(blocks[..k])
  {
    if k > 0 {
      HeadsAll(blocks, n, k - 1);
      assert blocks[..k] == blocks[..k - 1] + [blocks[k - 1]];
      JoinedSnoc(blocks[..k - 1], blocks[k - 1]);
    }
  }

  /** A count that adds up over concatenation. */
  ghost predicate Additive(count: seq<byte> -> nat) {
    count([]) == 0 && forall a, b {:trigger count(a + b)} :: count(a + b) == count(a) + count(b)
  }

  lemma BlockOn(count: seq<byte> -> nat, block: seq<byte>, n: nat, next: nat)
    requires Additive(count) && next == n + 1
    ensures count(block[..Min(next, |block|)]) == count(block[..Min(n, |block|)])
            + count(if n < |block| then [block[n]] else [])
  {
    if n < |block| { assert block[..next] == block[..n] + [block[n]]; }
  }

  /** One more byte of each block is one more column. */
  lemma {:induction false} HeadsOn(blocks: seq<seq<byte>>, n: nat, next: nat, k: nat, count: seq<byte> -> nat)
    requires k <= |blocks| && next == n + 1 && Additive(count)
    ensures count(Heads(blocks, next, k)) == count(Heads(blocks, n, k)) + count(Column(blocks, n, k))
    decreases k
  {
    if k > 0 {
      HeadsOn(blocks, n, next, k - 1, count);
      BlockOn(count, blocks[k - 1], n, next);
    }
  }

  lemma {:induction false} ColumnsAreHeads(blocks: seq<seq<byte>>, n: nat, count: seq<byte> -> nat)
    requires Additive(count)
    ensures count(Columns(blocks, n)) == count(Heads(blocks, n, |blocks|))
  {
    if n == 0 {
      HeadsNone(blocks, |blocks|);
    } else {
      ColumnsAreHeads(blocks, n - 1, count);
      HeadsOn(blocks, n - 1, n, |blocks|, count);
    }
  }

  function CountOf(x: byte): seq<byte> -> nat {
    (s: seq<byte>) => multiset(s)[x]
  }

  lemma CountAdds(x: byte)
    ensures Additive(CountOf(x))
  {
  }

  /** Interleaving permutes the bytes of the blocks. */
  lemma {:induction false} InterleavingPermutes(blocks: seq<seq<byte>>, n: nat)
    requires forall b :: 0 <= b < |blocks| ==> |blocks[b]| <= n
    ensures multiset(Columns(blocks, n)) == multiset(Joined(blocks)) && |Columns(blocks, n)| == |Joined(blocks)|
  {
    var columns, joined := Columns(blocks, n), Joined(blocks);
    HeadsAll(blocks, n, |blocks|);
    assert blocks[..|blocks|] == blocks;
    forall x: byte
      ensures CountOf(x)(columns) == CountOf(x)(joined)
    {
      CountAdds(x);
      ColumnsAreHeads(blocks, n, CountOf(x));
    }
    SameCounts(columns, joined);
  }

  lemma SameCounts(a: seq<byte>, b: seq<byte>)
    requires forall x: byte :: CountOf(x)(a) == CountOf(x)(b)
    ensures multiset(a) == multiset(b) && |a| == |b|
  {
    forall x: byte
      ensures multiset(a)[x] == multiset(b)[x]
    {
      assert CountOf(x)(a) == CountOf(x)(b);
    }
    assert multiset(a) == multiset(b);
    assert |multiset(a)| == |multiset(b)|;
  }

  lemma OneMoreTimes(n: nat, length: nat)
    requires n > 0
    ensures n * length == (n - 1) * length + length
  {
  }

  lemma {:induction false} JoinedLength(blocks: seq<seq<byte>>, length: nat)
    requires forall b :: b in blocks ==> |b| == length
    ensures |Joined(blocks)| == |blocks| * length
  {
    if blocks != [] {
      JoinedLength(blocks[1..], length);
      OneMoreTimes(|blocks|, length);
    }
  }

  lemma {:induction false} CorrectionSize(f: Ring, data: seq<byte>, blocks: seq<Block>, dataBlocks: seq<seq<byte>>,
                                          corrections: seq<seq<byte>>, m: nat, degree: nat)
    requires Corrected(f, data, blocks, dataBlocks, corrections) && Sound(blocks)
    requires forall b :: 0 <= b < |blocks| ==> blocks[b].total - blocks[b].data == degree
    requires forall b :: 0 <= b < |corrections| ==> |corrections[b]| <= m
    ensures |Columns(corrections, m)| == |blocks| * degree
  {
    forall c | c in corrections
      ensures |c| == degree
    {
      var b :| 0 <= b < |corrections| && corrections[b] == c;
      assert BlockOk(f, blocks[b], dataBlocks[b], corrections[b]);
    }
    JoinedLength(corrections, degree);
    InterleavingPermutes(corrections, m);
  }

  lemma CodewordsAre(version: nat)
    requires Version(version)
    ensures var blocks := BlocksFor(version);
            blocks != [] && CAPACITIES[version - 1] + |blocks| * (blocks[0].total - blocks[0].data)
                == CODEWORDS[version - 1]
  {
  }

  /** The stream has as many bytes as its version has codewords. */
  lemma {:induction false} StreamSize(f: Ring, content: seq<byte>, version: nat, stream: seq<byte>,
                                          data: seq<byte>, dataBlocks: seq<seq<byte>>, corrections: seq<seq<byte>>,
                                          n: nat, m: nat)
    requires Version(version) && Stream(f, content, version, stream, data, dataBlocks, corrections, n, m)
    ensures |stream| == CODEWORDS[version - 1]
  {
    var blocks := BlocksFor(version);
    SameDegree(version);
    DataPart(f, blocks, data, dataBlocks, corrections, n);
    var degree := blocks[0].total - blocks[0].data;
    CorrectionSize(f, data, blocks, dataBlocks, corrections, m, degree);
    assert stream == Columns(dataBlocks, n) + Columns(corrections, m);
    CapacityIs(version);
    CodewordsAre(version);
  }

  /** All blocks of a version have the same number of correction bytes. */
  lemma {:induction false} SameDegree(version: nat)
    requires Version(version)
    ensures var blocks := BlocksFor(version);
            blocks != [] && Sound(blocks)
            && forall b :: 0 <= b < |blocks| ==> blocks[b].total - blocks[b].data == blocks[0].total - blocks[0].data
  {
    var first, blocks := MEDIUM_BLOCKS[version - 1], BlocksFor(version);
    forall b | 0 <= b < |blocks|
      ensures blocks[b] == if b < first.0 then Block(first.1, first.2)
                           else Block(MEDIUM_EXTRA_BLOCKS[version - 8].1, MEDIUM_EXTRA_BLOCKS[version - 8].2)
    {
    }
  }

  /** `blocksFor`. */
  method MakeBlocks(version: nat) returns (blocks: seq<Block>)
    requires Version(version)
    ensures blocks == BlocksFor(version)
  {
    var first := MEDIUM_BLOCKS[version - 1];
    blocks := Repeat(first.0, Block(first.1, first.2));
    if version >= 8 {
      var extra := MEDIUM_EXTRA_BLOCKS[version - 8];
      blocks := blocks + Repeat(extra.0, Block(extra.1, extra.2));
    } else {
      assert blocks + [] == blocks;
    }
  }

  /** `dataCapacity`. */
  method Capacity(version: nat) returns (result: nat)
    requires Version(version)
    ensures result == DataSum(BlocksFor(version)) == CAPACITIES[version - 1]
  {
    var blocks := MakeBlocks(version);
    result := 0;
    for i := 0 to |blocks|
      invariant result == DataSum(blocks[..i])
    {
      SumOn(blocks, i);
      result := result + blocks[i].data;
    }
    assert blocks[..|blocks|] == blocks;
    CapacityIs(version);
  }

  /** The second half of `makeData`: cut, correct, interleave. */
  method Protect(ghost f: Ring, data: seq<byte>, blocks: seq<Block>)
    returns (stream: seq<byte>, dataBlocks: seq<seq<byte>>, corrections: seq<seq<byte>>, n: nat, m: nat)
    requires Ops(f) && Laws(f) && blocks != [] && Sound(blocks) && |data| == DataSum(blocks)
    requires forall b :: 0 <= b < |blocks| ==> blocks[b].total - blocks[b].data == blocks[0].total - blocks[0].data
    ensures Corrected(f, data, blocks, dataBlocks, corrections)
    ensures forall b :: 0 <= b < |dataBlocks| ==> |dataBlocks[b]| <= n && |corrections[b]| <= m
    ensures stream == Columns(dataBlocks, n) + Columns(corrections, m)
  {
    dataBlocks, corrections := SplitBlocks(f, data, blocks);
    CorrectionsFit(f, data, blocks, dataBlocks, corrections);
    stream, n, m := InterleaveBoth(dataBlocks, corrections);
  }

  method InterleaveBoth(dataBlocks: seq<seq<byte>>, corrections: seq<seq<byte>>)
    returns (stream: seq<byte>, n: nat, m: nat)
    requires |dataBlocks| == |corrections| > 0
    requires forall b :: 0 <= b < |corrections| ==> |corrections[b]| == |corrections[0]|
    ensures forall b :: 0 <= b < |dataBlocks| ==> |dataBlocks[b]| <= n && |corrections[b]| <= m
    ensures stream == Columns(dataBlocks, n) + Columns(corrections, m)
  {
    n := Largest(dataBlocks);
    m := |corrections[0]|;
    stream := Interleave([], dataBlocks, n);
    stream := Interleave(stream, corrections, m);
  }

  /** `makeData`: the codewords of any content that fits. */
  method MakeData(ghost f: Ring, content: seq<byte>, version: nat)
    returns (stream: seq<byte>, data: seq<byte>, dataBlocks: seq<seq<byte>>, corrections: seq<seq<byte>>, n: nat,
        m: nat)
    requires Ops(f) && Laws(f) && Version(version) && Fits(|content|, version) && |content| < 256
    ensures Stream(f, content, version, stream, data, dataBlocks, corrections, n, m)
    ensures ReadStream(stream, version) == Some(content) && |stream| == CODEWORDS[version - 1]
  {
    var capacity := Capacity(version);
    data := DataCodewords(content, version, capacity);
    var blocks := MakeBlocks(version);
    SameDegree(version);
    stream, dataBlocks, corrections, n, m := Protect(f, data, blocks);
    StreamReadBack(f, content, version, stream, data, dataBlocks, corrections, n, m);
    StreamSize(f, content, version, stream, data, dataBlocks, corrections, n, m);
  }

  lemma CorrectionsFit(f: Ring, data: seq<byte>, blocks: seq<Block>, dataBlocks: seq<seq<byte>>,
          corrections: seq<seq<byte>>)
    requires Corrected(f, data, blocks, dataBlocks, corrections) && blocks != []
    requires forall b :: 0 <= b < |blocks| ==> blocks[b].total - blocks[b].data == blocks[0].total - blocks[0].data
    ensures forall b :: 0 <= b < |corrections| ==> |corrections[b]| == |corrections[0]|
  {
    assert BlockOk(f, blocks[0], dataBlocks[0], corrections[0]);
    forall b | 0 <= b < |corrections|
      ensures |corrections[b]| == |corrections[0]|
    {
      assert BlockOk(f, blocks[b], dataBlocks[b], corrections[b]);
    }
  }

  /** The version `encode` picks: the smallest that fits; one fits exactly for at most 213 bytes. */
  method PickVersion(length: nat) returns (r: Option<nat>)
    ensures r.Some? <==> length <= 213
    ensures r.Some? ==> Version(r.value) && Fits(length, r.value) && forall v :: 1 <= v < r.value ==> !Fits(length, v)
  {
    if length > 213 { return None; }
    var version := 1;
    while version <= 10
      invariant 1 <= version <= 11 && forall v :: 1 <= v < version ==> !Fits(length, v)
    {
      var capacity := Capacity(version);
      if 4 + CountBits(version) + length * 8 <= capacity * 8 { return Some(version); }
      version := version + 1;
    }
    CapacityIs(10);
    assert Fits(length, 10);
    return None;
  }
}
