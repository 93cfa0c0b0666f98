module NczParser {
  // The layout of a compressed NCA. Every 64-bit expression of the parser is written over a type that holds
  // 64-bit values only, so the proof that the methods are well formed is the proof that none wraps.

  import opened Bits
  import opened Common
  import opened Endian

  const HEADER_SIZE: nat := 0x4000
  const SECTION_SIZE: nat := 0x40
  const SECTION_MAGIC: seq<byte> := [0x4e, 0x43, 0x5a, 0x53, 0x45, 0x43, 0x54, 0x4e]
  const BLOCK_MAGIC: seq<byte> := [0x4e, 0x43, 0x5a, 0x42, 0x4c, 0x4f, 0x43, 0x4b]
  const NO_KEY: seq<byte> := [0, 0, 0, 0, 0, 0, 0, 0, 0, 0, 0, 0, 0, 0, 0, 0]
  const LIMIT: nat := 0x1_0000_0000_0000_0000

  /** Keys, counters and cipher blocks are sixteen bytes. */
  type Block16 = s: seq<byte> | |s| == 16 witness NO_KEY

  datatype Section = Section(offset: nat, size: nat, cryptoType: nat, key: Block16, counter: Block16)

  datatype Blocks = Blocks(blockSize: nat, compressedSizes: seq<nat>)

  /** `blocks` is absent for a solid stream; `dataOffset` is where the compressed bytes start. */
  datatype Layout = Layout(decompressedSize: nat, dataOffset: nat, sections: seq<Section>, blocks: Option<Blocks>)

  // ----- what an acceptable entry is

  function RawSection(raw: seq<byte>): Section
    requires |raw| == SECTION_SIZE
  {
    Section(Le(raw[0..8]), Le(raw[8..16]), Le(raw[16..24]), raw[32..48], raw[48..64])
  }

  function RawSections(raw: seq<byte>, count: nat): (r: seq<Section>)
    requires |raw| == count * SECTION_SIZE
    ensures |r| == count
  {
    if count == 0 then []
    else RawSections(raw[..(count - 1) * SECTION_SIZE], count - 1) + [RawSection(raw[(count - 1) * SECTION_SIZE..])]
  }

  predicate SizesOk(sections: seq<Section>) {
    forall i :: 0 <= i < |sections| ==> sections[i].size > 0 && sections[i].offset + sections[i].size < LIMIT
  }

  /** The part of a section behind the header. */
  function Clip(s: Section): Section
    requires s.offset + s.size > HEADER_SIZE
  {
    var start := Max(s.offset, HEADER_SIZE);
    s.(offset := start, size := s.offset + s.size - start)
  }

  /** Every section that reaches beyond the header, clipped to what lies behind it. */
  function Kept(sections: seq<Section>): seq<Section> {
    if sections == [] then []
    else
      var s := sections[|sections| - 1];
      Kept(sections[..|sections| - 1]) + (if s.offset + s.size <= HEADER_SIZE then [] else [Clip(s)])
  }

  function GapTo(start: nat): Section
    requires start > HEADER_SIZE
  {
    Section(HEADER_SIZE, start - HEADER_SIZE, 1, NO_KEY, NO_KEY)
  }

  /** A first section that starts late gets a plain one before it. */
  function WithGap(kept: seq<Section>): seq<Section> {
    if kept != [] && kept[0].offset > HEADER_SIZE
    then [GapTo(kept[0].offset)] + kept
    else kept
  }

  /** Non-empty sections, each starting where the one before it ends, from `from` up to `to`. */
  predicate Tiles(sections: seq<Section>, from: nat, to: nat) {
    if sections == [] then from == to
    else
      var last := sections[|sections| - 1];
      last.size > 0 && last.offset + last.size == to && Tiles(sections[..|sections| - 1], from, last.offset)
  }

  function EndOf(sections: seq<Section>): nat {
    if sections == [] then HEADER_SIZE else sections[|sections| - 1].offset + sections[|sections| - 1].size
  }

  /** How many bytes lie behind the header. */
  function Behind(end: nat): nat {
    if end >= HEADER_SIZE then end - HEADER_SIZE else 0
  }

  predicate SectionsOk(source: seq<Section>) {
    && SizesOk(source)
    && Kept(source) != []
    && Tiles(WithGap(Kept(source)), HEADER_SIZE, EndOf(Kept(source)))
  }

  function Words(raw: seq<byte>, count: nat): (r: seq<nat>)
    requires |raw| == 4 * count
    ensures |r| == count
  {
    if count == 0 then [] else Words(raw[..4 * (count - 1)], count - 1) + [Le(raw[4 * (count - 1)..])]
  }

  function Sum(sizes: seq<nat>): nat {
    if sizes == [] then 0 else Sum(sizes[..|sizes| - 1]) + sizes[|sizes| - 1]
  }

  /** The size block `i` decompresses to. */
  function BlockOutput(i: nat, blockSize: nat, total: nat): int {
    Min(blockSize, total - i * blockSize)
  }

  function CeilDiv(total: nat, blockSize: nat): nat
    requires blockSize > 0
  {
    total / blockSize + (if total % blockSize != 0 then 1 else 0)
  }

  predicate SizesFit(sizes: seq<nat>, blockSize: nat, total: nat) {
    forall i :: 0 <= i < |sizes| ==> Fits(sizes[i], i, blockSize, total)
  }

  const BLOCK_HEADER: nat := 24

  function TableCount(rest: seq<byte>): nat
    requires BLOCK_HEADER <= |rest|
  {
    Le(rest[12..16])
  }

  predicate TableHeaderOk(rest: seq<byte>, total: nat)
    requires BLOCK_HEADER <= |rest|
  {
    && rest[8] == 2 && rest[9] == 1 && 14 <= rest[11] <= 32
    && Le(rest[16..24]) == total
    && 0 < TableCount(rest) <= (|rest| - BLOCK_HEADER) / 4
    && TableCount(rest) == CeilDiv(total, Pow2(rest[11]))
  }

  function TableSizes(rest: seq<byte>): seq<nat>
    requires BLOCK_HEADER <= |rest| && TableCount(rest) <= (|rest| - BLOCK_HEADER) / 4
  {
    Words(rest[BLOCK_HEADER..BLOCK_HEADER + 4 * TableCount(rest)], TableCount(rest))
  }

  /** The block table at the start of `rest`, for `total` decompressed bytes. */
  predicate BlocksOk(rest: seq<byte>, total: nat) {
    && BLOCK_HEADER <= |rest|
    && TableHeaderOk(rest, total)
    && SizesFit(TableSizes(rest), Pow2(rest[11]), total)
    && Sum(TableSizes(rest)) == |rest| - BLOCK_HEADER - 4 * TableCount(rest)
  }

  function BlocksOf(rest: seq<byte>, total: nat): Blocks
    requires BlocksOk(rest, total)
  {
    Blocks(Pow2(rest[11]), TableSizes(rest))
  }

  predicate HasSections(entry: seq<byte>) {
    && HEADER_SIZE + 16 <= |entry|
    && entry[HEADER_SIZE..HEADER_SIZE + 8] == SECTION_MAGIC
    && 1 <= SectionCount(entry) <= 64 && SectionCount(entry) <= (|entry| - HEADER_SIZE - 16) / SECTION_SIZE
  }

  function SectionCount(entry: seq<byte>): nat
    requires HEADER_SIZE + 16 <= |entry|
  {
    Le(entry[HEADER_SIZE + 8..HEADER_SIZE + 16])
  }

  function Source(entry: seq<byte>): seq<Section>
    requires HasSections(entry)
  {
    RawSections(entry[HEADER_SIZE + 16..TableOffset(entry)], SectionCount(entry))
  }

  function TableOffset(entry: seq<byte>): (at: nat)
    requires HasSections(entry)
    ensures at <= |entry|
  {
    HEADER_SIZE + 16 + SectionCount(entry) * SECTION_SIZE
  }

  predicate Acceptable(entry: seq<byte>) {
    && HasSections(entry)
    && SectionsOk(Source(entry))
    && TableOffset(entry) + 8 <= |entry|
    && var rest := entry[TableOffset(entry)..];
       rest[..8] == BLOCK_MAGIC ==> BlocksOk(rest, Behind(EndOf(Kept(Source(entry)))))
  }

  function LayoutOf(entry: seq<byte>): Layout
    requires Acceptable(entry)
  {
    var kept := Kept(Source(entry));
    var end, table := EndOf(kept), TableOffset(entry);
    if entry[table..][..8] != BLOCK_MAGIC then Layout(end, table, WithGap(kept), None)
    else
      var blocks := BlocksOf(entry[table..], Behind(end));
      Layout(end, table + BLOCK_HEADER + 4 * |blocks.compressedSizes|, WithGap(kept), Some(blocks))
  }

  // ----- the parser

  method ReadSections(raw: seq<byte>, count: nat) returns (ok: bool, sections: seq<Section>)
    requires count <= 64 && |raw| == count * SECTION_SIZE
    ensures ok <==> SizesOk(RawSections(raw, count))
    ensures ok ==> sections == RawSections(raw, count)
  {
    sections := [];
    for i := 0 to count
      invariant sections == RawSections(raw[..i * SECTION_SIZE], i) && SizesOk(sections)
    {
      var at := i * SECTION_SIZE;
      var offset := ReadLe64(raw[at..at + 8]);
      var size := ReadLe64(raw[at + 8..at + 16]);
      var cryptoType := ReadLe64(raw[at + 16..at + 24]);
      var section := Section(offset as nat, size as nat, cryptoType as nat, raw[at + 32..at + 48],
          raw[at + 48..at + 64]);
      NextSection(raw, i, section);
      if size == 0 || offset > 0xFFFF_FFFF_FFFF_FFFF - size {
        RawPrefix(raw, count, i);
        return false, [];
      }
      sections := sections + [section];
    }
    assert raw[..count * SECTION_SIZE] == raw;
    return true, sections;
  }

  lemma {:induction false} NextSection(raw: seq<byte>, i: nat, section: Section)
    requires (i + 1) * SECTION_SIZE <= |raw|
    requires var at := i * SECTION_SIZE;
             section == Section(Le(raw[at..at + 8]), Le(raw[at + 8..at + 16]), Le(raw[at + 16..at + 24]),
                                raw[at + 32..at + 48], raw[at + 48..at + 64])
    ensures RawSections(raw[..(i + 1) * SECTION_SIZE], i + 1) == RawSections(raw[..i * SECTION_SIZE], i) + [section]
  {
    var at, more := i * SECTION_SIZE, raw[..(i + 1) * SECTION_SIZE];
    assert more[..at] == raw[..at];
    SliceInside(raw, at, 64, 0, 8);
    SliceInside(raw, at, 64, 8, 16);
    SliceInside(raw, at, 64, 16, 24);
    SliceInside(raw, at, 64, 32, 48);
    SliceInside(raw, at, 64, 48, 64);
  }

  lemma SliceInside(raw: seq<byte>, at: nat, size: nat, from: nat, to: nat)
    requires at + size <= |raw| && from <= to <= size
    ensures raw[..at + size][at..][from..to] == raw[at + from..at + to]
  {
    assert raw[..at + size][at..] == raw[at..at + size];
    SliceOfSlice(raw, at, at + size, from, to);
  }

  lemma {:induction false} RawPrefix(raw: seq<byte>, count: nat, i: nat)
    requires |raw| == count * SECTION_SIZE && i < count
    ensures RawSections(raw, count)[i] == RawSections(raw[..(i + 1) * SECTION_SIZE], i + 1)[i]
  {
    if i == count - 1 {
      assert raw[..(i + 1) * SECTION_SIZE] == raw;
    } else {
      RawPrefix(raw[..(count - 1) * SECTION_SIZE], count - 1, i);
      assert raw[..(count - 1) * SECTION_SIZE][..(i + 1) * SECTION_SIZE] == raw[..(i + 1) * SECTION_SIZE];
    }
  }

  // ----- the sections

  lemma {:induction false} KeptSnoc(source: seq<Section>, i: nat)
    requires i < |source|
    ensures Kept(source[..i + 1]) ==
            Kept(source[..i]) + (if source[i].offset + source[i].size <= HEADER_SIZE then [] else [Clip(source[i])])
  {
    assert source[..i + 1][..i] == source[..i];
  }

  lemma {:induction false} KeptPrefix(source: seq<Section>, i: nat)
    requires i <= |source|
    ensures Kept(source[..i]) <= Kept(source)
    decreases |source| - i
  {
    if i == |source| {
      assert source[..i] == source;
    } else {
      KeptSnoc(source, i);
      KeptPrefix(source, i + 1);
    }
  }

  lemma {:induction false} TilesPrefix(sections: seq<Section>, from: nat, to: nat, k: nat)
    requires Tiles(sections, from, to) && 1 <= k <= |sections|
    ensures Tiles(sections[..k], from, EndOf(sections[..k]))
    decreases |sections|
  {
    if k == |sections| {
      assert sections[..k] == sections;
    } else {
      var shorter := sections[..|sections| - 1];
      TilesPrefix(shorter, from, sections[|sections| - 1].offset, k);
      assert shorter[..k] == sections[..k];
    }
  }

  lemma {:induction false} GapPrefix(source: seq<Section>, i: nat)
    requires i <= |source| && Kept(source[..i]) != []
    ensures WithGap(Kept(source[..i])) <= WithGap(Kept(source))
  {
    KeptPrefix(source, i);
    GapMonotone(Kept(source[..i]), Kept(source));
  }

  lemma GapMonotone(a: seq<Section>, b: seq<Section>)
    requires a <= b && a != []
    ensures WithGap(a) <= WithGap(b)
  {
    assert a[0] == b[0];
  }

  /** A section that does not start where the one before it ends spoils every continuation. */
  lemma {:induction false} Misplaced(source: seq<Section>, i: nat)
    requires i < |source| && Kept(source[..i]) != []
    requires source[i].offset + source[i].size > HEADER_SIZE && Clip(source[i]).offset != EndOf(Kept(source[..i]))
    ensures !SectionsOk(source)
  {
    var kept, s := Kept(source[..i]), Clip(source[i]);
    assert Kept(source[..i + 1]) == kept + [s] by { KeptSnoc(source, i); }
    GapPrefix(source, i + 1);
    GapSnoc(kept, s);
    if SectionsOk(source) {
      TilesBreaks(WithGap(Kept(source)), HEADER_SIZE, EndOf(Kept(source)), WithGap(kept), s);
      assert false;
    }
  }

  lemma {:induction false} TilesBreaks(all: seq<Section>, from: nat, to: nat, before: seq<Section>, s: Section)
    requires before + [s] <= all && before != [] && s.offset != EndOf(before)
    ensures !Tiles(all, from, to)
  {
    assert all[..|before| + 1] == before + [s];
    assert (before + [s])[..|before|] == before == all[..|before|];
    if Tiles(all, from, to) {
      TilesPrefix(all, from, to, |before| + 1);
      assert false;
    }
  }

  lemma {:induction false} TilesSnoc(sections: seq<Section>, from: nat, to: nat, s: Section)
    requires Tiles(sections, from, to) && s.offset == to && s.size > 0
    ensures Tiles(sections + [s], from, s.offset + s.size)
  {
    assert (sections + [s])[..|sections|] == sections;
  }

  lemma {:induction false} GapSnoc(kept: seq<Section>, s: Section)
    ensures kept == [] && s.offset > HEADER_SIZE ==>
              WithGap(kept + [s]) == [GapTo(s.offset), s]
    ensures kept != [] || s.offset <= HEADER_SIZE ==> WithGap(kept + [s]) == WithGap(kept) + [s]
    ensures WithGap(kept) == [] <==> kept == []
    ensures EndOf(kept + [s]) == s.offset + s.size
  {
    if kept != [] { assert (kept + [s])[0] == kept[0]; }
  }

  /** One turn of the loop that fills the layout. */
  method Place(sections: seq<Section>, outputOffset: u64, source: Section)
    returns (ok: bool, placed: seq<Section>, next: u64)
    requires Tiles(sections, HEADER_SIZE, outputOffset as nat)
    requires source.size > 0 && HEADER_SIZE < source.offset + source.size < LIMIT
    ensures ok <==> sections == [] || Clip(source).offset == outputOffset as nat
    ensures ok ==> placed == if sections == [] && Clip(source).offset > HEADER_SIZE
            then [GapTo(Clip(source).offset), Clip(source)]
                             else sections + [Clip(source)]
    ensures ok ==> next as nat == source.offset + source.size && Tiles(placed, HEADER_SIZE, next as nat)
  {
    var end: u64 := source.offset as u64 + source.size as u64;
    var start: u64 := Max(source.offset, HEADER_SIZE) as u64;
    placed, next := sections, outputOffset;
    if start > next && placed == [] {
      var gap: u64 := start - next;
      placed := [Section(next as nat, gap as nat, 1, NO_KEY, NO_KEY)];
      next := start;
      assert Tiles(placed, HEADER_SIZE, start as nat) by { TilesSnoc([], HEADER_SIZE, HEADER_SIZE, placed[0]); }
    }
    if start != next { return false, placed, next; }
    var size: u64 := end - start;
    var section := source.(offset := start as nat, size := size as nat);
    TilesSnoc(placed, HEADER_SIZE, next as nat, section);
    return true, placed + [section], end;
  }

  method Normalise(source: seq<Section>) returns (ok: bool, sections: seq<Section>, end: u64)
    requires SizesOk(source)
    ensures ok <==> SectionsOk(source)
    ensures ok ==> sections == WithGap(Kept(source)) && end as nat == EndOf(Kept(source))
  {
    end := HEADER_SIZE as u64;
    sections := [];
    for i := 0 to |source|
      invariant sections == WithGap(Kept(source[..i]))
      invariant Tiles(sections, HEADER_SIZE, end as nat)
      invariant end as nat == EndOf(Kept(source[..i]))
    {
      KeptSnoc(source, i);
      if source[i].offset as u64 + source[i].size as u64 > HEADER_SIZE as u64 {
        GapSnoc(Kept(source[..i]), Clip(source[i]));
        ok, sections, end := Place(sections, end, source[i]);
        if !ok {
          Misplaced(source, i);
          return false, [], 0;
        }
      }
    }
    assert source[..|source|] == source;
    return sections != [], sections, end;
  }

  // ----- the block table

  lemma {:induction false} NextWord(raw: seq<byte>, i: nat)
    requires 4 * (i + 1) <= |raw|
    ensures Words(raw[..4 * (i + 1)], i + 1) == Words(raw[..4 * i], i) + [Le(raw[4 * i..4 * i + 4])]
  {
    var more := raw[..4 * (i + 1)];
    assert more[..4 * i] == raw[..4 * i] && more[4 * i..] == raw[4 * i..4 * i + 4];
  }

  lemma {:induction false} WordPrefix(raw: seq<byte>, count: nat, i: nat)
    requires |raw| == 4 * count && i < count
    ensures Words(raw, count)[i] == Le(raw[4 * i..4 * i + 4])
  {
    if i == count - 1 {
      assert raw[4 * (count - 1)..] == raw[4 * i..4 * i + 4];
    } else {
      var shorter := raw[..4 * (count - 1)];
      WordPrefix(shorter, count - 1, i);
      assert shorter[4 * i..4 * i + 4] == raw[4 * i..4 * i + 4];
    }
  }

  lemma {:induction false} Pow2Bound(k: nat)
    requires k <= 32
    ensures Pow2(k) <= 0x1_0000_0000
    decreases 32 - k
  {
    if k < 32 { Pow2Bound(k + 1); } else { Pow2Of32(); }
  }

  lemma Pow2Of32()
    ensures Pow2(32) == 0x1_0000_0000
  {
    assert Pow2(4) == 16;
    assert Pow2(8) == 256;
    assert Pow2(12) == 0x1000;
    assert Pow2(16) == 0x1_0000;
    assert Pow2(20) == 0x10_0000;
    assert Pow2(24) == 0x100_0000;
    assert Pow2(28) == 0x1000_0000;
  }

  lemma BlockStartsInside(i: nat, blockSize: nat, total: nat)
    requires blockSize > 0 && i < CeilDiv(total, blockSize)
    ensures i * blockSize < total
  {
    var q, r := total / blockSize, total % blockSize;
    assert total == q * blockSize + r;
    if i < q {
      assert i * blockSize + blockSize <= q * blockSize by { assert (i + 1) * blockSize <= q * blockSize; }
    }
  }

  method BlockSizeAt(i: u32, blockSize: u64, total: u64) returns (decompressed: u64)
    requires blockSize > 0 && (i as nat) < CeilDiv(total as nat, blockSize as nat)
    ensures decompressed as int == BlockOutput(i as nat, blockSize as nat, total as nat) && decompressed > 0
  {
    BlockStartsInside(i as nat, blockSize as nat, total as nat);
    var start: u64 := i as u64 * blockSize;
    decompressed := if blockSize < total - start then blockSize else total - start;
  }

  method ExpectedBlocks(total: u64, blockSize: u64) returns (expected: u64)
    requires blockSize > 1
    ensures expected as nat == CeilDiv(total as nat, blockSize as nat)
  {
    HalfAtMost(total as nat, blockSize as nat);
    expected := total / blockSize + (if total % blockSize != 0 then 1 else 0);
  }

  lemma HalfAtMost(total: nat, blockSize: nat)
    requires blockSize > 1
    ensures 2 * (total / blockSize) <= total
  {
    QuotientAtMostHalf(total, blockSize, total / blockSize, total % blockSize);
  }

  lemma QuotientAtMostHalf(total: nat, b: nat, q: nat, r: nat)
    requires b > 1 && total == q * b + r
    ensures 2 * q <= total
  {
    assert q * b >= q * 2;
  }

  predicate Fits(size: nat, i: nat, blockSize: nat, total: nat) {
    0 < size <= BlockOutput(i, blockSize, total)
  }

  /** One turn of the loop: the size of block `i`, and whether `sum` can take it. */
  method ReadSize(raw: seq<byte>, i: u32, blockSize: u64, total: u64, sum: u64) returns (ok: bool, compressed: u32)
    requires |raw| == 4 && blockSize > 0 && (i as nat) < CeilDiv(total as nat, blockSize as nat)
    requires sum as nat <= i as nat * 0xFFFF_FFFF
    ensures compressed as nat == Le(raw)
    ensures ok <==> Fits(Le(raw), i as nat, blockSize as nat, total as nat)
  {
    compressed := ReadLe32(raw);
    var decompressed := BlockSizeAt(i, blockSize, total);
    ok := compressed != 0 && compressed as u64 <= decompressed && sum <= 0xFFFF_FFFF_FFFF_FFFF - compressed as u64;
  }

  method ReadSizes(raw: seq<byte>, count: u32, blockSize: u64, total: u64) returns (ok: bool, sizes: seq<nat>, sum: u64)
    requires |raw| == 4 * count as nat && blockSize > 0 && count as nat == CeilDiv(total as nat, blockSize as nat)
    ensures ok <==> SizesFit(Words(raw, count as nat), blockSize as nat, total as nat)
    ensures ok ==> sizes == Words(raw, count as nat) && sum as nat == Sum(sizes)
  {
    sizes, sum := [], 0;
    var i: u32 := 0;
    while i < count
      invariant i <= count && sizes == Words(raw[..4 * i as nat], i as nat)
      invariant SizesFit(sizes, blockSize as nat, total as nat)
      invariant sum as nat == Sum(sizes) <= i as nat * 0xFFFF_FFFF
    {
      ghost var k := i as nat;
      NextWord(raw, k);
      WordPrefix(raw, count as nat, k);
      var fits, compressed := ReadSize(raw[4 * i as nat..4 * i as nat + 4], i, blockSize, total, sum);
      if !fits {
        assert !Fits(Words(raw, count as nat)[k], k, blockSize as nat, total as nat);
        return false, [], 0;
      }
      SumSnoc(sizes, compressed as nat);
      sizes := sizes + [compressed as nat];
      sum := sum + compressed as u64;
      i := i + 1;
    }
    assert raw[..4 * count as nat] == raw;
    return true, sizes, sum;
  }

  lemma {:induction false} SumSnoc(sizes: seq<nat>, size: nat)
    ensures Sum(sizes + [size]) == Sum(sizes) + size
  {
    assert (sizes + [size])[..|sizes|] == sizes;
  }

  /** The fixed part of the table. */
  method ReadTableHeader(rest: seq<byte>, total: u64) returns (ok: bool, count: u32, blockSize: u64)
    requires BLOCK_HEADER <= |rest| < LIMIT
    ensures ok <==> TableHeaderOk(rest, total as nat)
    ensures ok ==> count as nat == TableCount(rest) && blockSize as nat == Pow2(rest[11])
  {
    var available: u64 := |rest| as u64;
    var version, kind, exponent := rest[8], rest[9], rest[11];
    count := ReadLe32(rest[12..16]);
    var decompressedSize := ReadLe64(rest[16..24]);
    blockSize := 0;
    if version != 2 || kind != 1 || exponent < 14 || exponent > 32 || count == 0
       || decompressedSize != total || count as u64 > (available - 24) / 4 {
      return false, count, blockSize;
    }
    Pow2Bound(exponent);
    blockSize := Pow2(exponent) as u64;
    var expected := ExpectedBlocks(decompressedSize, blockSize);
    return count as u64 == expected, count, blockSize;
  }

  method ParseBlocks(rest: seq<byte>, total: u64) returns (ok: bool, blocks: Blocks)
    requires |rest| < LIMIT
    ensures ok <==> BlocksOk(rest, total as nat)
    ensures ok ==> blocks == BlocksOf(rest, total as nat)
  {
    blocks := Blocks(1, []);
    if |rest| < BLOCK_HEADER { return false, blocks; }
    var headed, count, blockSize := ReadTableHeader(rest, total);
    if !headed { return false, blocks; }
    var raw := rest[BLOCK_HEADER..BLOCK_HEADER + 4 * count as nat];
    var fit, sizes, sum := ReadSizes(raw, count, blockSize, total);
    if !fit { return false, blocks; }
    var available, dataOffset: u64 := |rest| as u64, 24 + 4 * count as u64;
    if dataOffset > available || sum != available - dataOffset { return false, blocks; }
    return true, Blocks(blockSize as nat, sizes);
  }

  // ----- the whole entry

  method ReadSectionCount(entry: seq<byte>) returns (ok: bool, count: u64)
    requires |entry| < LIMIT
    ensures ok <==> HasSections(entry)
    ensures ok ==> count as nat == SectionCount(entry)
  {
    var size: u64 := |entry| as u64;
    if size < HEADER_SIZE as u64 + 16 { return false, 0; }
    if entry[HEADER_SIZE..HEADER_SIZE + 8] != SECTION_MAGIC { return false, 0; }
    count := ReadLe64(entry[HEADER_SIZE + 8..HEADER_SIZE + 16]);
    ok := count != 0 && count <= 64 && count <= (size - HEADER_SIZE as u64 - 16) / SECTION_SIZE as u64;
  }

  /** The section table, normalised; `table` is where it ends. */
  method ParseSections(entry: seq<byte>) returns (ok: bool, sections: seq<Section>, end: u64, table: u64)
    requires |entry| < LIMIT
    ensures ok <==> HasSections(entry) && SectionsOk(Source(entry))
    ensures ok ==> table as nat == TableOffset(entry)
    ensures ok ==> sections == WithGap(Kept(Source(entry))) && end as nat == EndOf(Kept(Source(entry)))
  {
    var sectionCount;
    sections, end, table := [], 0, 0;
    ok, sectionCount := ReadSectionCount(entry);
    if !ok { return; }
    table := HEADER_SIZE as u64 + 16 + sectionCount * SECTION_SIZE as u64;
    var source;
    ok, source := ReadSections(entry[HEADER_SIZE + 16..table as nat], sectionCount as nat);
    if !ok { return; }
    ok, sections, end := Normalise(source);
  }

  /** Accepts exactly the acceptable entries, and returns their layout. */
  method ParseNcz(entry: seq<byte>) returns (r: Result<Layout>)
    requires |entry| < LIMIT
    ensures r.Ok? <==> Acceptable(entry)
    ensures r.Ok? ==> r.value == LayoutOf(entry)
  {
    var tiled, sections, end, table := ParseSections(entry);
    if !tiled { return Err; }
    SectionsReachBehind(Source(entry));
    var size: u64 := |entry| as u64;
    if table >= size || size - table < 8 { return Err; }
    var rest := entry[table as nat..];
    if rest[..8] != BLOCK_MAGIC {
      return Ok(Layout(end as nat, table as nat, sections, None));
    }
    var total: u64 := end - HEADER_SIZE as u64;
    var blocked, blocks := ParseBlocks(rest, total);
    if !blocked { return Err; }
    var dataOffset: u64 := table + 24 + 4 * |blocks.compressedSizes| as u64;
    return Ok(Layout(end as nat, dataOffset as nat, sections, Some(blocks)));
  }

  lemma SectionsReachBehind(source: seq<Section>)
    requires SectionsOk(source)
    ensures EndOf(Kept(source)) > HEADER_SIZE
  {
    var all := WithGap(Kept(source));
    TilesBelow(all, HEADER_SIZE, EndOf(Kept(source)));
    assert all != [] && all[|all| - 1].offset >= HEADER_SIZE;
  }

  // ----- what acceptance means

  /**
    The sections of an accepted entry tile everything behind the header, and the compressed sizes of
    its blocks tile the rest of the entry.
   */
  lemma AcceptedLayout(entry: seq<byte>)
    requires Acceptable(entry)
    ensures var l := LayoutOf(entry);
            && l.sections != [] && Tiles(l.sections, HEADER_SIZE, l.decompressedSize)
                && l.decompressedSize > HEADER_SIZE
            && l.dataOffset <= |entry|
            && (l.blocks.Some? ==>
                  var b := l.blocks.value;
                  && |b.compressedSizes| == CeilDiv(l.decompressedSize - HEADER_SIZE, b.blockSize)
                  && SizesFit(b.compressedSizes, b.blockSize, l.decompressedSize - HEADER_SIZE)
                  && l.dataOffset + Sum(b.compressedSizes) == |entry|)
  {
    SectionsReachBehind(Source(entry));
  }

  /** In a tiling every position has exactly one section. */
  lemma {:induction false} OneSection(sections: seq<Section>, from: nat, to: nat, p: nat) returns (k: nat)
    requires Tiles(sections, from, to) && from <= p < to
    ensures k < |sections| && Inside(sections[k], p)
    ensures forall j :: 0 <= j < |sections| && Inside(sections[j], p) ==> j == k
    decreases |sections|
  {
    var last := sections[|sections| - 1];
    var before := sections[..|sections| - 1];
    TilesBelow(before, from, last.offset);
    if p >= last.offset {
      k := |sections| - 1;
      assert forall j :: 0 <= j < |before| ==> before[j] == sections[j];
    } else {
      k := OneSection(before, from, last.offset, p);
      assert forall j :: 0 <= j < |before| ==> before[j] == sections[j];
    }
  }

  predicate Inside(s: Section, p: nat) {
    s.offset <= p < s.offset + s.size
  }

  lemma {:induction false} TilesBelow(sections: seq<Section>, from: nat, to: nat)
    requires Tiles(sections, from, to)
    ensures from <= to
    ensures forall j :: 0 <= j < |sections| ==>
            from <= sections[j].offset && sections[j].offset + sections[j].size <= to
  {
    if sections != [] {
      var before := sections[..|sections| - 1];
      TilesBelow(before, from, sections[|sections| - 1].offset);
      assert forall j :: 0 <= j < |before| ==> before[j] == sections[j];
    }
  }
}
