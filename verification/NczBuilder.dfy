/**
  The other direction: compressed entries as a packer lays them out, solid or in blocks of which any may
  be stored raw. Streaming one gives back the NCA it was made from.
 */
module NczBuilders {
  import opened Bits
  import opened Common
  import opened Endian
  import opened NczParser
  import opened NczOutputs
  import opened NczStreams

  const RESERVED: seq<byte> := [0, 0, 0, 0, 0, 0, 0, 0]

  function Row(s: Section): (r: seq<byte>)
    ensures |r| == SECTION_SIZE
  {
    ToLe(s.offset, 8) + ToLe(s.size, 8) + ToLe(s.cryptoType, 8) + RESERVED + s.key + s.counter
  }

  function Table(sections: seq<Section>): (r: seq<byte>)
    ensures |r| == |sections| * SECTION_SIZE
  {
    if sections == [] then [] else Table(sections[..|sections| - 1]) + Row(sections[|sections| - 1])
  }

  /** Everything up to the compressed bytes, and then `rest`. */
  function Ncz(header: seq<byte>, sections: seq<Section>, rest: seq<byte>): seq<byte> {
    header + SECTION_MAGIC + ToLe(|sections|, 8) + Table(sections) + rest
  }

  /** Fields of 64 bits. */
  predicate Writable(sections: seq<Section>) {
    forall i :: 0 <= i < |sections| ==>
        sections[i].offset < LIMIT && sections[i].size < LIMIT && sections[i].cryptoType < LIMIT
  }

  lemma {:induction false} RowReadBack(s: Section)
    requires s.offset < LIMIT && s.size < LIMIT && s.cryptoType < LIMIT
    ensures RawSection(Row(s)) == s
  {
    Pow256Values();
    var a, b, c := ToLe(s.offset, 8), ToLe(s.size, 8), ToLe(s.cryptoType, 8);
    LeToLe(s.offset, 8);
    LeToLe(s.size, 8);
    LeToLe(s.cryptoType, 8);
    SixParts(a, b, c, RESERVED, s.key, s.counter);
  }

  lemma SixParts(a: seq<byte>, b: seq<byte>, c: seq<byte>, d: seq<byte>, k: seq<byte>, n: seq<byte>)
    requires |a| == |b| == |c| == |d| == 8 && |k| == |n| == 16
    ensures var r := a + b + c + d + k + n;
            r[0..8] == a && r[8..16] == b && r[16..24] == c && r[32..48] == k && r[48..64] == n
  {
  }

  /** Written and read back, a section table is the same. */
  lemma {:induction false} TableReadBack(sections: seq<Section>)
    requires Writable(sections)
    ensures RawSections(Table(sections), |sections|) == sections
  {
    if sections != [] {
      var n := |sections| - 1;
      TableReadBack(sections[..n]);
      RowReadBack(sections[n]);
      RawSectionsSnoc(Table(sections[..n]), Row(sections[n]), n);
      TakeOneMore(sections, n);
      assert sections[..n + 1] == sections;
    }
  }

  lemma {:induction false} RawSectionsSnoc(table: seq<byte>, row: seq<byte>, n: nat)
    requires |table| == n * SECTION_SIZE && |row| == SECTION_SIZE
    ensures RawSections(table + row, n + 1) == RawSections(table, n) + [RawSection(row)]
  {
    assert (table + row)[..n * SECTION_SIZE] == table && (table + row)[n * SECTION_SIZE..] == row;
  }

  lemma FiveParts(header: seq<byte>, magic: seq<byte>, count: seq<byte>, table: seq<byte>, rest: seq<byte>)
    requires |magic| == |count| == 8
    ensures var e, h := header + magic + count + table + rest, |header|;
            && e[..h] == header && e[h..h + 8] == magic && e[h + 8..h + 16] == count
            && e[h + 16..h + 16 + |table|] == table && e[h + 16 + |table|..] == rest
            && |e| == h + 16 + |table| + |rest|
  {
  }

  /** What the parser finds in front of the compressed bytes. */
  lemma {:induction false} NczParts(header: seq<byte>, sections: seq<Section>, rest: seq<byte>)
    requires |header| == HEADER_SIZE && 1 <= |sections| <= 64 && Writable(sections)
    ensures var e := Ncz(header, sections, rest);
            && HasSections(e) && Source(e) == sections
            && e[..HEADER_SIZE] == header && e[TableOffset(e)..] == rest
  {
    var e, n := Ncz(header, sections, rest), |sections|;
    FiveParts(header, SECTION_MAGIC, ToLe(n, 8), Table(sections), rest);
    Pow256Values();
    LeToLe(n, 8);
    TableReadBack(sections);
  }

  /** A codec that decodes what it encodes. */
  ghost predicate Encodes(c: Codec, enc: seq<byte> -> seq<byte>) {
    forall x {:trigger enc(x)} :: c.ends(enc(x)) && c.plain(enc(x)) == x
  }

  /** Sections that describe the NCA: acceptable, and ending where it ends. */
  predicate Describes(sections: seq<Section>, nca: seq<byte>) {
    && 1 <= |sections| <= 64 && Writable(sections) && SectionsOk(sections) && EndOf(Kept(sections)) == |nca|
    && |nca| > HEADER_SIZE
  }

  /** What a packer compresses: the NCA behind its header, decrypted. */
  function Decrypted(aes: Cipher, sections: seq<Section>, nca: seq<byte>): (r: seq<byte>)
    requires Describes(sections, nca)
    ensures |r| == |nca| - HEADER_SIZE
  {
    Mapped(Recrypter(aes, WithGap(Kept(sections))), HEADER_SIZE, nca[HEADER_SIZE..])
  }

  lemma {:induction false} MappedInverse(f: (nat, byte) -> byte, from: nat, data: seq<byte>)
    requires forall i {:trigger data[i]} :: 0 <= i < |data| ==> f(from + i, f(from + i, data[i])) == data[i]
    ensures Mapped(f, from, Mapped(f, from, data)) == data
  {
    var once := Mapped(f, from, data);
    var twice := Mapped(f, from, once);
    forall i | 0 <= i < |data|
      ensures twice[i] == data[i]
    {
      assert once[i] == f(from + i, data[i]);
    }
  }

  lemma {:induction false} MappedTwice(aes: Cipher, sections: seq<Section>, from: nat, data: seq<byte>)
    requires sections != []
    ensures Mapped(Recrypter(aes, sections), from, Mapped(Recrypter(aes, sections), from, data)) == data
  {
    forall i | 0 <= i < |data|
      ensures Recrypter(aes, sections)(from + i, Recrypter(aes, sections)(from + i, data[i])) == data[i]
    {
      RecryptTwice(aes, SectionAt(sections, from + i), from + i, data[i]);
    }
    MappedInverse(Recrypter(aes, sections), from, data);
  }

  /** If the parser finds the packed bytes and they decode to the decrypted NCA, the NCA comes back. */
  lemma ComesBack(c: Codec, aes: Cipher, sections: seq<Section>, tail: seq<byte>, entry: seq<byte>)
    requires Acceptable(entry) && sections != [] && LayoutOf(entry).sections == sections
    requires PlainOf(c, LayoutOf(entry), BodyOf(entry)) == Mapped(Recrypter(aes, sections), HEADER_SIZE, tail)
    ensures HEADER_SIZE <= |entry| && Rebuilt(c, aes, entry) == entry[..HEADER_SIZE] + tail
  {
    MappedTwice(aes, sections, HEADER_SIZE, tail);
  }

  /** A solid stream: one frame that cannot be taken for a block table. */
  lemma SolidRoundTrip(c: Codec, enc: seq<byte> -> seq<byte>, aes: Cipher, sections: seq<Section>, nca: seq<byte>)
    requires Describes(sections, nca) && Encodes(c, enc)
    requires var frame := enc(Decrypted(aes, sections, nca)); |frame| >= 8 && frame[..8] != BLOCK_MAGIC
    ensures var e := Ncz(nca[..HEADER_SIZE], sections, enc(Decrypted(aes, sections, nca)));
            && Acceptable(e) && Decodes(c, LayoutOf(e), BodyOf(e))
            && Rebuilt(c, aes, e) == nca
  {
    var frame := enc(Decrypted(aes, sections, nca));
    var e := Ncz(nca[..HEADER_SIZE], sections, frame);
    NczParts(nca[..HEADER_SIZE], sections, frame);
    assert Acceptable(e) && BodyOf(e) == frame;
    ComesBack(c, aes, WithGap(Kept(sections)), nca[HEADER_SIZE..], e);
    HeadAndTail(nca, HEADER_SIZE);
  }

  // ----- blocks

  /** `blocks` is `plain` cut into blocks, each stored raw or as a frame shorter than itself. */
  ghost predicate Packed(enc: seq<byte> -> seq<byte>, blocks: seq<seq<byte>>, plain: seq<byte>, blockSize: nat)
    requires blockSize > 0
    decreases |plain|
  {
    if plain == [] then blocks == []
    else
      var n := Min(blockSize, |plain|);
      && blocks != []
      && (blocks[0] == plain[..n] || (blocks[0] == enc(plain[..n]) && 0 < |blocks[0]| < n))
      && Packed(enc, blocks[1..], plain[n..], blockSize)
  }

  function Sizes(blocks: seq<seq<byte>>): (r: seq<nat>)
    ensures |r| == |blocks|
    ensures forall i :: 0 <= i < |r| ==> r[i] == |blocks[i]|
  {
    if blocks == [] then [] else [|blocks[0]|] + Sizes(blocks[1..])
  }

  lemma {:induction false} JoinedSize(blocks: seq<seq<byte>>)
    ensures Sum(Sizes(blocks)) == |Joined(blocks)|
  {
    if blocks != [] {
      JoinedSize(blocks[1..]);
      SumFront(Sizes(blocks));
      assert Sizes(blocks)[1..] == Sizes(blocks[1..]);
    }
  }

  /** Packed blocks decode to what was packed. */
  lemma {:induction false} PackedDecodes(c: Codec, enc: seq<byte> -> seq<byte>, blocks: seq<seq<byte>>,
          plain: seq<byte>, blockSize: nat)
    requires blockSize > 0 && Encodes(c, enc) && Packed(enc, blocks, plain, blockSize)
    ensures Sum(Sizes(blocks)) == |Joined(blocks)|
    ensures BlocksDecode(c, Joined(blocks), Sizes(blocks), blockSize, |plain|)
    ensures BlocksPlain(c, Joined(blocks), Sizes(blocks), blockSize, |plain|) == plain
    decreases |plain|
  {
    JoinedSize(blocks);
    if plain != [] {
      var n := Min(blockSize, |plain|);
      PackedDecodes(c, enc, blocks[1..], plain[n..], blockSize);
      var body, sizes := Joined(blocks), Sizes(blocks);
      SumFront(sizes);
      assert sizes[1..] == Sizes(blocks[1..]) && body[..sizes[0]] == blocks[0]
          && body[sizes[0]..] == Joined(blocks[1..]);
      assert BlockDecodes(c, blocks[0], n) && BlockPlain(c, blocks[0], n) == plain[..n];
      HeadAndTail(plain, n);
    }
  }

  lemma BlockOutputOn(i: nat, blockSize: nat, total: nat)
    requires blockSize <= total
    ensures BlockOutput(i, blockSize, total - blockSize) == BlockOutput(i + 1, blockSize, total)
  {
    assert (i + 1) * blockSize == i * blockSize + blockSize;
  }

  lemma CeilDivOn(total: nat, blockSize: nat)
    requires 0 < blockSize < total
    ensures CeilDiv(total, blockSize) == CeilDiv(total - blockSize, blockSize) + 1
  {
    var q, r := (total - blockSize) / blockSize, (total - blockSize) % blockSize;
    assert total == (q + 1) * blockSize + r by { assert (q + 1) * blockSize == q * blockSize + blockSize; }
    QuotientIs(total, blockSize, q + 1, r);
    assert total % blockSize == r;
  }

  lemma CeilDivSmall(total: nat, blockSize: nat)
    requires 0 < total <= blockSize
    ensures CeilDiv(total, blockSize) == 1
  {
    QuotientIs(total, blockSize, if total == blockSize then 1 else 0, if total == blockSize then 0 else total);
  }

  /** There are as many blocks as the table must have, none empty and none larger than its output. */
  lemma {:induction false} PackedFits(enc: seq<byte> -> seq<byte>, blocks: seq<seq<byte>>, plain: seq<byte>,
          blockSize: nat)
    requires blockSize > 0 && Packed(enc, blocks, plain, blockSize)
    ensures SizesFit(Sizes(blocks), blockSize, |plain|)
    ensures |blocks| == CeilDiv(|plain|, blockSize)
    decreases |plain|
  {
    if plain != [] {
      var n := Min(blockSize, |plain|);
      PackedFits(enc, blocks[1..], plain[n..], blockSize);
      var sizes := Sizes(blocks);
      if n == |plain| {
        assert blocks[1..] == [] && |blocks| == 1;
        CeilDivSmall(|plain|, blockSize);
      } else {
        CeilDivOn(|plain|, blockSize);
        forall i | 0 <= i < |sizes|
          ensures Fits(sizes[i], i, blockSize, |plain|)
        {
          if i > 0 {
            assert sizes[i] == Sizes(blocks[1..])[i - 1];
            assert Fits(Sizes(blocks[1..])[i - 1], i - 1, blockSize, |plain| - blockSize);
            BlockOutputOn(i - 1, blockSize, |plain|);
          }
        }
      }
    }
  }

  function WordTable(sizes: seq<nat>): (r: seq<byte>)
    ensures |r| == 4 * |sizes|
  {
    if sizes == [] then [] else WordTable(sizes[..|sizes| - 1]) + ToLe(sizes[|sizes| - 1], 4)
  }

  predicate WordSized(sizes: seq<nat>) {
    forall i :: 0 <= i < |sizes| ==> sizes[i] < 0x1_0000_0000
  }

  lemma {:induction false} WordsReadBack(sizes: seq<nat>)
    requires WordSized(sizes)
    ensures Words(WordTable(sizes), |sizes|) == sizes
  {
    if sizes != [] {
      var before, last := sizes[..|sizes| - 1], sizes[|sizes| - 1];
      WordsReadBack(before);
      Pow256Values();
      LeToLe(last, 4);
      var raw, at := WordTable(sizes), 4 * (|sizes| - 1);
      assert raw[..at] == WordTable(before) && raw[at..] == ToLe(last, 4);
    }
  }

  /** The block table and the blocks. */
  function BlockRest(blocks: seq<seq<byte>>, exponent: byte, total: nat): seq<byte> {
    BLOCK_MAGIC + [2, 1, 0, exponent] + ToLe(|blocks|, 4) + ToLe(total, 8) + WordTable(Sizes(blocks)) + Joined(blocks)
  }

  lemma SixRestParts(magic: seq<byte>, kind: seq<byte>, count: seq<byte>, total: seq<byte>, table: seq<byte>,
          body: seq<byte>)
    requires |magic| == |total| == 8 && |kind| == |count| == 4
    ensures var r, n := magic + kind + count + total + table + body, |table|;
            && |r| == 24 + n + |body| && r[..8] == magic
            && r[8] == kind[0] && r[9] == kind[1] && r[11] == kind[3]
            && r[12..16] == count && r[16..24] == total && r[24..24 + n] == table && r[24 + n..] == body
  {
  }

  /** What a block table must be able to say. */
  ghost predicate Representable(blocks: seq<seq<byte>>, exponent: byte, total: nat) {
    14 <= exponent <= 32 && |blocks| < 0x1_0000_0000 && total < LIMIT && WordSized(Sizes(blocks))
  }

  /** The fields of a block table, read back. */
  lemma {:induction false} RestFields(blocks: seq<seq<byte>>, exponent: byte, total: nat)
    requires Representable(blocks, exponent, total)
    ensures var rest := BlockRest(blocks, exponent, total);
            && |rest| == BLOCK_HEADER + 4 * |blocks| + |Joined(blocks)| && rest[..8] == BLOCK_MAGIC
            && rest[8] == 2 && rest[9] == 1 && rest[11] == exponent
            && TableCount(rest) == |blocks| && Le(rest[16..24]) == total
            && Words(rest[BLOCK_HEADER..BLOCK_HEADER + 4 * |blocks|], |blocks|) == Sizes(blocks)
            && rest[BLOCK_HEADER + 4 * |blocks|..] == Joined(blocks)
  {
    SixRestParts(BLOCK_MAGIC, [2, 1, 0, exponent], ToLe(|blocks|, 4), ToLe(total, 8), WordTable(Sizes(blocks)),
        Joined(blocks));
    Pow256Values();
    LeToLe(|blocks|, 4);
    LeToLe(total, 8);
    WordsReadBack(Sizes(blocks));
  }

  lemma {:induction false} BlockRestOk(enc: seq<byte> -> seq<byte>, blocks: seq<seq<byte>>, exponent: byte,
          plain: seq<byte>, rest: seq<byte>)
    requires Packed(enc, blocks, plain, Pow2(exponent)) && plain != [] && Representable(blocks, exponent, |plain|)
    requires rest == BlockRest(blocks, exponent, |plain|)
    ensures BlocksOk(rest, |plain|) && rest[..8] == BLOCK_MAGIC
    ensures BlocksOf(rest, |plain|) == Blocks(Pow2(exponent), Sizes(blocks))
    ensures rest[BLOCK_HEADER + 4 * |blocks|..] == Joined(blocks)
  {
    RestFields(blocks, exponent, |plain|);
    PackedFits(enc, blocks, plain, Pow2(exponent));
    JoinedSize(blocks);
    TableAccepted(rest, exponent, Sizes(blocks), |plain|, Pow2(exponent));
  }

  lemma {:induction false} TableAccepted(rest: seq<byte>, exponent: byte, sizes: seq<nat>, total: nat, blockSize: nat)
    requires |rest| == BLOCK_HEADER + 4 * |sizes| + Sum(sizes)
    requires rest[8] == 2 && rest[9] == 1 && rest[11] == exponent && 14 <= exponent <= 32 && blockSize == Pow2(exponent)
    requires TableCount(rest) == |sizes| && Le(rest[16..24]) == total && total > 0
    requires Words(rest[BLOCK_HEADER..BLOCK_HEADER + 4 * |sizes|], |sizes|) == sizes
    requires |sizes| == CeilDiv(total, blockSize) && sizes != [] && SizesFit(sizes, blockSize, total)
    ensures BlocksOk(rest, total) && BlocksOf(rest, total) == Blocks(blockSize, sizes)
  {
    assert |sizes| <= (|rest| - BLOCK_HEADER) / 4;
    assert TableHeaderOk(rest, total);
    assert TableSizes(rest) == sizes;
  }

  /** A stream of blocks, in whatever mixture of raw and compressed ones. */
  lemma BlocksRoundTrip(c: Codec, enc: seq<byte> -> seq<byte>, aes: Cipher, sections: seq<Section>, nca: seq<byte>,
                        blocks: seq<seq<byte>>, exponent: byte)
    requires Describes(sections, nca) && Encodes(c, enc) && |nca| < LIMIT
    requires Packed(enc, blocks, Decrypted(aes, sections, nca), Pow2(exponent))
    requires Representable(blocks, exponent, |nca| - HEADER_SIZE)
    ensures var e := Ncz(nca[..HEADER_SIZE], sections, BlockRest(blocks, exponent, |nca| - HEADER_SIZE));
            && Acceptable(e) && Decodes(c, LayoutOf(e), BodyOf(e))
            && Rebuilt(c, aes, e) == nca
  {
    var plain := Decrypted(aes, sections, nca);
    var rest := BlockRest(blocks, exponent, |plain|);
    var e := Ncz(nca[..HEADER_SIZE], sections, rest);
    NczParts(nca[..HEADER_SIZE], sections, rest);
    BlockRestOk(enc, blocks, exponent, plain, rest);
    PackedDecodes(c, enc, blocks, plain, Pow2(exponent));
    BlockLayout(e, sections, rest, |plain|, blocks, exponent);
    ComesBack(c, aes, WithGap(Kept(sections)), nca[HEADER_SIZE..], e);
    HeadAndTail(nca, HEADER_SIZE);
  }

  lemma BlockLayout(e: seq<byte>, sections: seq<Section>, rest: seq<byte>, total: nat, blocks: seq<seq<byte>>,
          exponent: byte)
    requires HasSections(e) && Source(e) == sections && e[TableOffset(e)..] == rest
    requires SectionsOk(sections) && EndOf(Kept(sections)) == total + HEADER_SIZE
    requires BlocksOk(rest, total) && rest[..8] == BLOCK_MAGIC
            && BlocksOf(rest, total) == Blocks(Pow2(exponent), Sizes(blocks))
    requires rest[BLOCK_HEADER + 4 * |blocks|..] == Joined(blocks)
    ensures Acceptable(e) && BodyOf(e) == Joined(blocks)
    ensures var l := LayoutOf(e);
            && l.decompressedSize == total + HEADER_SIZE && l.sections == WithGap(Kept(sections))
            && l.blocks == Some(Blocks(Pow2(exponent), Sizes(blocks)))
  {
    assert e[TableOffset(e)..][BLOCK_HEADER + 4 * |blocks|..] == e[TableOffset(e) + (BLOCK_HEADER + 4 * |blocks|)..];
  }

  /** Streaming a solid entry gives the NCA back. */
  method StreamSolid(enc: seq<byte> -> seq<byte>, aes: Cipher, sections: seq<Section>, nca: seq<byte>, z: Zstd,
          sink: Sink)
    returns (ok: bool)
    requires Describes(sections, nca) && Encodes(z.codec, enc) && Streaming(z.codec) && sink.bytes == []
    requires var frame := enc(Decrypted(aes, sections, nca)); |frame| >= 8 && frame[..8] != BLOCK_MAGIC
    requires |Ncz(nca[..HEADER_SIZE], sections, enc(Decrypted(aes, sections, nca)))| < LIMIT
    modifies z, sink
    ensures ok ==> sink.bytes == nca
    ensures !ok && z.usable ==> sink.patience == 0
  {
    SolidRoundTrip(z.codec, enc, aes, sections, nca);
    ok := StreamNcz(Ncz(nca[..HEADER_SIZE], sections, enc(Decrypted(aes, sections, nca))), aes, z, sink);
  }

  /** Streaming an entry in blocks gives the NCA back. */
  method StreamPacked(enc: seq<byte> -> seq<byte>, aes: Cipher, sections: seq<Section>, nca: seq<byte>,
                      blocks: seq<seq<byte>>, exponent: byte, z: Zstd, sink: Sink)
    returns (ok: bool)
    requires Describes(sections, nca) && Encodes(z.codec, enc) && Streaming(z.codec) && sink.bytes == []
            && |nca| < LIMIT
    requires Packed(enc, blocks, Decrypted(aes, sections, nca), Pow2(exponent))
    requires Representable(blocks, exponent, |nca| - HEADER_SIZE)
    requires |Ncz(nca[..HEADER_SIZE], sections, BlockRest(blocks, exponent, |nca| - HEADER_SIZE))| < LIMIT
    modifies z, sink
    ensures ok ==> sink.bytes == nca
    ensures !ok && z.usable ==> sink.patience == 0
  {
    BlocksRoundTrip(z.codec, enc, aes, sections, nca, blocks, exponent);
    ok := StreamNcz(Ncz(nca[..HEADER_SIZE], sections, BlockRest(blocks, exponent, |nca| - HEADER_SIZE)), aes, z, sink);
  }
}
