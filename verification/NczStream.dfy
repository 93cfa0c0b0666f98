module NczStreams {
  // Rebuilding an NCA from its compressed form. The decompressor is any decoder that turns growing input
  // prefixes into growing output prefixes and knows where a frame ends.

  import opened Common
  import opened Endian
  import opened NczParser
  import opened NczOutputs

  const IO_SIZE: nat := 0x4_0000

  /** What the decompressor makes of an input prefix: its output, whether it is a whole frame, whether it is damaged. */
  datatype Codec = Codec(plain: seq<byte> -> seq<byte>, ends: seq<byte> -> bool, broken: seq<byte> -> bool)

  /** More input never takes output back, no frame starts with another, and damage does not heal. */
  ghost predicate Streaming(c: Codec) {
    && (forall x, y {:trigger c.plain(x), c.plain(y)} :: x <= y ==> c.plain(x) <= c.plain(y))
    && (forall x, y {:trigger c.ends(x), c.ends(y)} :: x < y && c.ends(x) ==> !c.ends(y))
    && (forall x, y {:trigger c.broken(x), c.ends(y)} :: x <= y && c.broken(x) ==> !c.ends(y))
  }

  /** `x` is exactly one frame of `size` bytes. */
  predicate Frame(c: Codec, x: seq<byte>, size: nat) {
    c.ends(x) && |c.plain(x)| == size
  }

  lemma PrefixOfFrame(c: Codec, x: seq<byte>, part: seq<byte>, size: nat)
    requires Streaming(c) && Frame(c, x, size) && part <= x
    ensures c.plain(part) <= c.plain(x) && !c.broken(part)
    ensures c.ends(part) ==> part == x
  {
    assert c.ends(x) && c.plain(part) <= c.plain(x);
    assert part == x || part < x;
  }

  /** A streaming decompressor. Each step takes and gives as much as it likes, but gets on. */
  class Zstd {
    const codec: Codec
    const usable: bool
    var consumed: seq<byte>
    var emitted: seq<byte>

    constructor (codec: Codec, usable: bool)
      ensures this.codec == codec && this.usable == usable
    {
      this.codec, this.usable := codec, usable;
      consumed, emitted := [], [];
    }

    method Reset() returns (ok: bool)
      modifies this
      ensures ok == usable && consumed == emitted == []
    {
      consumed, emitted := [], [];
      ok := usable;
    }

    method Step(avail: seq<byte>, buffer: array<byte>, room: nat)
            returns (used: nat, made: nat, failed: bool, finished: bool)
      requires emitted <= codec.plain(consumed) && 0 < room <= buffer.Length && Streaming(codec)
      modifies this, buffer
      ensures used <= |avail| && consumed == old(consumed) + avail[..used]
      ensures made <= room && emitted == old(emitted) + buffer[..made] && emitted <= codec.plain(consumed)
      ensures failed ==> codec.broken(consumed)
      ensures finished <==> !failed && codec.ends(consumed) && emitted == codec.plain(consumed)
      ensures !failed && used == made == 0 ==> emitted == codec.plain(consumed) && (avail == [] || codec.ends(consumed))
    {
      used := Take(avail);
      ghost var before := consumed;
      assert consumed + avail[..0] == consumed;
      consumed := consumed + avail[..used];
      var ready := codec.plain(consumed);
      assert codec.plain(before) <= ready;
      var most := Min(room, |ready| - |emitted|);
      assert 0 <= most <= most && (used == 0 ==> most == most);
      made :| 0 <= made <= most && (used == 0 ==> made == most);
      forall i | 0 <= i < made {
        buffer[i] := ready[|emitted| + i];
      }
      assert ready[..|emitted| + made] == emitted + buffer[..made];
      emitted := ready[..|emitted| + made];
      failed :| failed ==> codec.broken(consumed);
      finished := !failed && codec.ends(consumed) && |emitted| == |ready|;
    }

    /** How much of the input one step takes: any amount, at least one byte, never past the end of the frame. */
    method Take(avail: seq<byte>) returns (used: nat)
      ensures used <= |avail| && (used == 0 ==> avail == [] || codec.ends(consumed))
      ensures forall k :: 0 <= k < used ==> !codec.ends(consumed + avail[..k])
    {
      var wish: nat :| wish >= 1;
      used := 0;
      assert consumed + avail[..0] == consumed;
      while used < |avail| && used < wish && !codec.ends(consumed + avail[..used])
        invariant used <= |avail| && forall k :: 0 <= k < used ==> !codec.ends(consumed + avail[..k])
      {
        used := used + 1;
      }
    }
  }

  datatype Verdict = Moving | Finished | Refused

  /** What has been delivered is what the decompressor has given out. */
  ghost predicate Delivering(z: Zstd, input: seq<byte>, at: nat, output: NczOutput, before: seq<byte>)
    reads z, output, output.sink
  {
    && Streaming(z.codec) && output.Valid()
    && at <= |input| && z.consumed == input[..at] && z.emitted <= z.codec.plain(z.consumed)
    && Extends(output.recrypt, before, z.emitted, |z.emitted|, output.sink.bytes)
  }

  /** Writes `made` bytes out of the buffer, after `given` have been delivered. */
  method Give(buffer: array<byte>, made: nat, output: NczOutput, ghost before: seq<byte>, ghost given: seq<byte>,
          ghost next: seq<byte>)
    returns (ok: bool)
    requires output.Valid() && made <= buffer.Length && next == given + buffer[..made]
    requires Extends(output.recrypt, before, given, |given|, output.sink.bytes)
    modifies buffer, output`section, output`offset, output.sink
    ensures output.Valid() && output.sink.patience <= old(output.sink.patience)
    ensures ok ==> Extends(output.recrypt, before, next, |next|, output.sink.bytes)
    ensures !ok && |before| + |next| <= output.total ==> output.sink.patience == 0
  {
    ghost var chunk, held := buffer[..made], output.sink.bytes;
    ok := made == 0;
    if ok { return true; }
    ok := output.Write(buffer, made);
    if ok { ExtendsMore(output.recrypt, before, given, chunk, held); }
  }

  /** One turn of the loop: decode, check the size, deliver. */
  method Turn(z: Zstd, buffer: array<byte>, input: seq<byte>, at: nat, to: nat, expected: nat, output: NczOutput,
          ghost before: seq<byte>)
    returns (used: nat, made: nat, verdict: Verdict)
    requires Delivering(z, input, at, output, before) && at <= to <= |input| && |z.emitted| <= expected
    requires buffer.Length == IO_SIZE
    modifies z, buffer, output`section, output`offset, output.sink
    ensures output.sink.patience <= old(output.sink.patience)
    ensures output.Valid() && used <= to - at
    ensures !verdict.Refused? ==>
              Delivering(z, input, at + used, output, before) && |z.emitted| == old(|z.emitted|) + made <= expected
    ensures verdict.Finished? ==> z.codec.ends(z.consumed) && z.emitted == z.codec.plain(z.consumed)
    ensures verdict.Moving? && used == made == 0 ==> at == to && !(z.codec.ends(z.consumed))
    ensures verdict.Refused? && Frame(z.codec, input, expected) && |before| + expected <= output.total ==>
            output.sink.patience == 0
  {
    ghost var given := z.emitted;
    var failed, finished;
    used, made, failed, finished := Decode(z, buffer, input, at, to, expected);
    if failed { return used, made, Refused; }
    var ok := Give(buffer, made, output, before, given, z.emitted);
    if !ok { return used, made, Refused; }
    verdict := if finished then Finished else Moving;
  }

  /** The call of the decompressor, with room for one byte more once everything expected has been produced. */
  method Decode(z: Zstd, buffer: array<byte>, input: seq<byte>, at: nat, to: nat, expected: nat)
    returns (used: nat, made: nat, failed: bool, finished: bool)
    requires Streaming(z.codec) && at <= to <= |input| && z.consumed == input[..at]
            && z.emitted <= z.codec.plain(z.consumed)
    requires |z.emitted| <= expected && buffer.Length == IO_SIZE
    modifies z, buffer
    ensures used <= to - at && z.consumed == input[..at + used] && z.emitted <= z.codec.plain(z.consumed)
    ensures made <= buffer.Length && z.emitted == old(z.emitted) + buffer[..made]
    ensures failed ==> !Frame(z.codec, input, expected)
    ensures !failed ==> |z.emitted| <= expected
    ensures Frame(z.codec, input, expected) ==> |z.emitted| <= expected
    ensures !failed && finished ==> z.codec.ends(z.consumed) && z.emitted == z.codec.plain(z.consumed)
    ensures !failed && !finished && used == made == 0 ==> at == to && !z.codec.ends(z.consumed)
  {
    var remaining := expected - |z.emitted|;
    used, made, failed, finished := z.Step(input[at..to], buffer, Min(IO_SIZE, if remaining > 0 then remaining else 1));
    TakeNext(input, at, at + used);
    assert input[at..to][..used] == input[at..at + used];
    if Frame(z.codec, input, expected) { PrefixOfFrame(z.codec, input, z.consumed, expected); }
    failed := failed || made > remaining;
  }

  /**
    `decompress`: succeeds exactly when the input is one whole frame of the expected size, as long as
    the sink takes everything; then what it decodes to has been delivered.
   */
  method Decompress(z: Zstd, input: seq<byte>, expected: nat, output: NczOutput) returns (ok: bool)
    requires Streaming(z.codec) && output.Valid()
    modifies z, output`section, output`offset, output.sink
    ensures output.Valid() && output.sink.patience <= old(output.sink.patience)
    ensures ok ==> z.usable && Frame(z.codec, input, expected)
    ensures ok ==> Extends(output.recrypt, old(output.sink.bytes), z.codec.plain(input), expected, output.sink.bytes)
    ensures !ok && z.usable && Frame(z.codec, input, expected) && old(output.offset) + expected <= output.total ==>
              output.sink.patience == 0
  {
    var reset := z.Reset();
    if !reset { return false; }
    var buffer := new byte[IO_SIZE];
    var at: nat, loaded: nat, produced: nat := 0, 0, 0;
    ghost var before := output.sink.bytes;
    while true
      invariant Delivering(z, input, at, output, before) && at <= loaded <= |input|
              && produced == |z.emitted| <= expected
      invariant output.sink.patience <= old(output.sink.patience)
      decreases |input| - loaded, |input| - at + expected - produced
    {
      if at == loaded && loaded < |input| {
        loaded := loaded + Min(IO_SIZE, |input| - loaded);
      }
      var used, made, verdict := Turn(z, buffer, input, at, loaded, expected, output, before);
      if verdict.Refused? { return false; }
      at, produced := at + used, produced + made;
      WholeFrame(z.codec, input, at, expected);
      if verdict.Finished? {
        ok := produced == expected && loaded == |input| && at == loaded;
        return ok;
      }
      if made == 0 && used == 0 && loaded == |input| && at == loaded { return false; }
    }
  }

  /** A prefix that ends a frame is the whole input, if the input is a frame. */
  lemma WholeFrame(c: Codec, input: seq<byte>, at: nat, expected: nat)
    requires Streaming(c) && at <= |input|
    ensures at == |input| ==> input[..at] == input
    ensures Frame(c, input, expected) && c.ends(input[..at]) ==> at == |input|
  {
    if Frame(c, input, expected) { PrefixOfFrame(c, input, input[..at], expected); }
  }

  // ----- blocks

  /** A block of its full size is stored as it is. */
  predicate BlockDecodes(c: Codec, chunk: seq<byte>, size: nat) {
    |chunk| == size || Frame(c, chunk, size)
  }

  function BlockPlain(c: Codec, chunk: seq<byte>, size: nat): seq<byte> {
    if |chunk| == size then chunk else c.plain(chunk)
  }

  lemma {:induction false} SumFront(sizes: seq<nat>)
    requires sizes != []
    ensures Sum(sizes) == sizes[0] + Sum(sizes[1..])
  {
    if |sizes| == 1 {
      assert sizes[..0] == sizes[1..] == [];
    } else {
      SumFront(sizes[..|sizes| - 1]);
      assert sizes[..|sizes| - 1][1..] == sizes[1..][..|sizes| - 2];
    }
  }

  predicate BlocksDecode(c: Codec, body: seq<byte>, sizes: seq<nat>, blockSize: nat, remaining: nat)
    requires Sum(sizes) == |body|
    decreases |sizes|
  {
    if sizes == [] then remaining == 0
    else
      SumFront(sizes);
      var size := Min(blockSize, remaining);
      && BlockDecodes(c, body[..sizes[0]], size)
      && BlocksDecode(c, body[sizes[0]..], sizes[1..], blockSize, remaining - size)
  }

  /** What the blocks stand for, one after the other. */
  function BlocksPlain(c: Codec, body: seq<byte>, sizes: seq<nat>, blockSize: nat, remaining: nat): seq<byte>
    requires Sum(sizes) == |body|
    decreases |sizes|
  {
    if sizes == [] then []
    else
      SumFront(sizes);
      var size := Min(blockSize, remaining);
      BlockPlain(c, body[..sizes[0]], size) + BlocksPlain(c, body[sizes[0]..], sizes[1..], blockSize, remaining - size)
  }

  /** A stored block goes through the buffer in pieces. */
  method RawBlock(chunk: seq<byte>, output: NczOutput) returns (ok: bool)
    requires output.Valid()
    modifies output`section, output`offset, output.sink
    ensures output.Valid() && output.sink.patience <= old(output.sink.patience)
    ensures ok ==> Extends(output.recrypt, old(output.sink.bytes), chunk, |chunk|, output.sink.bytes)
    ensures !ok && old(output.offset) + |chunk| <= output.total ==> output.sink.patience == 0
  {
    var buffer := new byte[IO_SIZE];
    var offset: nat := 0;
    ghost var before := output.sink.bytes;
    while offset < |chunk|
      invariant output.Valid() && offset <= |chunk| && output.sink.patience <= old(output.sink.patience)
      invariant Extends(output.recrypt, before, chunk[..offset], offset, output.sink.bytes)
    {
      var amount := Min(IO_SIZE, |chunk| - offset);
      forall i | 0 <= i < amount {
        buffer[i] := chunk[offset + i];
      }
      assert buffer[..amount] == chunk[offset..offset + amount];
      TakeNext(chunk, offset, offset + amount);
      ok := Give(buffer, amount, output, before, chunk[..offset], chunk[..offset + amount]);
      if !ok { return false; }
      offset := offset + amount;
    }
    assert chunk[..offset] == chunk;
    return true;
  }

  method Block(z: Zstd, chunk: seq<byte>, size: nat, output: NczOutput) returns (ok: bool)
    requires Streaming(z.codec) && output.Valid()
    modifies z, output`section, output`offset, output.sink
    ensures output.Valid() && output.sink.patience <= old(output.sink.patience)
    ensures ok ==> BlockDecodes(z.codec, chunk, size) && |BlockPlain(z.codec, chunk, size)| == size
    ensures ok ==> Extends(output.recrypt, old(output.sink.bytes), BlockPlain(z.codec, chunk, size), size,
            output.sink.bytes)
    ensures !ok && z.usable && BlockDecodes(z.codec, chunk, size) && old(output.offset) + size <= output.total ==>
              output.sink.patience == 0
  {
    if |chunk| == size {
      ok := RawBlock(chunk, output);
    } else {
      ok := Decompress(z, chunk, size, output);
    }
  }

  /** One block off the front. */
  lemma NextBlock(c: Codec, body: seq<byte>, sizes: seq<nat>, at: nat, i: nat, blockSize: nat, remaining: nat, at': nat,
          remaining': nat)
    requires at <= |body| && i < |sizes| && Sum(sizes[i..]) == |body[at..]|
    requires at' == at + sizes[i] && remaining' == remaining - Min(blockSize, remaining)
    ensures at' <= |body| && Sum(sizes[i + 1..]) == |body[at'..]|
    ensures var chunk, size := body[at..at'], Min(blockSize, remaining);
            && BlocksPlain(c, body[at..], sizes[i..], blockSize, remaining)
               == BlockPlain(c, chunk, size) + BlocksPlain(c, body[at'..], sizes[i + 1..], blockSize, remaining')
            && (BlocksDecode(c, body[at..], sizes[i..], blockSize, remaining)
                <==> BlockDecodes(c, chunk, size) && BlocksDecode(c, body[at'..], sizes[i + 1..], blockSize,
                    remaining'))
  {
    SumFront(sizes[i..]);
    assert sizes[i..][1..] == sizes[i + 1..];
    assert body[at..][..sizes[i]] == body[at..at'];
    assert body[at..][sizes[i]..] == body[at'..];
  }

  /** What the loop over the blocks has done: `given` is delivered, the rest is still to come. */
  ghost predicate BlocksDone(c: Codec, body: seq<byte>, sizes: seq<nat>, blockSize: nat, total: nat,
                             at: nat, i: nat, remaining: nat, given: seq<byte>)
    requires Sum(sizes) == |body|
  {
    && at <= |body| && i <= |sizes| && Sum(sizes[i..]) == |body[at..]| && |given| == total - remaining
    && BlocksPlain(c, body, sizes, blockSize, total)
        == given + BlocksPlain(c, body[at..], sizes[i..], blockSize, remaining)
    && (BlocksDecode(c, body, sizes, blockSize, total) <==>
        BlocksDecode(c, body[at..], sizes[i..], blockSize, remaining))
  }

  lemma BlocksOn(c: Codec, body: seq<byte>, sizes: seq<nat>, blockSize: nat, total: nat,
                 at: nat, i: nat, remaining: nat, given: seq<byte>, plain: seq<byte>,
                 at': nat, remaining': nat)
    requires Sum(sizes) == |body| && BlocksDone(c, body, sizes, blockSize, total, at, i, remaining, given)
    requires i < |sizes| && at + sizes[i] <= |body|
    requires BlockDecodes(c, body[at..at + sizes[i]], Min(blockSize, remaining))
    requires plain == BlockPlain(c, body[at..at + sizes[i]], Min(blockSize, remaining))
            && |plain| == Min(blockSize, remaining)
    requires at' == at + sizes[i] && remaining' == remaining - |plain|
    ensures BlocksDone(c, body, sizes, blockSize, total, at', i + 1, remaining', given + plain)
  {
    NextBlock(c, body, sizes, at, i, blockSize, remaining, at', remaining');
    Regroup(given, plain, BlocksPlain(c, body[at'..], sizes[i + 1..], blockSize, remaining'));
  }

  lemma ExtendsTwice(f: (nat, byte) -> byte, before: seq<byte>, given: seq<byte>, middle: seq<byte>, more: seq<byte>,
          got: seq<byte>)
    requires Extends(f, before, given, |given|, middle) && Extends(f, middle, more, |more|, got)
    ensures Extends(f, before, given + more, |given + more|, got)
  {
    forall p | |before| <= p < |got|
      ensures got[p] == f(p, (given + more)[p - |before|])
    {
      if p < |middle| { assert got[p] == middle[p]; }
    }
    forall p | 0 <= p < |before|
      ensures got[p] == before[p]
    {
      assert got[p] == middle[p];
    }
  }

  /** One turn of the loop over the blocks. */
  method NextOut(z: Zstd, body: seq<byte>, sizes: seq<nat>, blockSize: nat, total: nat, output: NczOutput,
                 at: nat, i: nat, remaining: nat, ghost before: seq<byte>, ghost given: seq<byte>)
    returns (ok: bool, at': nat, remaining': nat, ghost given': seq<byte>)
    requires Streaming(z.codec) && output.Valid() && Sum(sizes) == |body| && i < |sizes|
    requires BlocksDone(z.codec, body, sizes, blockSize, total, at, i, remaining, given)
    requires Extends(output.recrypt, before, given, |given|, output.sink.bytes)
    modifies z, output`section, output`offset, output.sink
    ensures output.Valid() && output.sink.patience <= old(output.sink.patience)
    ensures ok ==> BlocksDone(z.codec, body, sizes, blockSize, total, at', i + 1, remaining', given')
    ensures ok ==> Extends(output.recrypt, before, given', |given'|, output.sink.bytes)
    ensures !ok && z.usable && BlocksDecode(z.codec, body, sizes, blockSize, total)
            && |before| + total <= output.total ==>
              output.sink.patience == 0
  {
    var size := Min(blockSize, remaining);
    at', remaining', given' := at + sizes[i], remaining - size, given;
    NextBlock(z.codec, body, sizes, at, i, blockSize, remaining, at', remaining');
    var chunk := body[at..at'];
    ghost var middle, plain := output.sink.bytes, BlockPlain(z.codec, chunk, size);
    ok := Block(z, chunk, size, output);
    if !ok { return; }
    ExtendsTwice(output.recrypt, before, given, middle, plain, output.sink.bytes);
    BlocksOn(z.codec, body, sizes, blockSize, total, at, i, remaining, given, plain, at', remaining');
    given' := given + plain;
  }

  lemma NoBlockDone(c: Codec, body: seq<byte>, sizes: seq<nat>, blockSize: nat, total: nat)
    requires Sum(sizes) == |body|
    ensures BlocksDone(c, body, sizes, blockSize, total, 0, 0, total, [])
  {
    assert sizes[0..] == sizes && body[0..] == body;
  }

  lemma AllBlocksDone(c: Codec, body: seq<byte>, sizes: seq<nat>, blockSize: nat, total: nat, at: nat, remaining: nat,
          given: seq<byte>)
    requires Sum(sizes) == |body| && BlocksDone(c, body, sizes, blockSize, total, at, |sizes|, remaining, given)
    ensures given == BlocksPlain(c, body, sizes, blockSize, total)
    ensures BlocksDecode(c, body, sizes, blockSize, total) <==> |given| == total
  {
    assert sizes[|sizes|..] == [];
  }

  /** The loop over the blocks. */
  method StreamBlocks(z: Zstd, body: seq<byte>, sizes: seq<nat>, blockSize: nat, total: nat, output: NczOutput)
    returns (ok: bool)
    requires Streaming(z.codec) && output.Valid() && Sum(sizes) == |body|
    modifies z, output`section, output`offset, output.sink
    ensures output.Valid() && output.sink.patience <= old(output.sink.patience)
    ensures ok ==>
              var plain := BlocksPlain(z.codec, body, sizes, blockSize, total);
              && Extends(output.recrypt, old(output.sink.bytes), plain, |plain|, output.sink.bytes)
              && (BlocksDecode(z.codec, body, sizes, blockSize, total) <==> |plain| == total)
    ensures !ok && z.usable && BlocksDecode(z.codec, body, sizes, blockSize, total)
            && old(output.offset) + total <= output.total ==>
              output.sink.patience == 0
  {
    var at: nat, remaining: nat := 0, total;
    ghost var before, given := output.sink.bytes, [];
    NoBlockDone(z.codec, body, sizes, blockSize, total);
    for i := 0 to |sizes|
      invariant output.Valid() && output.sink.patience <= old(output.sink.patience)
      invariant BlocksDone(z.codec, body, sizes, blockSize, total, at, i, remaining, given)
      invariant Extends(output.recrypt, before, given, |given|, output.sink.bytes)
    {
      ok, at, remaining, given := NextOut(z, body, sizes, blockSize, total, output, at, i, remaining, before, given);
      if !ok { return false; }
    }
    AllBlocksDone(z.codec, body, sizes, blockSize, total, at, remaining, given);
    return true;
  }

  // ----- the whole entry

  /** The compressed bytes fit their layout. */
  predicate Fitting(l: Layout, body: seq<byte>) {
    l.decompressedSize > HEADER_SIZE && (l.blocks.Some? ==> Sum(l.blocks.value.compressedSizes) == |body|)
  }

  /** Everything compressed decodes, and to the right sizes. */
  predicate Decodes(c: Codec, l: Layout, body: seq<byte>)
    requires Fitting(l, body)
  {
    var total := l.decompressedSize - HEADER_SIZE;
    match l.blocks
    case None => Frame(c, body, total)
    case Some(b) => BlocksDecode(c, body, b.compressedSizes, b.blockSize, total)
  }

  /** The decompressed bytes behind the header. */
  function PlainOf(c: Codec, l: Layout, body: seq<byte>): seq<byte>
    requires Fitting(l, body)
  {
    match l.blocks
    case None => c.plain(body)
    case Some(b) => BlocksPlain(c, body, b.compressedSizes, b.blockSize, l.decompressedSize - HEADER_SIZE)
  }

  function BodyOf(entry: seq<byte>): (body: seq<byte>)
    requires Acceptable(entry)
    ensures Fitting(LayoutOf(entry), body) && HEADER_SIZE <= |entry| && LayoutOf(entry).sections != []
  {
    AcceptedLayout(entry);
    entry[LayoutOf(entry).dataOffset..]
  }

  /** The NCA an entry stands for: its header as it is, and the rest with every section encrypted again. */
  function Rebuilt(c: Codec, aes: Cipher, entry: seq<byte>): seq<byte>
    requires Acceptable(entry)
  {
    var body, l := BodyOf(entry), LayoutOf(entry);
    entry[..HEADER_SIZE] + Mapped(Recrypter(aes, l.sections), HEADER_SIZE, PlainOf(c, l, body))
  }

  lemma {:induction false} EndBelow(source: seq<Section>)
    requires SizesOk(source)
    ensures EndOf(Kept(source)) < LIMIT
  {
    if source != [] { EndBelow(source[..|source| - 1]); }
  }

  /** `inspectNcz`. */
  method InspectNcz(entry: seq<byte>) returns (r: Result<nat>)
    requires |entry| < LIMIT
    ensures r.Ok? <==> Acceptable(entry)
    ensures r.Ok? ==> r.value == LayoutOf(entry).decompressedSize > HEADER_SIZE
  {
    var parsed := ParseNcz(entry);
    if parsed.Err? { return Err; }
    AcceptedLayout(entry);
    return Ok(parsed.value.decompressedSize);
  }

  /** The part behind the header. */
  method StreamBody(layout: Layout, body: seq<byte>, z: Zstd, output: NczOutput) returns (ok: bool)
    requires Streaming(z.codec) && output.Valid() && Fitting(layout, body)
    requires output.total == layout.decompressedSize && output.offset == HEADER_SIZE
    modifies z, output`section, output`offset, output.sink
    ensures output.Valid() && output.sink.patience <= old(output.sink.patience)
    ensures ok ==> Decodes(z.codec, layout, body)
    ensures ok ==> var plain := PlainOf(z.codec, layout, body);
                   && Extends(output.recrypt, old(output.sink.bytes), plain, |plain|, output.sink.bytes)
                   && |output.sink.bytes| == layout.decompressedSize
    ensures !ok && z.usable && Decodes(z.codec, layout, body) ==> output.sink.patience == 0
  {
    var total := layout.decompressedSize - HEADER_SIZE;
    match layout.blocks {
      case None =>
        ok := Decompress(z, body, total, output);
        if !ok { return false; }
      case Some(b) =>
        ok := StreamBlocks(z, body, b.compressedSizes, b.blockSize, total, output);
        if !ok { return false; }
    }
    ok := output.Complete();
  }

  method StreamParsed(header: seq<byte>, layout: Layout, body: seq<byte>, aes: Cipher, z: Zstd, sink: Sink)
    returns (ok: bool)
    requires Fitting(layout, body) && Streaming(z.codec) && |header| == HEADER_SIZE && sink.bytes == []
    requires layout.sections != [] && Tiles(layout.sections, HEADER_SIZE, layout.decompressedSize)
            && layout.decompressedSize <= LIMIT
    modifies z, sink
    ensures ok ==> Decodes(z.codec, layout, body)
    ensures ok ==> sink.bytes == header + Mapped(Recrypter(aes, layout.sections), HEADER_SIZE,
            PlainOf(z.codec, layout, body))
                   && |sink.bytes| == layout.decompressedSize
    ensures !ok && z.usable && Decodes(z.codec, layout, body) ==> sink.patience == 0
  {
    ok := sink.Accept(0, header);
    if !ok { return false; }
    var output := new NczOutput(aes, layout.sections, layout.decompressedSize, sink);
    ok := StreamBody(layout, body, z, output);
    if ok {
      ghost var plain := PlainOf(z.codec, layout, body);
      ExtendsMapped(output.recrypt, header, plain, |plain|, sink.bytes);
      assert plain[..|plain|] == plain;
    }
  }

  lemma LayoutFacts(entry: seq<byte>)
    requires Acceptable(entry)
    ensures var l := LayoutOf(entry);
            Tiles(l.sections, HEADER_SIZE, l.decompressedSize) && l.decompressedSize <= LIMIT
  {
    AcceptedLayout(entry);
    EndBelow(Source(entry));
  }

  /**
    `streamNcz`: as long as the sink takes everything and the decompressor can be set up, it succeeds
    exactly on the acceptable entries that decode; then the sink holds exactly the NCA, whose size is
    the one `inspectNcz` reports.
   */
  method StreamNcz(entry: seq<byte>, aes: Cipher, z: Zstd, sink: Sink) returns (ok: bool)
    requires |entry| < LIMIT && Streaming(z.codec) && sink.bytes == []
    modifies z, sink
    ensures ok ==> Acceptable(entry) && Decodes(z.codec, LayoutOf(entry), BodyOf(entry))
    ensures ok ==> sink.bytes == Rebuilt(z.codec, aes, entry) && |sink.bytes| == LayoutOf(entry).decompressedSize
    ensures !ok && z.usable && Acceptable(entry) && Decodes(z.codec, LayoutOf(entry), BodyOf(entry)) ==>
            sink.patience == 0
  {
    var parsed := ParseNcz(entry);
    if parsed.Err? { return false; }
    LayoutFacts(entry);
    var layout, body := parsed.value, BodyOf(entry);
    ok := StreamParsed(entry[..HEADER_SIZE], layout, body, aes, z, sink);
  }
}
