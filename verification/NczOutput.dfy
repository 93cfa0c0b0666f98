module NczOutputs {
  // Re-encryption of decompressed NCA bytes. AES itself is a parameter; the counter mode around it and the
  // cutting at section borders are what is modelled (section 6.5 of NIST SP 800-38A).

  import opened Bits
  import opened Common
  import opened Endian
  import opened NczParser

  /** One block encryption: key and input block to output block. */
  type Cipher = (Block16, Block16) -> Block16

  /** The counter block for the sixteen bytes from `16 * n` on. */
  function CounterBlock(s: Section, n: nat): Block16 {
    s.counter[..8] + Be(n, |s.counter| - 8)
  }

  function StreamBlock(aes: Cipher, s: Section, n: nat): Block16 {
    aes(s.key, CounterBlock(s, n))
  }

  function Keystream(aes: Cipher, s: Section, p: nat): byte {
    StreamBlock(aes, s, p / 16)[p % 16]
  }

  /** What the byte `b` at absolute position `p` becomes. */
  function Recrypt(aes: Cipher, s: Section, p: nat, b: byte): byte {
    if s.cryptoType == 3 || s.cryptoType == 4 then Xor(b, Keystream(aes, s, p)) else b
  }

  /** Recrypting is its own inverse. */
  lemma RecryptTwice(aes: Cipher, s: Section, p: nat, b: byte)
    ensures Recrypt(aes, s, p, Recrypt(aes, s, p, b)) == b
  {
    if s.cryptoType == 3 || s.cryptoType == 4 { XorTwice(b, Keystream(aes, s, p)); }
  }

  // ----- counter mode

  /** Each counter block is the one before it plus one, as far as 64-bit positions reach. */
  ghost predicate CountsUp(blocks: nat -> Block16) {
    forall n: nat {:trigger Increment(blocks(n))} :: 16 * n < LIMIT ==> Increment(blocks(n)) == blocks(n + 1)
  }

  /** The state of the counter-mode call when byte `i` of block `n` comes next. */
  ghost predicate CtrAt(aes: Cipher, key: Block16, blocks: nat -> Block16, n: nat, i: nat, nonce: Block16,
          stream: Block16) {
    if i == 0 then nonce == blocks(n)
    else nonce == blocks(n + 1) && stream == aes(key, blocks(n))
  }

  /** The library's counter mode: a new stream block every sixteen bytes, then the whole nonce counts up by one. */
  method CtrByte(aes: Cipher, key: Block16, ghost blocks: nat -> Block16, ghost n: nat, i: nat, nonce: Block16,
          stream: Block16)
    returns (k: byte, i': nat, nonce': Block16, stream': Block16)
    requires CountsUp(blocks) && 16 * n < LIMIT && i < 16 && CtrAt(aes, key, blocks, n, i, nonce, stream)
    ensures k == aes(key, blocks(n))[i] && i' == (i + 1) % 16
    ensures CtrAt(aes, key, blocks, if i == 15 then n + 1 else n, i', nonce', stream')
  {
    nonce', stream' := nonce, stream;
    if i == 0 {
      stream' := aes(key, nonce);
      nonce' := Increment(nonce);
      assert nonce' == Increment(blocks(n));
    }
    k := stream'[i];
    i' := (i + 1) % 16;
  }

  lemma NextPosition(p: nat)
    ensures (p % 16 + 1) % 16 == (p + 1) % 16
    ensures (p + 1) / 16 == if p % 16 == 15 then p / 16 + 1 else p / 16
  {
  }

  /** A fresh counter, run over the bytes of its block that come before `skip`. */
  method Skip(aes: Cipher, key: Block16, ghost blocks: nat -> Block16, ghost block: nat, first: Block16, skip: nat)
    returns (nonce: Block16, stream: Block16)
    requires CountsUp(blocks) && skip < 16 && 16 * block < LIMIT && first == blocks(block)
    ensures CtrAt(aes, key, blocks, block, skip, nonce, stream)
  {
    nonce, stream := first, NO_KEY;
    var at := 0;
    for i := 0 to skip
      invariant at == i && CtrAt(aes, key, blocks, block, i, nonce, stream)
    {
      var ignored;
      ignored, at, nonce, stream := CtrByte(aes, key, blocks, block, at, nonce, stream);
    }
  }

  /** Encrypts `data[from..from + size]` in place, whose first byte stands at absolute position `offset`. */
  method XorStream(aes: Cipher, key: Block16, ghost blocks: nat -> Block16, first: Block16,
                   offset: nat, data: array<byte>, from: nat, size: nat)
    requires CountsUp(blocks) && first == blocks(offset / 16)
    requires from + size <= data.Length && offset + size <= LIMIT && size > 0
    modifies data
    ensures forall i :: from <= i < from + size ==>
              data[i] == Xor(old(data[i]), aes(key, blocks((offset + (i - from)) / 16))[(offset + (i - from)) % 16])
    ensures forall i :: 0 <= i < from || from + size <= i < data.Length ==> data[i] == old(data[i])
  {
    var nonce, stream := Skip(aes, key, blocks, offset / 16, first, offset % 16);
    var at := offset % 16;
    for i := 0 to size
      invariant at == (offset + i) % 16 && CtrAt(aes, key, blocks, (offset + i) / 16, at, nonce, stream)
      invariant forall j :: from <= j < from + i ==>
                  data[j] == Xor(old(data[j]), aes(key, blocks((offset + (j - from)) / 16))[(offset + (j - from)) % 16])
      invariant forall j :: 0 <= j < from || from + i <= j < data.Length ==> data[j] == old(data[j])
    {
      NextPosition(offset + i);
      var k;
      k, at, nonce, stream := CtrByte(aes, key, blocks, (offset + i) / 16, at, nonce, stream);
      data[from + i] := Xor(data[from + i], k);
    }
  }

  /** Positions below 2^64 give block numbers below 2^60, so the carry stays in the lower half of the counter. */
  lemma CounterStaysLow(s: Section)
    ensures CountsUp(n => CounterBlock(s, n))
  {
    Pow256Values();
    forall n: nat | 16 * n < LIMIT
      ensures Increment(CounterBlock(s, n)) == CounterBlock(s, n + 1)
    {
      IncrementBe(s.counter[..8], n, |s.counter| - 8);
    }
  }

  /** The upper half of the nonce from the section, the lower half from the block number. */
  method Nonce(s: Section, block: nat) returns (nonce: Block16)
    ensures nonce == CounterBlock(s, block)
  {
    var bytes := s.counter[..8];
    for i := 0 to 8
      invariant bytes == s.counter[..8] + Be(block, |s.counter| - 8)[..i]
    {
      BeAt(block, |s.counter| - 8, i);
      bytes := bytes + [(block / Pow256(7 - i)) % 256];
    }
    nonce := bytes;
  }

  /** `cryptCtr`. */
  method CryptCtr(aes: Cipher, s: Section, offset: nat, data: array<byte>, from: nat, size: nat)
    requires from + size <= data.Length && offset + size <= LIMIT
    modifies data
    ensures forall i :: from <= i < from + size ==> data[i] == Recrypt(aes, s, offset + (i - from), old(data[i]))
    ensures forall i :: 0 <= i < from || from + size <= i < data.Length ==> data[i] == old(data[i])
  {
    if (s.cryptoType != 3 && s.cryptoType != 4) || size == 0 { return; }
    var first := Nonce(s, offset / 16);
    CounterStaysLow(s);
    XorStream(aes, s.key, n => CounterBlock(s, n), first, offset, data, from, size);
    forall i | from <= i < from + size
      ensures data[i] == Recrypt(aes, s, offset + (i - from), old(data[i]))
    {
    }
  }

  // ----- cutting at section borders

  /** A byte-wise function of the absolute position, applied to consecutive bytes. */
  function Mapped(f: (nat, byte) -> byte, from: nat, data: seq<byte>): (r: seq<byte>)
    ensures |r| == |data|
    ensures forall i {:trigger r[i]} :: 0 <= i < |data| ==> r[i] == f(from + i, data[i])
  {
    if data == [] then []
    else Mapped(f, from, data[..|data| - 1]) + [f(from + |data| - 1, data[|data| - 1])]
  }

  /** `got` is `before` and then the first `done` bytes of `all`, each changed for its position in `got`. */
  ghost predicate Extends(f: (nat, byte) -> byte, before: seq<byte>, all: seq<byte>, done: nat, got: seq<byte>) {
    && done <= |all| && |got| == |before| + done
    && (forall p {:trigger got[p]} :: 0 <= p < |before| ==> got[p] == before[p])
    && (forall p {:trigger got[p]} :: |before| <= p < |got| ==> got[p] == f(p, all[p - |before|]))
  }

  lemma {:induction false} ExtendsOn(f: (nat, byte) -> byte, before: seq<byte>, all: seq<byte>, done: nat, next: nat,
          got: seq<byte>, more: seq<byte>)
    requires Extends(f, before, all, done, got) && done <= next <= |all| && more == all[done..next]
    ensures Extends(f, before, all, next, got + Mapped(f, |got|, more))
  {
    var mapped := Mapped(f, |got|, more);
    forall p | 0 <= p < |got + mapped|
      ensures (got + mapped)[p] == if p < |before| then before[p] else f(p, all[p - |before|])
    {
      if p >= |got| {
        assert mapped[p - |got|] == f(p, more[p - |got|]);
        assert more[p - |got|] == all[p - |before|];
      }
    }
  }

  lemma {:induction false} ExtendsMore(f: (nat, byte) -> byte, before: seq<byte>, given: seq<byte>, chunk: seq<byte>,
          got: seq<byte>)
    requires Extends(f, before, given, |given|, got)
    ensures Extends(f, before, given + chunk, |given + chunk|, got + Mapped(f, |got|, chunk))
  {
    var all := given + chunk;
    assert all[|given|..] == chunk;
    assert Extends(f, before, all, |given|, got);
    ExtendsOn(f, before, all, |given|, |all|, got, chunk);
  }

  lemma {:induction false} ExtendsMapped(f: (nat, byte) -> byte, before: seq<byte>, all: seq<byte>, done: nat,
          got: seq<byte>)
    requires Extends(f, before, all, done, got)
    ensures got == before + Mapped(f, |before|, all[..done])
  {
    var mapped := Mapped(f, |before|, all[..done]);
    forall p | |before| <= p < |got|
      ensures got[p] == mapped[p - |before|]
    {
      assert mapped[p - |before|] == f(p, all[..done][p - |before|]);
    }
    assert forall p :: 0 <= p < |got| ==> got[p] == (before + mapped)[p];
  }

  /** The section a position belongs to. */
  function SectionAt(sections: seq<Section>, p: nat): Section
    requires sections != []
  {
    var last := sections[|sections| - 1];
    if p >= last.offset || |sections| == 1 then last else SectionAt(sections[..|sections| - 1], p)
  }

  lemma {:induction false} SectionAtInside(sections: seq<Section>, from: nat, to: nat, k: nat, p: nat)
    requires Tiles(sections, from, to) && k < |sections| && Inside(sections[k], p)
    ensures SectionAt(sections, p) == sections[k]
    decreases |sections|
  {
    var last, before := sections[|sections| - 1], sections[..|sections| - 1];
    TilesBelow(before, from, last.offset);
    if k < |before| {
      assert before[k] == sections[k];
      SectionAtInside(before, from, last.offset, k, p);
    }
  }

  /** Re-encryption of a whole NCA body: every byte with the stream of its own section. */
  function Recrypter(aes: Cipher, sections: seq<Section>): (nat, byte) -> byte
    requires sections != []
  {
    (p, b) => Recrypt(aes, SectionAt(sections, p), p, b)
  }

  /** Each section ends where the next begins, the first at `from` and the last at `to`. */
  ghost predicate Borders(sections: seq<Section>, from: nat, to: nat) {
    && sections != [] && sections[0].offset == from
    && (forall k :: 0 <= k < |sections| ==> sections[k].size > 0 && End(sections[k]) <= to)
    && (forall j, k :: 0 <= j < k < |sections| && k == j + 1 ==> End(sections[j]) == sections[k].offset)
    && End(sections[|sections| - 1]) == to
  }

  function End(s: Section): nat { s.offset + s.size }

  lemma {:induction false} TilesBorders(sections: seq<Section>, from: nat, to: nat)
    requires Tiles(sections, from, to) && sections != []
    ensures Borders(sections, from, to)
    decreases |sections|
  {
    var last, before := sections[|sections| - 1], sections[..|sections| - 1];
    if before != [] {
      TilesBorders(before, from, last.offset);
      assert forall k :: 0 <= k < |before| ==> sections[k] == before[k];
    }
  }

  /** `f` treats every position of a section with that section's own stream. */
  ghost predicate OfSection(f: (nat, byte) -> byte, aes: Cipher, s: Section) {
    forall p, b :: Inside(s, p) ==> f(p, b) == Recrypt(aes, s, p, b)
  }

  lemma {:induction false} RecrypterOfSection(aes: Cipher, sections: seq<Section>, from: nat, to: nat, k: nat)
    requires Tiles(sections, from, to) && k < |sections|
    ensures OfSection(Recrypter(aes, sections), aes, sections[k])
  {
    forall p, b | Inside(sections[k], p)
      ensures Recrypter(aes, sections)(p, b) == Recrypt(aes, sections[k], p, b)
    {
      SectionAtInside(sections, from, to, k, p);
    }
  }

  /** A piece inside one section, encrypted in place. */
  method CryptPiece(aes: Cipher, s: Section, ghost f: (nat, byte) -> byte, offset: nat, data: array<byte>, from: nat,
          amount: nat)
    requires from + amount <= data.Length && offset + amount <= LIMIT && OfSection(f, aes, s)
    requires s.offset <= offset && offset + amount <= s.offset + s.size
    modifies data
    ensures data[from..from + amount] == Mapped(f, offset, old(data[from..from + amount]))
    ensures forall i :: 0 <= i < from || from + amount <= i < data.Length ==> data[i] == old(data[i])
  {
    CryptCtr(aes, s, offset, data, from, amount);
    ghost var piece := old(data[from..from + amount]);
    ghost var mapped := Mapped(f, offset, piece);
    forall i | 0 <= i < amount
      ensures data[from + i] == mapped[i]
    {
      assert Inside(s, offset + i);
      assert piece[i] == old(data[from + i]);
    }
  }

  /** Whatever takes the rebuilt bytes. It may give up at any piece, and insists on consecutive ones. */
  class Sink {
    var bytes: seq<byte>
    var patience: nat

    constructor (patience: nat)
      ensures bytes == [] && this.patience == patience
    {
      bytes, this.patience := [], patience;
    }

    method Accept(offset: nat, piece: seq<byte>) returns (ok: bool)
      requires offset == |bytes|
      modifies this
      ensures ok <==> old(patience) > 0
      ensures bytes == if ok then old(bytes) + piece else old(bytes)
      ensures patience <= old(patience)
    {
      ok := patience > 0;
      if ok {
        bytes := bytes + piece;
        patience := patience - 1;
      }
    }
  }

  class NczOutput {
    const aes: Cipher
    const sections: seq<Section>
    const total: nat
    const sink: Sink
    var section: nat
    var offset: nat

    /** What the output does to each byte. */
    ghost const recrypt: (nat, byte) -> byte

    ghost predicate Shape()
      reads this
    {
      && Borders(sections, HEADER_SIZE, total) && total <= LIMIT
      && offset <= total && section <= |sections|
      && (section < |sections| ==> Inside(sections[section], offset))
      && (section == |sections| ==> offset == total)
      && (forall k :: 0 <= k < |sections| ==> OfSection(recrypt, aes, sections[k]))
    }

    ghost predicate Valid()
      reads this, sink
    {
      Shape() && |sink.bytes| == offset
    }

    constructor (aes: Cipher, sections: seq<Section>, total: nat, sink: Sink)
      requires sections != [] && Tiles(sections, HEADER_SIZE, total) && total <= LIMIT && |sink.bytes| == HEADER_SIZE
      ensures Valid() && this.sections == sections && this.total == total && this.sink == sink
      ensures offset == HEADER_SIZE && recrypt == Recrypter(aes, sections)
    {
      this.aes, this.sections, this.total, this.sink := aes, sections, total, sink;
      section, offset := 0, HEADER_SIZE;
      recrypt := Recrypter(aes, sections);
      new;
      TilesBorders(sections, HEADER_SIZE, total);
      forall k | 0 <= k < |sections|
        ensures OfSection(recrypt, aes, sections[k])
      {
        RecrypterOfSection(aes, sections, HEADER_SIZE, total, k);
      }
    }

    /** One piece that stays inside the current section. */
    method Piece(data: array<byte>, from: nat, amount: nat, ghost piece: seq<byte>) returns (ok: bool)
      requires Valid() && section < |sections| && from + amount <= data.Length && amount > 0
      requires data[from..from + amount] == piece
      requires offset + amount <= sections[section].offset + sections[section].size
      modifies this`section, this`offset, sink, data
      ensures Valid() && sink.patience <= old(sink.patience)
      ensures ok <==> old(sink.patience) > 0
      ensures offset == if ok then old(offset) + amount else old(offset)
      ensures sink.bytes == if ok then old(sink.bytes) + Mapped(recrypt, old(offset), piece) else old(sink.bytes)
      ensures forall i :: 0 <= i < from || from + amount <= i < data.Length ==> data[i] == old(data[i])
    {
      var current := sections[section];
      CryptPiece(aes, current, recrypt, offset, data, from, amount);
      ok := sink.Accept(offset, data[from..from + amount]);
      if !ok { return; }
      offset := offset + amount;
      if offset == current.offset + current.size { section := section + 1; }
    }

    /** One turn of the loop in `Write`: the rest of the data or of the current section, whichever ends first. */
    method Turn(data: array<byte>, size: nat, done: nat, ghost all: seq<byte>, ghost before: seq<byte>)
      returns (ok: bool, next: nat)
      requires done < size <= data.Length == |all| && Valid() && Extends(recrypt, before, all, done, sink.bytes)
              && section < |sections|
      requires forall i :: done <= i < data.Length ==> data[i] == all[i]
      modifies this`section, this`offset, sink, data
      ensures done <= next <= size && Valid() && Extends(recrypt, before, all, next, sink.bytes)
              && sink.patience <= old(sink.patience)
      ensures if ok then next > done else next == done && sink.patience == 0
      ensures ok ==> forall i :: next <= i < data.Length ==> data[i] == all[i]
    {
      var current := sections[section];
      var amount := Min(size - done, current.offset + current.size - offset);
      ExtendsOn(recrypt, before, all, done, done + amount, sink.bytes, all[done..done + amount]);
      ok := Piece(data, done, amount, all[done..done + amount]);
      next := if ok then done + amount else done;
    }

    /**
      `write`: succeeds exactly when everything fits before the end and the sink takes it; what has been
      delivered is, in order, each byte with the key stream of its own section and position.
     */
    method Write(data: array<byte>, size: nat) returns (ok: bool)
      requires Valid() && size <= data.Length
      modifies this`section, this`offset, sink, data
      ensures Valid() && old(offset) <= offset <= old(offset) + size
      ensures sink.bytes == old(sink.bytes) + Mapped(recrypt, old(offset), old(data[..])[..offset - old(offset)])
      ensures ok <==> offset == old(offset) + size
      ensures !ok ==> offset == total || sink.patience == 0
      ensures sink.patience <= old(sink.patience)
    {
      ok := WriteOn(data, size, data[..], sink.bytes);
      ExtendsMapped(recrypt, old(sink.bytes), old(data[..]), offset - old(offset), sink.bytes);
    }

    method WriteOn(data: array<byte>, size: nat, ghost all: seq<byte>, ghost before: seq<byte>) returns (ok: bool)
      requires Valid() && size <= data.Length && all == data[..] && before == sink.bytes
      modifies this`section, this`offset, sink, data
      ensures Valid() && old(offset) <= offset <= old(offset) + size
      ensures Extends(recrypt, before, all, offset - old(offset), sink.bytes)
      ensures ok <==> offset == old(offset) + size
      ensures !ok ==> offset == total || sink.patience == 0
      ensures sink.patience <= old(sink.patience)
    {
      var done := 0;
      while done < size
        invariant done <= size && Valid() && Extends(recrypt, before, all, done, sink.bytes)
        invariant sink.patience <= old(sink.patience)
        invariant forall i :: done <= i < data.Length ==> data[i] == all[i]
      {
        if section >= |sections| { return false; }
        ok, done := Turn(data, size, done, all, before);
        if !ok { return false; }
      }
      return true;
    }

    method Complete() returns (complete: bool)
      requires Valid()
      ensures complete <==> offset == total
    {
      complete := offset == total && section == |sections|;
    }
  }
}
