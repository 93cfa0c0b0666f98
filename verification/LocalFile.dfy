module LocalFiles {
  // The logical file a download is written to: one regular file, or a directory of segment files that has to
  // behave like one flat sequence of bytes.

  import opened Common

  datatype StorageKind = Regular | Concatenated

  type Parts = map<nat, seq<byte>>

  // ----- segments

  /** The first flat position of segment `i`. */
  function Start(i: nat, segment: nat): nat {
    i * segment
  }

  /** A segment file holds the bytes of the flat file from `start` on, as many as fit. */
  ghost predicate Holds(part: seq<byte>, flat: seq<byte>, start: nat, segment: nat) {
    && start <= |flat|
    && |part| == Min(segment, |flat| - start)
    && forall k :: 0 <= k < |part| ==> part[k] == flat[start + k]
  }

  /** The directory holds exactly the non-empty slices: all segments but the last are full, none is empty. */
  ghost predicate Represents(parts: Parts, segment: nat, flat: seq<byte>) {
    && segment > 0
    && (forall i: nat {:trigger i in parts} :: i in parts <==> Start(i, segment) < |flat|)
    && (forall i: nat {:trigger parts[i]} :: i in parts ==> Holds(parts[i], flat, Start(i, segment), segment))
  }

  lemma {:induction false} StartsApart(i: nat, j: nat, segment: nat)
    requires i < j
    ensures Start(i, segment) + segment <= Start(j, segment)
  {
    assert j * segment == i * segment + segment + (j - i - 1) * segment;
  }

  /** The segment that holds a flat position, and the place inside it. */
  method Locate(offset: nat, segment: nat) returns (part: nat, local: nat)
    requires segment > 0
    ensures Start(part, segment) + local == offset && local < segment
  {
    part, local := offset / segment, offset % segment;
  }

  lemma {:induction false} LocateExists(offset: nat, segment: nat) returns (part: nat, local: nat)
    requires segment > 0
    ensures Start(part, segment) + local == offset && local < segment
  {
    part, local := offset / segment, offset % segment;
  }

  /** The segments determine the flat file. */
  lemma {:induction false} RepresentsOne(parts: Parts, segment: nat, a: seq<byte>, b: seq<byte>)
    requires Represents(parts, segment, a) && Represents(parts, segment, b)
    ensures a == b
  {
    SameLength(parts, segment, a, b);
    SameLength(parts, segment, b, a);
    forall p | 0 <= p < |a|
      ensures a[p] == b[p]
    {
      var i, local := LocateExists(p, segment);
      assert i in parts;
      assert a[Start(i, segment) + local] == parts[i][local] == b[Start(i, segment) + local];
    }
  }

  lemma {:induction false} SameLength(parts: Parts, segment: nat, a: seq<byte>, b: seq<byte>)
    requires Represents(parts, segment, a) && Represents(parts, segment, b)
    ensures |a| <= |b|
  {
    var i, _ := LocateExists(|b|, segment);
    assert i in parts <==> Start(i, segment) < |a|;
  }

  /** What the directory holds once `piece` has been written into segment `i`. */
  function Stored(parts: Parts, i: nat, local: nat, piece: seq<byte>): Parts
    requires local <= |if i in parts then parts[i] else []|
  {
    parts[i := Splice(if i in parts then parts[i] else [], local, piece)]
  }

  /** Writing a piece that stays inside one segment is writing it into the flat file. */
  lemma {:induction false} WritePart(parts: Parts, segment: nat, flat: seq<byte>, i: nat, local: nat, piece: seq<byte>)
    requires Represents(parts, segment, flat) && Start(i, segment) + local <= |flat|
    requires 0 < |piece| <= segment - local
    ensures local <= |if i in parts then parts[i] else []|
    ensures Represents(Stored(parts, i, local, piece), segment, Splice(flat, Start(i, segment) + local, piece))
  {
    assert local <= |if i in parts then parts[i] else []| by {
      assert i in parts <==> Start(i, segment) < |flat|;
    }
    forall j: nat
      ensures j in Stored(parts, i, local, piece) <==>
              Start(j, segment) < |Splice(flat, Start(i, segment) + local, piece)|
      ensures j in Stored(parts, i, local, piece) ==>
                Holds(Stored(parts, i, local, piece)[j], Splice(flat, Start(i, segment) + local, piece),
                    Start(j, segment), segment)
    {
      StoredPart(parts, segment, flat, i, local, piece, j);
    }
  }

  lemma {:induction false} StoredPart(parts: Parts, segment: nat, flat: seq<byte>, i: nat, local: nat, piece: seq<byte>,
          j: nat)
    requires Represents(parts, segment, flat) && Start(i, segment) + local <= |flat|
    requires 0 < |piece| <= segment - local && local <= |if i in parts then parts[i] else []|
    ensures j in Stored(parts, i, local, piece) <==>
            Start(j, segment) < |Splice(flat, Start(i, segment) + local, piece)|
    ensures j in Stored(parts, i, local, piece) ==>
              Holds(Stored(parts, i, local, piece)[j], Splice(flat, Start(i, segment) + local, piece),
                  Start(j, segment), segment)
  {
    var a, b := Start(i, segment), Start(j, segment);
    if j < i { StartsApart(j, i, segment); } else if i < j { StartsApart(i, j, segment); }
    assert j in parts <==> b < |flat|;
    var part := if j in parts then parts[j] else [];
    assert j in parts ==> Holds(part, flat, b, segment);
    PartAfterWrite(part, flat, segment, a, local, piece, b);
    var now := if a == b then Splice(part, local, piece) else part;
    assert j in Stored(parts, i, local, piece) ==> Stored(parts, i, local, piece)[j] == now;
    assert b < |Splice(flat, a + local, piece)| ==> Holds(now, Splice(flat, a + local, piece), b, segment);
  }

  /** The segment at `b`, before and after a write into the segment at `a`. */
  lemma PartAfterWrite(part: seq<byte>, flat: seq<byte>, segment: nat, a: nat, local: nat, piece: seq<byte>, b: nat)
    requires a + local <= |flat| && 0 < |piece| <= segment - local
    requires b + segment <= a || a + segment <= b || (a == b && local <= |part|)
    requires if b < |flat| then Holds(part, flat, b, segment) else part == []
    ensures var flat', part' := Splice(flat, a + local, piece), if a == b then Splice(part, local, piece) else part;
            if b < |flat'| then Holds(part', flat', b, segment) else part' == [] && b >= |flat|
  {
  }

  /** What the loop of `readAt` has gathered. */
  ghost predicate ReadSoFar(flat: seq<byte>, offset: nat, data: seq<byte>) {
    data == [] || (offset + |data| <= |flat| && data == flat[offset..offset + |data|])
  }

  /** The next piece comes out of the segment at `start`. */
  lemma ReadOn(part: seq<byte>, flat: seq<byte>, segment: nat, start: nat, offset: nat, data: seq<byte>, local: nat,
          chunk: nat)
    requires Holds(part, flat, start, segment) && ReadSoFar(flat, offset, data)
    requires start + local == offset + |data| && 0 < chunk && local + chunk <= |part|
    ensures ReadSoFar(flat, offset, data + part[local..local + chunk])
  {
    var more := data + part[local..local + chunk];
    forall k | 0 <= k < |more|
      ensures more[k] == flat[offset + k]
    {
      if k >= |data| { assert part[local + (k - |data|)] == flat[start + (local + (k - |data|))]; }
    }
  }

  /** What the loop of `truncate` has done to the segments below `index`. */
  ghost predicate CutUpTo(before: Parts, after: Parts, segment: nat, size: nat, index: nat) {
    && (forall i: nat :: i in after <==> i in before && (i >= index || Start(i, segment) < size))
    && (forall i: nat :: i in after ==> i in before && after[i] == if i < index
        then Cut(before[i], Start(i, segment), size) else before[i])
  }

  function Cut(part: seq<byte>, start: nat, size: nat): seq<byte> {
    if start <= size < start + |part| then part[..size - start] else part
  }

  /** One turn of the loop of `truncate`. */
  function CutTurn(parts: Parts, index: nat, fullParts: nat, remainder: nat): Parts
    requires index in parts && (index == fullParts ==> remainder <= |parts[index]|)
  {
    if index < fullParts then parts
    else if index == fullParts && remainder > 0 then parts[index := parts[index][..remainder]]
    else map i | i in parts && i != index :: parts[i]
  }

  lemma {:induction false} CutTurnKeeps(before: Parts, parts: Parts, segment: nat, size: nat, index: nat,
          fullParts: nat, remainder: nat)
    requires CutUpTo(before, parts, segment, size, index) && index in parts && |parts[index]| <= segment
    requires Start(fullParts, segment) + remainder == size && remainder < segment
    requires index == fullParts ==> remainder <= |parts[index]|
    ensures CutUpTo(before, CutTurn(parts, index, fullParts, remainder), segment, size, index + 1)
  {
    if index < fullParts { StartsApart(index, fullParts, segment); }
    if fullParts < index { StartsApart(fullParts, index, segment); }
  }

  lemma {:induction false} CutIsPrefix(before: Parts, after: Parts, segment: nat, flat: seq<byte>, size: nat,
          index: nat)
    requires Represents(before, segment, flat) && size <= |flat|
    requires CutUpTo(before, after, segment, size, index) && index !in before
    ensures Represents(after, segment, flat[..size])
  {
    forall i: nat
      ensures i in after <==> Start(i, segment) < size
      ensures i in after ==> Holds(after[i], flat[..size], Start(i, segment), segment)
    {
      if i in before && i > index { StartsApart(index, i, segment); }
    }
  }

  // ----- the file

  class LocalFile {
    const kind: StorageKind
    const segmentSize: nat
    const writable: bool
    var isOpen: bool

    // the regular file and its stream position
    var regular: seq<byte>
    var position: nat
    var nextWriteOffset: nat
    var nextWriteOffsetKnown: bool

    // the segment files by index
    var parts: Parts

    /** The flat file both representations stand for. */
    ghost var flat: seq<byte>

    ghost predicate Valid()
      reads this
    {
      match kind
      case Regular => flat == regular
      case Concatenated => Represents(parts, segmentSize, flat)
    }

    /** What a cached write position promises; a short `fwrite` breaks it. */
    predicate CacheRight()
      reads this
    {
      nextWriteOffsetKnown ==> position == nextWriteOffset
    }

    /** Where the next write at `offset` really lands. */
    function Landing(offset: nat): nat
      reads this
    {
      if kind.Regular? && nextWriteOffsetKnown && nextWriteOffset == offset then position else offset
    }

    /** An empty file, as `create` leaves it. */
    constructor Create(kind: StorageKind, segmentSize: nat)
      requires segmentSize > 0
      ensures Valid() && isOpen && writable && flat == [] && CacheRight()
      ensures this.kind == kind && this.segmentSize == segmentSize
    {
      this.kind, this.segmentSize, writable, isOpen := kind, segmentSize, true, true;
      regular, position, nextWriteOffset, nextWriteOffsetKnown := [], 0, 0, false;
      parts, flat := map[], [];
    }

    /** Succeeds exactly on ranges inside the file, and returns those bytes whatever borders they cross. */
    method ReadAt(offset: nat, amount: nat) returns (ok: bool, data: seq<byte>)
      requires Valid()
      modifies this`position, this`nextWriteOffsetKnown
      ensures Valid() && (old(CacheRight()) ==> CacheRight())
      ensures ok <==> isOpen && (offset + amount <= |flat| || amount == 0)
      ensures ok ==> data == if amount == 0 then [] else flat[offset..offset + amount]
    {
      data := [];
      if !isOpen { return false, data; }
      if kind.Concatenated? {
        ok, data := ReadParts(offset, amount);
        return ok, data;
      }
      nextWriteOffsetKnown := false;
      position := offset;
      if amount == 0 { return true, data; }
      if |regular| < offset + amount { return false, data; }
      data := regular[offset..offset + amount];
      position := offset + amount;
      return true, data;
    }

    /** The segment loop of `readAt`. */
    method ReadParts(offset: nat, amount: nat) returns (ok: bool, data: seq<byte>)
      requires Represents(parts, segmentSize, flat)
      ensures ok <==> offset + amount <= |flat| || amount == 0
      ensures ok ==> data == if amount == 0 then [] else flat[offset..offset + amount]
    {
      data := [];
      var remaining, at := amount, offset;
      while remaining > 0
        invariant 0 <= remaining <= amount && at == offset + (amount - remaining) == offset + |data|
        invariant ReadSoFar(flat, offset, data)
      {
        var part, local := Locate(at, segmentSize);
        var chunk := Min(remaining, segmentSize - local);
        if part !in parts { return false, data; }
        assert Holds(parts[part], flat, Start(part, segmentSize), segmentSize);
        if |parts[part]| < local + chunk { return false, data; }
        ReadOn(parts[part], flat, segmentSize, Start(part, segmentSize), offset, data, local, chunk);
        data := data + parts[part][local..local + chunk];
        at, remaining := at + chunk, remaining - chunk;
      }
      return true, data;
    }

    /**
      `limit` is how many bytes the device takes before it fails. The bytes land where the cached
      position says; with a right cache that is `offset`. After a short write a cache that was in use
      is wrong by the number of bytes that got out.
     */
    method WriteAt(offset: nat, data: seq<byte>, limit: nat) returns (ok: bool)
      requires Valid() && offset <= |flat| && Landing(offset) <= |flat|
      modifies this`regular, this`position, this`nextWriteOffset, this`nextWriteOffsetKnown, this`parts, this`flat
      ensures Valid()
      ensures ok <==> isOpen && writable && |data| <= limit
      ensures flat == if isOpen && writable then Splice(old(flat), old(Landing(offset)), data[..Min(limit, |data|)])
              else old(flat)
      ensures old(CacheRight()) ==> old(Landing(offset)) == offset
      ensures old(CacheRight()) && (kind.Concatenated? || ok) ==> CacheRight()
      ensures kind.Regular? && isOpen && writable && !ok ==>
                nextWriteOffsetKnown == old(nextWriteOffsetKnown) && nextWriteOffset == old(nextWriteOffset)
                && position == old(Landing(offset)) + limit
      ensures ok ==> Landing(offset + |data|) == old(Landing(offset)) + |data|
      ensures !ok ==> old(Landing(offset)) <= Landing(offset) <= |flat|
    {
      if !isOpen || !writable { return false; }
      if kind.Concatenated? {
        ok := WriteParts(offset, data, limit);
        return ok;
      }
      if !nextWriteOffsetKnown || nextWriteOffset != offset {
        position := offset;
      }
      var taken := Min(limit, |data|);
      regular := Splice(regular, position, data[..taken]);
      flat := regular;
      position := position + taken;
      if taken < |data| { return false; }
      nextWriteOffset := offset + |data|;
      nextWriteOffsetKnown := true;
      return true;
    }

    /** The segment loop of `writeAt`. */
    method WriteParts(offset: nat, data: seq<byte>, limit: nat) returns (ok: bool)
      requires Represents(parts, segmentSize, flat) && offset <= |flat|
      modifies this`parts, this`flat
      ensures Represents(parts, segmentSize, flat)
      ensures ok <==> |data| <= limit
      ensures flat == Splice(old(flat), offset, data[..Min(limit, |data|)])
    {
      var done := 0;
      assert flat == Splice(flat, offset, data[..0]);
      while done < |data|
        invariant 0 <= done <= |data| && done <= limit
        invariant Represents(parts, segmentSize, flat) && flat == Splice(old(flat), offset, data[..done])
      {
        var part, local := Locate(offset + done, segmentSize);
        var chunk := Min(|data| - done, segmentSize - local);
        var next := Min(done + chunk, limit);
        if done < next {
          SpliceOn(old(flat), offset, data, done, next);
          WritePiece(part, local, data[done..next]);
        }
        if next < done + chunk { return false; }
        done := next;
      }
      assert data[..done] == data;
      return true;
    }

    /** One turn of the loop: what `fwrite` puts into one segment. */
    method WritePiece(part: nat, local: nat, piece: seq<byte>)
      requires Represents(parts, segmentSize, flat)
      requires Start(part, segmentSize) + local <= |flat| && 0 < |piece| <= segmentSize - local
      modifies this`parts, this`flat
      ensures Represents(parts, segmentSize, flat)
      ensures flat == Splice(old(flat), Start(part, segmentSize) + local, piece)
    {
      WritePart(parts, segmentSize, flat, part, local, piece);
      var stored := Stored(parts, part, local, piece);
      ghost var written := Splice(flat, Start(part, segmentSize) + local, piece);
      parts, flat := stored, written;
    }

    /** The sum of the segments, or the end of the regular file. */
    method Size() returns (ok: bool, out: nat)
      requires Valid()
      modifies this`position, this`nextWriteOffset, this`nextWriteOffsetKnown
      ensures Valid() && (old(CacheRight()) ==> CacheRight())
      ensures ok <==> isOpen
      ensures ok ==> out == |flat|
      ensures ok && kind.Regular? ==> position == nextWriteOffset == out && nextWriteOffsetKnown == writable
    {
      out := 0;
      if !isOpen { return false, out; }
      if kind.Concatenated? {
        var index := 0;
        while true
          invariant Valid() && out == Start(index, segmentSize) <= |flat|
          invariant nextWriteOffsetKnown == old(nextWriteOffsetKnown)
          invariant position == old(position) && nextWriteOffset == old(nextWriteOffset)
          decreases |flat| - out
        {
          if index !in parts { return true, out; }
          assert Holds(parts[index], flat, Start(index, segmentSize), segmentSize);
          var partSize := |parts[index]|;
          if partSize > segmentSize { return false, out; }
          out := out + partSize;
          if partSize < segmentSize { return true, out; }
          StartsApart(index, index + 1, segmentSize);
          index := index + 1;
        }
      }
      position := |regular|;
      out := position;
      nextWriteOffset, nextWriteOffsetKnown := out, writable;
      return true, out;
    }

    /** Cuts the file to a prefix. */
    method Truncate(size: nat) returns (ok: bool)
      requires Valid() && size <= |flat|
      modifies this`regular, this`parts, this`flat, this`nextWriteOffsetKnown
      ensures Valid() && (old(CacheRight()) ==> CacheRight())
      ensures ok <==> isOpen && writable
      ensures flat == if ok then old(flat)[..size] else old(flat)
    {
      if !isOpen || !writable { return false; }
      if kind.Concatenated? {
        TruncateParts(size);
        return true;
      }
      nextWriteOffsetKnown := false;
      regular := regular[..size];
      flat := regular;
      return true;
    }

    /** The segment loop of `truncate`. */
    method TruncateParts(size: nat)
      requires Represents(parts, segmentSize, flat) && size <= |flat|
      modifies this`parts, this`flat
      ensures Represents(parts, segmentSize, flat)
      ensures flat == old(flat)[..size]
    {
      var fullParts, remainder := Locate(size, segmentSize);
      var index := 0;
      while index in parts
        invariant CutUpTo(old(parts), parts, segmentSize, size, index)
        invariant flat == old(flat) && Represents(old(parts), segmentSize, flat)
        decreases |flat| - Start(index, segmentSize)
      {
        assert Holds(old(parts)[index], flat, Start(index, segmentSize), segmentSize);
        StartsApart(index, index + 1, segmentSize);
        CutTurnKeeps(old(parts), parts, segmentSize, size, index, fullParts, remainder);
        parts := CutTurn(parts, index, fullParts, remainder);
        index := index + 1;
      }
      CutIsPrefix(old(parts), parts, segmentSize, flat, size, index);
      flat := flat[..size];
    }
  }

  /**
    A short `fwrite` moves the stream but not the cached position, so writing the same bytes again at
    the same offset puts them behind the part that got out the first time.
   */
  method RetryAfterShortWrite(file: LocalFile, data: seq<byte>, limit: nat)
    requires file.Valid() && file.kind.Regular? && file.isOpen && file.writable && file.CacheRight()
    requires limit < |data|
    modifies file
    ensures file.flat == old(file.flat) + data[..limit] + data
    ensures file.flat == old(file.flat) + data <==> limit == 0
  {
    ghost var before := file.flat;
    var sized, end := file.Size();
    var first := file.WriteAt(end, data, limit);
    SpliceAtEnd(before, data[..limit]);
    ghost var half := file.flat;
    assert half == before + data[..limit] && file.Landing(end) == |half|;
    var second := file.WriteAt(end, data, |data|);
    assert data[..|data|] == data;
    SpliceAtEnd(half, data);
    assert |half + data| == |before| + limit + |data|;
    if limit == 0 { assert half == before; }
  }
}
