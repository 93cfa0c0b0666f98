module QrPlacement {
  // Placing the codewords in the symbol: pairs of columns from right to left, up and down in turn, column 6 left
  // out, every bit masked (sections 7.7.3 and 7.8.2 of ISO/IEC 18004:2015).

  import opened Common
  import opened Bits
  import opened QrData

  /** A module nobody has written yet, or a light or dark one. */
  datatype Module = Unset | Set(dark: bool)

  const TIMING: nat := 6

  predicate OnBoard(size: nat, row: int, column: int) {
    0 <= row < size && 0 <= column < size
  }

  /** The sizes of symbols. */
  predicate SymbolSize(size: nat) {
    size >= 21 && size % 4 == 1
  }

  // ----- the order of the modules

  /** The right column of the pair number `j`. */
  function PairColumn(size: nat, j: nat): int {
    if size - 1 - 2 * j > TIMING then size - 1 - 2 * j else size - 2 - 2 * j
  }

  /** Row number `step` of a pair; every other pair runs downwards. */
  function RowAt(size: nat, j: nat, step: nat): int {
    if j % 2 == 0 then size - 1 - step else step
  }

  /** The place in the order of a pair, a step in it and the left or right module of the step. */
  function Number(size: nat, j: nat, step: nat, offset: nat): nat {
    PairStart(size, j) + (2 * step + offset)
  }

  /** The number of the first module of a pair. */
  function PairStart(size: nat, j: nat): nat {
    if j == 0 then 0 else PairStart(size, j - 1) + 2 * size
  }

  lemma {:induction false} PairStartIs(size: nat, j: nat)
    ensures PairStart(size, j) == j * (2 * size)
  {
    if j > 0 {
      PairStartIs(size, j - 1);
      assert j * (2 * size) == (j - 1) * (2 * size) + 2 * size;
    }
  }

  function PairOf(size: nat, column: int): int {
    if column > TIMING then (size - 1 - column) / 2 else (size - 2 - column) / 2
  }

  function OffsetOf(size: nat, column: int): int {
    if column > TIMING then (size - 1 - column) % 2 else (size - 2 - column) % 2
  }

  function StepOf(size: nat, j: int, row: int): int {
    if j % 2 == 0 then size - 1 - row else row
  }

  /** Where a module stands in the order. */
  function Index(size: nat, row: int, column: int): nat
    requires SymbolSize(size) && OnBoard(size, row, column) && column != TIMING
  {
    var j := PairOf(size, column);
    Number(size, j, StepOf(size, j, row), OffsetOf(size, column))
  }

  function Row(size: nat, k: nat): int
    requires size > 0
  {
    RowAt(size, k / (2 * size), k % (2 * size) / 2)
  }

  function Col(size: nat, k: nat): int
    requires size > 0
  {
    PairColumn(size, k / (2 * size)) - k % (2 * size) % 2
  }

  /** A pair, a step and an offset are what division gives back. */
  lemma NumberParts(size: nat, j: nat, step: nat, offset: nat, k: nat)
    requires size > 0 && step < size && offset < 2 && k == Number(size, j, step, offset)
    ensures k / (2 * size) == j && k % (2 * size) == 2 * step + offset
    ensures k % (2 * size) / 2 == step && k % (2 * size) % 2 == offset
  {
    PairStartIs(size, j);
    QuotientIs(k, 2 * size, j, 2 * step + offset);
    assert k == (k / (2 * size)) * (2 * size) + k % (2 * size);
  }

  lemma Halves(n: nat)
    ensures n == 2 * (n / 2) + n % 2 && n % 2 < 2
  {
  }

  lemma ColumnParts(size: nat, column: int)
    requires SymbolSize(size) && 0 <= column < size && column != TIMING
    ensures var j, offset := PairOf(size, column), OffsetOf(size, column);
            && 0 <= j < Pairs(size) && 0 <= offset < 2 && PairColumn(size, j) - offset == column
  {
    Halves(size - 1);
    if column > TIMING { Halves(size - 1 - column); } else { Halves(size - 2 - column); }
  }

  lemma PairParts(size: nat, j: nat, offset: nat)
    requires SymbolSize(size) && j < Pairs(size) && offset < 2
    ensures var column := PairColumn(size, j) - offset;
            && 0 <= column < size && column != TIMING && PairOf(size, column) == j && OffsetOf(size, column) == offset
  {
    Halves(size - 1);
  }

  /** How many modules there are outside the timing column. */
  function Modules(size: nat): nat {
    PairStart(size, Pairs(size))
  }

  function Pairs(size: nat): nat {
    if size == 0 then 0 else (size - 1) / 2
  }

  lemma PairsDouble(size: nat)
    requires SymbolSize(size)
    ensures 2 * Pairs(size) == size - 1
  {
    Halves(size - 1);
  }

  lemma MulGrows(j: nat, h: nat, w: nat)
    requires j <= h
    ensures j * w <= h * w
  {
    assert (h - j) * w >= 0;
  }

  lemma MulBelow(j: nat, h: nat, w: nat, rest: nat)
    requires rest < w
    ensures j < h <==> j * w + rest < h * w
  {
    if j < h {
      MulGrows(j + 1, h, w);
      assert (j + 1) * w == j * w + w;
    } else {
      MulGrows(h, j, w);
    }
  }

  lemma NumberBelow(size: nat, j: nat, step: nat, offset: nat)
    requires j < Pairs(size) && step < size && offset < 2
    ensures Number(size, j, step, offset) < Modules(size)
  {
    PairStartIs(size, j);
    PairStartIs(size, Pairs(size));
    MulBelow(j, Pairs(size), 2 * size, 2 * step + offset);
  }

  /** Every module outside the timing column comes up, at its index. */
  lemma ModuleAtIndex(size: nat, row: int, column: int)
    requires SymbolSize(size) && OnBoard(size, row, column) && column != TIMING
    ensures var k := Index(size, row, column);
            k < Modules(size) && Row(size, k) == row && Col(size, k) == column
  {
    ColumnParts(size, column);
    var j, offset := PairOf(size, column), OffsetOf(size, column);
    var step := StepOf(size, j, row);
    NumberParts(size, j, step, offset, Number(size, j, step, offset));
    NumberBelow(size, j, step, offset);
  }

  lemma IndexOfStep(size: nat, j: nat, step: nat, offset: nat)
    requires SymbolSize(size) && j < Pairs(size) && step < size && offset < 2
    ensures var k, row, column := Number(size, j, step, offset), RowAt(size, j, step), PairColumn(size, j) - offset;
            && OnBoard(size, row, column) && column != TIMING
            && Row(size, k) == row && Col(size, k) == column && Index(size, row, column) == k
  {
    PairParts(size, j, offset);
    NumberParts(size, j, step, offset, Number(size, j, step, offset));
  }

  lemma Divide(k: nat, w: nat) returns (j: nat, rest: nat)
    requires w > 0
    ensures k == j * w + rest && rest < w
  {
    j, rest := k / w, k % w;
  }

  /** And it comes up only there: the order is a bijection between numbers and modules outside the timing column. */
  lemma IndexAtNumber(size: nat, k: nat)
    requires SymbolSize(size) && k < Modules(size)
    ensures OnBoard(size, Row(size, k), Col(size, k)) && Col(size, k) != TIMING
    ensures Index(size, Row(size, k), Col(size, k)) == k
  {
    var j, rest := Divide(k, 2 * size);
    PairStartIs(size, j);
    PairStartIs(size, Pairs(size));
    MulBelow(j, Pairs(size), 2 * size, rest);
    Halves(rest);
    IndexOfStep(size, j, rest / 2, rest % 2);
  }

  // ----- the symbol

  /** Where a module stands in the vector. */
  function Flat(size: nat, row: int, column: int): int {
    row * size + column
  }

  lemma FlatInside(size: nat, row: int, column: int)
    requires OnBoard(size, row, column)
    ensures 0 <= Flat(size, row, column) < size * size
  {
    MulGrows(row + 1, size, size);
    assert (row + 1) * size == row * size + size;
  }

  lemma FlatApart(size: nat, row: int, column: int, row': int, column': int)
    requires OnBoard(size, row, column) && OnBoard(size, row', column')
    ensures Flat(size, row, column) == Flat(size, row', column') <==> row == row' && column == column'
  {
    if row < row' {
      MulGrows(row + 1, row', size);
      assert (row + 1) * size == row * size + size;
    } else if row' < row {
      MulGrows(row' + 1, row, size);
      assert (row' + 1) * size == row' * size + size;
    }
  }

  /** Every place of the vector is some module's. */
  lemma FlatEverywhere(size: nat, p: nat) returns (row: int, column: int)
    requires p < size * size && size > 0
    ensures OnBoard(size, row, column) && Flat(size, row, column) == p
  {
    row, column := Divide(p, size);
    MulBelow(row, size, size, column);
  }

  type Symbol = seq<Module>

  predicate OfSize(s: Symbol, size: nat) {
    |s| == size * size && SymbolSize(size)
  }

  function ModuleAt(s: Symbol, size: nat, row: int, column: int): Module
    requires OfSize(s, size) && OnBoard(size, row, column)
  {
    FlatInside(size, row, column);
    s[Flat(size, row, column)]
  }

  function NumberedModule(s: Symbol, size: nat, k: nat): Module
    requires OfSize(s, size) && k < Modules(size)
  {
    IndexAtNumber(size, k);
    ModuleAt(s, size, Row(size, k), Col(size, k))
  }

  /** The mask patterns. */
  predicate Masked(mask: nat, row: nat, column: nat) {
    match mask
    case 0 => (row + column) % 2 == 0
    case 1 => row % 2 == 0
    case 2 => column % 3 == 0
    case 3 => (row + column) % 3 == 0
    case 4 => (row / 2 + column / 3) % 2 == 0
    case 5 => row * column % 2 + row * column % 3 == 0
    case 6 => (row * column % 2 + row * column % 3) % 2 == 0
    case _ => (row * column % 3 + (row + column) % 2) % 2 == 0
  }

  /** How many of the first `k` modules in the order are free. */
  function FreeBefore(start: Symbol, size: nat, k: nat): nat
    requires OfSize(start, size) && k <= Modules(size)
  {
    if k == 0 then 0 else FreeBefore(start, size, k - 1) + if NumberedModule(start, size, k - 1).Unset? then 1 else 0
  }

  /** Bit number `n`, or a light module once the bits have run out. */
  predicate BitOr(bits: seq<bool>, n: nat) {
    n < |bits| && bits[n]
  }

  /** What a module holds once the first `k` modules of the order have been visited. */
  function Expected(start: Symbol, size: nat, bits: seq<bool>, mask: nat, k: nat, row: int, column: int): Module
    requires OfSize(start, size) && k <= Modules(size) && OnBoard(size, row, column)
  {
    var before := ModuleAt(start, size, row, column);
    if before.Set? || column == TIMING || Index(size, row, column) >= k then before
    else Set(BitOr(bits, FreeBefore(start, size, Index(size, row, column))) != Masked(mask, row, column))
  }

  ghost predicate Placed(start: Symbol, now: Symbol, size: nat, bits: seq<bool>, mask: nat, k: nat) {
    && OfSize(start, size) && OfSize(now, size) && k <= Modules(size)
    && forall row, column {:trigger ModuleAt(now, size, row, column)} :: OnBoard(size, row, column) ==>
         ModuleAt(now, size, row, column) == Expected(start, size, bits, mask, k, row, column)
  }

  lemma {:induction false} PlacedStart(start: Symbol, size: nat, bits: seq<bool>, mask: nat)
    requires OfSize(start, size)
    ensures Placed(start, start, size, bits, mask, 0)
  {
  }

  /** Visiting the next module. */
  lemma {:induction false} PlacedOn(start: Symbol, now: Symbol, next: Symbol, size: nat, bits: seq<bool>, mask: nat,
          k: nat, row: int, column: int)
    requires Placed(start, now, size, bits, mask, k) && k < Modules(size)
    requires OnBoard(size, row, column) && column != TIMING && Index(size, row, column) == k
    requires var before := ModuleAt(now, size, row, column);
             && 0 <= Flat(size, row, column) < |now|
             && next == now[Flat(size, row, column) :=
                              if before.Set? then before else Set(BitOr(bits,
                                  FreeBefore(start, size, k)) != Masked(mask, row, column))]
    ensures Placed(start, next, size, bits, mask, k + 1)
  {
    forall r, c | OnBoard(size, r, c)
      ensures ModuleAt(next, size, r, c) == Expected(start, size, bits, mask, k + 1, r, c)
    {
      FlatInside(size, r, c);
      if r == row && c == column {
        assert ModuleAt(now, size, r, c) == Expected(start, size, bits, mask, k, r, c);
      } else {
        FlatApart(size, r, c, row, column);
        assert ModuleAt(next, size, r, c) == ModuleAt(now, size, r, c);
        if c != TIMING && Index(size, r, c) == k {
          ModuleAtIndex(size, r, c);
          ModuleAtIndex(size, row, column);
        }
      }
    }
  }

  // ----- what comes out

  /** Nothing set before has changed, and every free module outside the timing column has been written. */
  lemma {:induction false} PlacedKeeps(start: Symbol, now: Symbol, size: nat, bits: seq<bool>, mask: nat)
    requires Placed(start, now, size, bits, mask, Modules(size))
    requires forall row :: 0 <= row < size ==> ModuleAt(start, size, row, TIMING).Set?
    ensures forall p {:trigger now[p]} :: 0 <= p < |start| ==> now[p].Set? && (start[p].Set? ==> now[p] == start[p])
  {
    forall p | 0 <= p < |start|
      ensures now[p].Set? && (start[p].Set? ==> now[p] == start[p])
    {
      var row, column := FlatEverywhere(size, p);
      assert ModuleAt(now, size, row, column) == Expected(start, size, bits, mask, Modules(size), row, column);
      if column != TIMING { ModuleAtIndex(size, row, column); }
    }
  }

  /** Reading the symbol again in the same order, taking the mask off the modules that were free. */
  function ReadBits(start: Symbol, now: Symbol, size: nat, mask: nat, k: nat): (bits: seq<bool>)
    requires OfSize(start, size) && OfSize(now, size) && k <= Modules(size)
    ensures |bits| == FreeBefore(start, size, k)
  {
    if k == 0 then []
    else
      var before := ReadBits(start, now, size, mask, k - 1);
      if NumberedModule(start, size, k - 1).Set? then before
      else
        IndexAtNumber(size, k - 1);
        before + [(NumberedModule(now, size, k - 1) == Set(true)) != Masked(mask, Row(size, k - 1), Col(size, k - 1))]
  }

  /** Reading gives the bits back, and light modules behind them. */
  lemma {:induction false} ReadIsPlaced(start: Symbol, now: Symbol, size: nat, bits: seq<bool>, mask: nat, k: nat)
    requires Placed(start, now, size, bits, mask, Modules(size)) && k <= Modules(size)
    ensures forall n {:trigger ReadBits(start, now, size, mask, k)[n]} :: 0 <= n < FreeBefore(start, size, k) ==>
              ReadBits(start, now, size, mask, k)[n] == BitOr(bits, n)
  {
    if k > 0 {
      ReadIsPlaced(start, now, size, bits, mask, k - 1);
      IndexAtNumber(size, k - 1);
      var row, column := Row(size, k - 1), Col(size, k - 1);
      assert ModuleAt(now, size, row, column) == Expected(start, size, bits, mask, Modules(size), row, column);
    }
  }

  /** The bytes the first bits stand for. */
  function FirstBytes(bits: seq<bool>, n: nat): seq<byte>
    requires 8 * n <= |bits|
  {
    EightTimes(n);
    BytesOf(bits[..8 * n])
  }

  lemma EightTimes(n: nat)
    ensures (8 * n) % 8 == 0
  {
  }

  /** Every sequence of codewords that fits into the free modules comes back. */
  lemma {:induction false} SymbolReadBack(start: Symbol, now: Symbol, size: nat, data: seq<byte>, mask: nat)
    requires Placed(start, now, size, BytesBits(data), mask, Modules(size))
    requires 8 * |data| <= FreeBefore(start, size, Modules(size))
    ensures FirstBytes(ReadBits(start, now, size, mask, Modules(size)), |data|) == data
  {
    var read := ReadBits(start, now, size, mask, Modules(size));
    ReadIsPlaced(start, now, size, BytesBits(data), mask, Modules(size));
    forall n | 0 <= n < 8 * |data|
      ensures read[n] == BytesBits(data)[n]
    {
    }
    assert read[..8 * |data|] == BytesBits(data);
    BytesReadBack(data);
  }

  // ----- the loop

  lemma {:induction false} BitOfBytes(data: seq<byte>, n: nat)
    requires n < 8 * |data|
    ensures n / 8 < |data| && BytesBits(data)[n] == ((data[n / 8] / Pow2(7 - n % 8)) % 2 == 1)
  {
    var before := data[..|data| - 1];
    if n < 8 * |before| {
      BitOfBytes(before, n);
    } else {
      LastByte(n, |before|);
      BitAt(data[|before|], BYTE_BITS, n - 8 * |before|);
    }
  }

  lemma LastByte(n: nat, m: nat)
    requires 8 * m <= n < 8 * m + 8
    ensures n / 8 == m && n % 8 == n - 8 * m
  {
  }

  /** The bit counters of the loop: byte and bit of bit number `n`. */
  predicate Counters(n: nat, at: nat, bit: nat) {
    bit <= 7 && n == 8 * at + (7 - bit)
  }

  /** The bit the loop places next. */
  method NextBit(data: seq<byte>, at: nat, bit: nat, ghost n: nat) returns (dark: bool)
    requires Counters(n, at, bit)
    ensures dark == BitOr(BytesBits(data), n)
  {
    dark := at < |data| && (data[at] / Pow2(bit)) % 2 == 1;
    LastByte(n, at);
    if at < |data| { BitOfBytes(data, n); }
  }

  /** The state of the loop when module number `k` comes next. */
  ghost predicate Going(start: Symbol, modules: array<Module>, size: nat, data: seq<byte>, mask: nat, k: nat, at: nat,
          bit: nat)
    reads modules
  {
    && Placed(start, modules[..], size, BytesBits(data), mask, k)
    && Counters(FreeBefore(start, size, k), at, bit)
  }

  /** The body of the inner loop: one module. */
  method PlaceOne(modules: array<Module>, size: nat, row: int, column: int, data: seq<byte>, mask: nat, at: nat,
                  bit: nat, ghost start: Symbol, ghost k: nat)
    returns (at': nat, bit': nat)
    requires Going(start, modules, size, data, mask, k, at, bit) && k < Modules(size)
    requires OnBoard(size, row, column) && column != TIMING && Index(size, row, column) == k
    modifies modules
    ensures Going(start, modules, size, data, mask, k + 1, at', bit')
  {
    FlatInside(size, row, column);
    ghost var before := modules[..];
    var p := Flat(size, row, column);
    at', bit' := at, bit;
    ModuleAtIndex(size, row, column);
    assert ModuleAt(before, size, row, column) == Expected(start, size, BytesBits(data), mask, k, row, column);
    if modules[p] == Unset {
      var dark := NextBit(data, at, bit, FreeBefore(start, size, k));
      if Masked(mask, row, column) { dark := !dark; }
      modules[p] := Set(dark);
      if bit == 0 { at', bit' := at + 1, 7; } else { bit' := bit - 1; }
    }
    PlacedOn(start, before, modules[..], size, BytesBits(data), mask, k, row, column);
  }

  lemma NextParity(j: nat)
    ensures (j + 1) % 2 == 0 <==> j % 2 != 0
  {
  }

  /** The inner loop: one pair of columns, from the row given in the direction given. */
  method PlacePair(modules: array<Module>, size: nat, column: int, data: seq<byte>, mask: nat, at: nat, bit: nat,
                   row: int, direction: int, ghost start: Symbol, ghost j: nat)
    returns (at': nat, bit': nat, row': int, direction': int)
    requires j < Pairs(size) && column == PairColumn(size, j) && direction == (if j % 2 == 0 then -1 else 1)
            && row == RowAt(size, j, 0)
    requires Going(start, modules, size, data, mask, PairStart(size, j), at, bit)
    modifies modules
    ensures Going(start, modules, size, data, mask, PairStart(size, j + 1), at', bit')
    ensures direction' == -direction && row' == RowAt(size, j + 1, 0)
  {
    at', bit', row', direction' := at, bit, row, direction;
    ghost var step: nat := 0;
    NextParity(j);
    while true
      invariant step < size && row' == RowAt(size, j, step) && direction' == direction
      invariant Going(start, modules, size, data, mask, Number(size, j, step, 0), at', bit')
      decreases size - step
    {
      at', bit' := PlaceStep(modules, size, row', column, data, mask, at', bit', start, j, step);
      row' := row' + direction';
      step := step + 1;
      if row' < 0 || row' == size {
        row', direction' := row' - direction', -direction';
        return;
      }
    }
  }

  /** The two modules of a step. */
  method PlaceStep(modules: array<Module>, size: nat, row: int, column: int, data: seq<byte>, mask: nat, at: nat,
                   bit: nat, ghost start: Symbol, ghost j: nat, ghost step: nat)
    returns (at': nat, bit': nat)
    requires j < Pairs(size) && step < size && column == PairColumn(size, j) && row == RowAt(size, j, step)
    requires Going(start, modules, size, data, mask, Number(size, j, step, 0), at, bit)
    modifies modules
    ensures Going(start, modules, size, data, mask, Number(size, j, step + 1, 0), at', bit')
  {
    at', bit' := at, bit;
    for offset := 0 to 2
      invariant Going(start, modules, size, data, mask, Number(size, j, step, 0) + offset, at', bit')
    {
      NumberBelow(size, j, step, offset);
      IndexOfStep(size, j, step, offset);
      at', bit' := PlaceOne(modules, size, row, column - offset, data, mask, at', bit', start,
          Number(size, j, step, offset));
    }
  }

  /** The loop over the columns. */
  method PlaceAll(modules: array<Module>, size: nat, data: seq<byte>, mask: nat)
    requires OfSize(modules[..], size)
    modifies modules
    ensures Placed(old(modules[..]), modules[..], size, BytesBits(data), mask, Modules(size))
  {
    ghost var start := modules[..];
    var row, direction, bit: nat, at: nat := size - 1, -1, 7, 0;
    var column := size - 1;
    ghost var j: nat := 0;
    PlacedStart(start, size, BytesBits(data), mask);
    PairsDouble(size);
    while column > 0
      invariant j <= Pairs(size) && column == (if size - 1 - 2 * j >= TIMING then size - 1 - 2 * j
              else size - 2 - 2 * j)
      invariant direction == (if j % 2 == 0 then -1 else 1) && row == RowAt(size, j, 0)
      invariant Going(start, modules, size, data, mask, PairStart(size, j), at, bit)
      decreases column
    {
      if column == 6 { column := column - 1; }
      NextParity(j);
      at, bit, row, direction := PlacePair(modules, size, column, data, mask, at, bit, row, direction, start, j);
      column, j := column - 2, j + 1;
    }
  }
}
