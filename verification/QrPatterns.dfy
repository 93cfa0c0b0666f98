/**
  The function patterns of a symbol, module by module: an independent description of what drawing them one
  over the other has to come to.
 */
module QrPatterns {
  import opened Bits
  import opened Common
  import opened QrArea
  import opened QrData
  import opened QrPlacement

  predicate BitSet(value: nat, index: nat) {
    (value / Pow2(index)) % 2 == 1
  }

  // ----- finders

  predicate FinderDark(row: int, column: int) {
    0 <= row <= 6 && 0 <= column <= 6
    && (row == 0 || row == 6 || column == 0 || column == 6 || (2 <= row <= 4 && 2 <= column <= 4))
  }

  /** The square of a finder pattern with its light border. */
  predicate InFinder(top: int, left: int, row: int, column: int) {
    top - 1 <= row <= top + 7 && left - 1 <= column <= left + 7
  }

  function FinderLayer(size: nat, r: int, c: int): Module {
    if InFinder(0, 0, r, c) then Set(FinderDark(r, c))
    else if InFinder(size - 7, 0, r, c) then Set(FinderDark(r - (size - 7), c))
    else if InFinder(0, size - 7, r, c) then Set(FinderDark(r, c - (size - 7)))
    else Unset
  }

  // ----- alignment

  predicate AlignmentDark(row: int, column: int) {
    row == -2 || row == 2 || column == -2 || column == 2 || (row == 0 && column == 0)
  }

  /** The center coordinate a coordinate inside an alignment pattern belongs to. */
  function NearCenter(version: nat, x: int): int {
    if x <= 8 then 6 else if version >= 7 && x <= MiddleCenter(version) + 2 then MiddleCenter(version)
        else SizeOf(version) - 7
  }

  function AlignmentModule(version: nat, r: int, c: int): Module {
    Set(AlignmentDark(r - NearCenter(version, r), c - NearCenter(version, c)))
  }

  function AlignmentLayer(version: nat, r: int, c: int): Module {
    if InSomeAlignment(version, r, c) then AlignmentModule(version, r, c) else FinderLayer(SizeOf(version), r, c)
  }

  // ----- timing

  predicate InTiming(size: nat, r: int, c: int) {
    (c == TIMING && 8 <= r < size - 8) || (r == TIMING && 8 <= c < size - 8)
  }

  function TimingLayer(version: nat, r: int, c: int): Module {
    var below := AlignmentLayer(version, r, c);
    if below == Unset && InTiming(SizeOf(version), r, c) then Set((if c == TIMING then r else c) % 2 == 0) else below
  }

  // ----- format information

  predicate InFormatColumn(size: nat, r: int, c: int) {
    c == 8 && (0 <= r <= 5 || 7 <= r <= 8 || size - 7 <= r < size)
  }

  predicate InFormatRow(size: nat, r: int, c: int) {
    r == 8 && (0 <= c <= 5 || c == 7 || size - 8 <= c < size)
  }

  /** Which bit of the format information a module of it shows. */
  function FormatIndex(size: nat, r: int, c: int): (i: nat)
    requires size >= 21 && (InFormatColumn(size, r, c) || InFormatRow(size, r, c))
    ensures i < 15
  {
    if InFormatColumn(size, r, c) then if r <= 5 then r else if r <= 8 then r - 1 else r - (size - 15)
    else if c >= size - 8 then size - 1 - c
    else if c == 7 then 8
    else 14 - c
  }

  function FormatLayer(version: nat, test: bool, code: nat, r: int, c: int): Module {
    var size := SizeOf(version);
    if size >= 21 && (InFormatColumn(size, r, c) || InFormatRow(size, r, c))
        then Set(!test && BitSet(code, FormatIndex(size, r, c)))
    else if r == size - 8 && c == 8 then Set(!test)
    else TimingLayer(version, r, c)
  }

  // ----- version information

  /** Which bit of the version information a module of it shows. */
  function VersionIndex(size: nat, r: int, c: int): int {
    if r <= 5 then 3 * r + (c - (size - 11)) else 3 * c + (r - (size - 11))
  }

  /** The function patterns of a symbol; what they leave free is `Unset`. */
  function PatternAt(version: nat, test: bool, formatCode: nat, versionCode: nat, r: int, c: int): Module {
    var i := VersionIndex(SizeOf(version), r, c);
    if version >= 7 && InVersion(SizeOf(version), r, c) && i >= 0 then Set(!test && BitSet(versionCode, i))
    else FormatLayer(version, test, formatCode, r, c)
  }

  /** Free is exactly what is not reserved. */
  lemma FreeIsOpen(version: nat, test: bool, formatCode: nat, versionCode: nat, r: int, c: int)
    requires Version(version) && OnBoard(SizeOf(version), r, c)
    ensures PatternAt(version, test, formatCode, versionCode, r, c) == Unset <==> !Reserved(version, r, c)
  {
  }

  // ----- the symbol they make

  function Blank(version: nat, test: bool, formatCode: nat, versionCode: nat): Symbol
    requires Version(version)
  {
    var size := SizeOf(version);
    seq(size * size, (p: nat) requires p < size * size => PatternAt(version, test, formatCode, versionCode, p / size,
        p % size))
  }

  lemma FlatDivides(size: nat, r: int, c: int)
    requires OnBoard(size, r, c)
    ensures 0 <= Flat(size, r, c) < size * size && Flat(size, r, c) / size == r && Flat(size, r, c) % size == c
  {
    FlatInside(size, r, c);
    QuotientIs(Flat(size, r, c), size, r, c);
    var p := Flat(size, r, c);
    assert p == (p / size) * size + p % size;
  }

  lemma BlankAt(version: nat, test: bool, formatCode: nat, versionCode: nat, r: int, c: int)
    requires Version(version) && OnBoard(SizeOf(version), r, c)
    ensures var s := Blank(version, test, formatCode, versionCode);
            OfSize(s, SizeOf(version)) && ModuleAt(s, SizeOf(version), r, c)
                == PatternAt(version, test, formatCode, versionCode, r, c)
  {
    FlatDivides(SizeOf(version), r, c);
  }

  /** The description determines the symbol. */
  lemma BlankIs(s: Symbol, version: nat, test: bool, formatCode: nat, versionCode: nat)
    requires Version(version) && OfSize(s, SizeOf(version))
    requires forall r, c {:trigger ModuleAt(s, SizeOf(version), r, c)} :: OnBoard(SizeOf(version), r, c) ==>
               ModuleAt(s, SizeOf(version), r, c) == PatternAt(version, test, formatCode, versionCode, r, c)
    ensures s == Blank(version, test, formatCode, versionCode)
  {
    var size := SizeOf(version);
    forall p | 0 <= p < size * size
      ensures s[p] == Blank(version, test, formatCode, versionCode)[p]
    {
      var r, c := FlatEverywhere(size, p);
      BlankAt(version, test, formatCode, versionCode, r, c);
      assert s[p] == ModuleAt(s, size, r, c);
    }
  }

  /** The free modules hold all codewords of the version. */
  lemma BlankHasRoom(version: nat, test: bool, formatCode: nat, versionCode: nat)
    requires Version(version)
    ensures var s := Blank(version, test, formatCode, versionCode);
            OfSize(s, SizeOf(version)) && 8 * CODEWORDS[version - 1]
                <= FreeBefore(s, SizeOf(version), Modules(SizeOf(version)))
  {
    var s := Blank(version, test, formatCode, versionCode);
    forall r, c | OnBoard(SizeOf(version), r, c) && !Reserved(version, r, c)
      ensures ModuleAt(s, SizeOf(version), r, c) == Unset
    {
      BlankAt(version, test, formatCode, versionCode, r, c);
      FreeIsOpen(version, test, formatCode, versionCode, r, c);
    }
    FreeEnough(s, version);
  }

  /** Without the information, as the masks are scored, its codes play no part. */
  lemma BlankTest(version: nat, formatCode: nat, versionCode: nat, formatCode': nat, versionCode': nat)
    requires Version(version)
    ensures Blank(version, true, formatCode, versionCode) == Blank(version, true, formatCode', versionCode')
  {
    var size := SizeOf(version);
    forall p | 0 <= p < size * size
      ensures Blank(version, true, formatCode, versionCode)[p] == Blank(version, true, formatCode', versionCode')[p]
    {
    }
  }
}
