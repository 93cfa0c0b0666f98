module QrSymbol {
  // Building a symbol: function patterns first, then the codewords; and `encode`, which picks version and mask.
  // The penalty score and the two check codes of the format and version information are parameters.

  import opened Bits
  import opened Common
  import opened QrArea
  import opened QrData
  import opened QrPatterns
  import opened QrPlacement
  import opened ReedSolomon

  /** `set`. */
  method SetModule(modules: array<Module>, size: nat, row: int, column: int, dark: bool)
    requires OfSize(modules[..], size) && OnBoard(size, row, column)
    modifies modules
    ensures OfSize(modules[..], size) && ModuleAt(modules[..], size, row, column) == Set(dark)
    ensures forall r, c {:trigger ModuleAt(modules[..], size, r, c)} ::
            OnBoard(size, r, c) && !(r == row && c == column) ==>
              ModuleAt(modules[..], size, r, c) == ModuleAt(old(modules[..]), size, r, c)
  {
    FlatInside(size, row, column);
    ghost var before := modules[..];
    modules[row * size + column] := Set(dark);
    forall r, c | OnBoard(size, r, c) && !(r == row && c == column)
      ensures ModuleAt(modules[..], size, r, c) == ModuleAt(before, size, r, c)
    {
      FlatInside(size, r, c);
      FlatApart(size, r, c, row, column);
    }
  }

  // ----- finders

  /** A symbol once the pattern's rows above `row`, and the modules left of `column` in it, are drawn. */
  ghost predicate FinderDrawn(before: Symbol, after: Symbol, size: nat, top: int, left: int, row: int, column: int) {
    && OfSize(before, size) && OfSize(after, size)
    && forall r, c {:trigger ModuleAt(after, size, r, c)} :: OnBoard(size, r, c) ==>
         ModuleAt(after, size, r, c)
         == if InFinder(top, left, r, c) && (r < top + row || (r == top + row && c < left + column))
            then Set(FinderDark(r - top, c - left))
            else ModuleAt(before, size, r, c)
  }

  /** `finder`. */
  method Finder(modules: array<Module>, size: nat, top: int, left: int)
    requires OfSize(modules[..], size)
    modifies modules
    ensures FinderDrawn(old(modules[..]), modules[..], size, top, left, 8, -1)
  {
    ghost var before := modules[..];
    var row := -1;
    while row <= 7
      invariant -1 <= row <= 8 && FinderDrawn(before, modules[..], size, top, left, row, -1)
    {
      var column := -1;
      while column <= 7
        invariant -1 <= column <= 8 && FinderDrawn(before, modules[..], size, top, left, row, column)
      {
        if OnBoard(size, top + row, left + column) {
          SetModule(modules, size, top + row, left + column, FinderDark(row, column));
        }
        column := column + 1;
      }
      row := row + 1;
    }
  }

  ghost predicate AllUnset(s: Symbol, size: nat) {
    OfSize(s, size) && forall r, c {:trigger ModuleAt(s, size, r, c)} :: OnBoard(size, r, c) ==>
        ModuleAt(s, size, r, c) == Unset
  }

  ghost predicate FindersShown(s: Symbol, size: nat) {
    && OfSize(s, size)
    && forall r, c {:trigger ModuleAt(s, size, r, c)} :: OnBoard(size, r, c) ==>
        ModuleAt(s, size, r, c) == FinderLayer(size, r, c)
  }

  method Finders(modules: array<Module>, size: nat)
    requires AllUnset(modules[..], size)
    modifies modules
    ensures FindersShown(modules[..], size)
  {
    ghost var a := modules[..];
    Finder(modules, size, 0, 0);
    ghost var b := modules[..];
    Finder(modules, size, size - 7, 0);
    ghost var c := modules[..];
    Finder(modules, size, 0, size - 7);
    ThreeFinders(a, b, c, modules[..], size);
  }

  lemma ThreeFinders(a: Symbol, b: Symbol, c: Symbol, d: Symbol, size: nat)
    requires AllUnset(a, size) && FinderDrawn(a, b, size, 0, 0, 8, -1)
    requires FinderDrawn(b, c, size, size - 7, 0, 8, -1) && FinderDrawn(c, d, size, 0, size - 7, 8, -1)
    ensures FindersShown(d, size)
  {
    forall row, column | OnBoard(size, row, column)
      ensures ModuleAt(d, size, row, column) == FinderLayer(size, row, column)
    {
      assert ModuleAt(a, size, row, column) == Unset;
      assert ModuleAt(b, size, row, column) == if InFinder(0, 0, row, column) then Set(FinderDark(row, column))
          else Unset;
      assert ModuleAt(c, size, row, column)
          == if InFinder(size - 7, 0, row, column) then Set(FinderDark(row - (size - 7), column))
              else ModuleAt(b, size, row, column);
    }
  }

  // ----- alignment

  /** A symbol once the pattern's rows above `row`, and the modules left of `column` in it, are drawn. */
  ghost predicate AlignmentDrawn(
      before: Symbol, after: Symbol, size: nat, rowCenter: int, columnCenter: int, row: int, column: int) {
    && OfSize(before, size) && OfSize(after, size)
    && forall r, c {:trigger ModuleAt(after, size, r, c)} :: OnBoard(size, r, c) ==>
         ModuleAt(after, size, r, c)
         == if InAlignment(rowCenter, columnCenter, r, c)
               && (r < rowCenter + row || (r == rowCenter + row && c < columnCenter + column))
            then Set(AlignmentDark(r - rowCenter, c - columnCenter))
            else ModuleAt(before, size, r, c)
  }

  /** One alignment pattern, five by five. */
  method AlignmentAt(modules: array<Module>, size: nat, rowCenter: int, columnCenter: int)
    requires OfSize(modules[..], size) && 2 <= rowCenter < size - 2 && 2 <= columnCenter < size - 2
    modifies modules
    ensures AlignmentDrawn(old(modules[..]), modules[..], size, rowCenter, columnCenter, 3, -2)
  {
    ghost var before := modules[..];
    for row := -2 to 3
      invariant AlignmentDrawn(before, modules[..], size, rowCenter, columnCenter, row, -2)
    {
      for column := -2 to 3
        invariant AlignmentDrawn(before, modules[..], size, rowCenter, columnCenter, row, column)
      {
        SetModule(modules, size, rowCenter + row, columnCenter + column, AlignmentDark(row, column));
      }
    }
  }

  function RowCenter(version: nat, k: nat): nat
    requires Version(version) && k < 9
  {
    ALIGNMENT[version - 1][k / 3]
  }

  function ColumnCenter(version: nat, k: nat): nat
    requires Version(version) && k < 9
  {
    ALIGNMENT[version - 1][k % 3]
  }

  /** The pair of centers exists and does not lie in a finder pattern. */
  predicate Here(version: nat, k: nat)
    requires Version(version) && k < 9
  {
    && RowCenter(version, k) != 0 && ColumnCenter(version, k) != 0
    && FinderLayer(SizeOf(version), RowCenter(version, k), ColumnCenter(version, k)) == Unset
  }

  /** One of the first `n` pairs of centers covers the module. */
  predicate Covered(version: nat, n: nat, r: int, c: int)
    requires Version(version) && n <= 9
  {
    exists k :: 0 <= k < n && Here(version, k) && InAlignment(RowCenter(version, k), ColumnCenter(version, k), r, c)
  }

  /** A symbol once the first `n` pairs of centers have been visited. */
  ghost predicate AlignedUpTo(s: Symbol, version: nat, n: nat)
    requires Version(version) && n <= 9
  {
    && OfSize(s, SizeOf(version))
    && forall r, c {:trigger ModuleAt(s, SizeOf(version), r, c)} :: OnBoard(SizeOf(version), r, c) ==>
         ModuleAt(s, SizeOf(version), r, c)
         == if Covered(version, n, r, c) then AlignmentModule(version, r, c) else FinderLayer(SizeOf(version), r, c)
  }

  lemma CenterFacts(version: nat, k: nat)
    requires Version(version) && k < 9 && RowCenter(version, k) != 0 && ColumnCenter(version, k) != 0
    ensures var rowCenter, columnCenter := RowCenter(version, k), ColumnCenter(version, k);
            6 <= rowCenter <= SizeOf(version) - 7 && 6 <= columnCenter <= SizeOf(version) - 7
    ensures forall r, c {:trigger InAlignment(RowCenter(version, k), ColumnCenter(version, k), r, c)} ::
              InAlignment(RowCenter(version, k), ColumnCenter(version, k), r, c) ==>
                NearCenter(version, r) == RowCenter(version, k) && NearCenter(version, c) == ColumnCenter(version, k)
  {
    AlignmentTable(version);
  }

  /** Different pairs are too far apart to cover each other's center. */
  lemma CentersApart(version: nat, j: nat, k: nat)
    requires Version(version) && j < 9 && k < 9 && j != k && Here(version, j) && RowCenter(version, k) != 0
            && ColumnCenter(version, k) != 0
    ensures !InAlignment(RowCenter(version, j), ColumnCenter(version, j), RowCenter(version, k),
            ColumnCenter(version, k))
  {
    AlignmentTable(version);
    assert j == 3 * (j / 3) + j % 3 && k == 3 * (k / 3) + k % 3;
  }

  /** The center of a pair is still free exactly if it does not lie in a finder pattern. */
  lemma CenterFree(s: Symbol, version: nat, k: nat)
    requires Version(version) && k < 9 && AlignedUpTo(s, version, k) && RowCenter(version, k) != 0
            && ColumnCenter(version, k) != 0
    ensures OnBoard(SizeOf(version), RowCenter(version, k), ColumnCenter(version, k))
    ensures ModuleAt(s, SizeOf(version), RowCenter(version, k), ColumnCenter(version, k)) == Unset <==> Here(version, k)
  {
    CenterFacts(version, k);
    if Covered(version, k, RowCenter(version, k), ColumnCenter(version, k)) {
      var j :| 0 <= j < k && Here(version, j)
               && InAlignment(RowCenter(version, j), ColumnCenter(version, j), RowCenter(version, k),
                   ColumnCenter(version, k));
      CentersApart(version, j, k);
      assert false;
    }
  }

  lemma AlignedOn(before: Symbol, after: Symbol, version: nat, k: nat, next: nat)
    requires Version(version) && k < 9 && next == k + 1 && AlignedUpTo(before, version, k)
    requires if Here(version, k)
             then AlignmentDrawn(before, after, SizeOf(version), RowCenter(version, k), ColumnCenter(version, k), 3, -2)
             else after == before
    ensures AlignedUpTo(after, version, next)
  {
    if Here(version, k) { CenterFacts(version, k); }
    forall r, c | OnBoard(SizeOf(version), r, c)
      ensures ModuleAt(after, SizeOf(version), r, c)
           == if Covered(version, next, r, c) then AlignmentModule(version, r, c)
               else FinderLayer(SizeOf(version), r, c)
    {
      CoveredOn(version, k, next, r, c);
    }
  }

  lemma CoveredOn(version: nat, k: nat, next: nat, r: int, c: int)
    requires Version(version) && k < 9 && next == k + 1
    ensures Covered(version, next, r, c)
       <==> Covered(version, k, r, c)
            || (Here(version, k) && InAlignment(RowCenter(version, k), ColumnCenter(version, k), r, c))
  {
  }

  /** All nine pairs cover exactly the listed alignment patterns. */
  lemma CoveredIsListed(version: nat, r: int, c: int)
    requires Version(version)
    ensures Covered(version, 9, r, c) <==> InSomeAlignment(version, r, c)
  {
    AlignmentTable(version);
    if Covered(version, 9, r, c) {
      var k :| 0 <= k < 9 && Here(version, k) && InAlignment(RowCenter(version, k), ColumnCenter(version, k), r, c);
      CenterListed(version, k / 3, k % 3, r, c);
    }
    if InSomeAlignment(version, r, c) {
      PairListed(version, r, c);
    }
  }

  lemma PairListed(version: nat, r: int, c: int)
    requires Version(version) && InSomeAlignment(version, r, c)
    ensures Covered(version, 9, r, c)
  {
    AlignmentTable(version);
    var k := if version <= 6 then 4
             else 3 * (if r <= 8 then 0 else if r <= MiddleCenter(version) + 2 then 1 else 2)
                  + if c <= 8 then 0 else if c <= MiddleCenter(version) + 2 then 1 else 2;
    assert Here(version, k) && InAlignment(RowCenter(version, k), ColumnCenter(version, k), r, c);
  }

  method Alignment(modules: array<Module>, version: nat)
    requires Version(version) && FindersShown(modules[..], SizeOf(version))
    modifies modules
    ensures AlignedUpTo(modules[..], version, 9)
  {
    var positions := ALIGNMENT[version - 1];
    for i := 0 to 3
      invariant AlignedUpTo(modules[..], version, 3 * i)
    {
      for j := 0 to 3
        invariant AlignedUpTo(modules[..], version, 3 * i + j)
      {
        AlignmentIfFree(modules, version, positions[i], positions[j], 3 * i + j, 3 * i + j + 1);
      }
    }
  }

  /** Only around a center that exists and is still free. */
  method AlignmentIfFree(modules: array<Module>, version: nat, rowCenter: nat, columnCenter: nat, ghost k: nat,
          ghost next: nat)
    requires Version(version) && k < 9 && next == k + 1 && AlignedUpTo(modules[..], version, k)
    requires rowCenter == RowCenter(version, k) && columnCenter == ColumnCenter(version, k)
    modifies modules
    ensures AlignedUpTo(modules[..], version, next)
  {
    var size := SizeOf(version);
    ghost var before := modules[..];
    if rowCenter != 0 && columnCenter != 0 {
      CenterFree(before, version, k);
      CenterFacts(version, k);
      FlatInside(size, rowCenter, columnCenter);
      assert ModuleAt(before, size, rowCenter, columnCenter) == modules[rowCenter * size + columnCenter];
      if modules[rowCenter * size + columnCenter] == Unset {
        AlignmentAt(modules, size, rowCenter, columnCenter);
      }
    }
    AlignedOn(before, modules[..], version, k, next);
  }

  // ----- timing

  /** What the timing patterns add once they have come to `index`: alternating modules where nothing was. */
  ghost predicate Timed(before: Symbol, after: Symbol, size: nat, index: int) {
    && OfSize(before, size) && OfSize(after, size)
    && forall r, c {:trigger ModuleAt(after, size, r, c)} :: OnBoard(size, r, c) ==>
         ModuleAt(after, size, r, c)
         == if ModuleAt(before, size, r, c) == Unset && ((c == TIMING && 8 <= r < index)
             || (r == TIMING && 8 <= c < index))
            then Set((if c == TIMING then r else c) % 2 == 0) else ModuleAt(before, size, r, c)
  }

  /** The timing patterns fill what is still free of row and column 6 between the finders. */
  method Timing(modules: array<Module>, size: nat)
    requires OfSize(modules[..], size)
    modifies modules
    ensures Timed(old(modules[..]), modules[..], size, size - 8)
  {
    ghost var before := modules[..];
    var index := 8;
    while index < size - 8
      invariant 8 <= index <= size - 8 && Timed(before, modules[..], size, index)
    {
      TimingStep(modules, size, index, TIMING, index);
      TimingStep(modules, size, TIMING, index, index);
      index := index + 1;
    }
  }

  method TimingStep(modules: array<Module>, size: nat, row: int, column: int, index: nat)
    requires OfSize(modules[..], size) && OnBoard(size, row, column)
    modifies modules
    ensures OfSize(modules[..], size)
    ensures forall r, c {:trigger ModuleAt(modules[..], size, r, c)} :: OnBoard(size, r, c) ==>
              ModuleAt(modules[..], size, r, c)
              == if r == row && c == column && ModuleAt(old(modules[..]), size, r, c) == Unset then Set(index % 2 == 0)
                 else ModuleAt(old(modules[..]), size, r, c)
  {
    FlatInside(size, row, column);
    if modules[row * size + column] == Unset {
      SetModule(modules, size, row, column, index % 2 == 0);
    }
  }

  ghost predicate TimingShown(s: Symbol, version: nat) {
    && OfSize(s, SizeOf(version))
    && forall r, c {:trigger ModuleAt(s, SizeOf(version), r, c)} :: OnBoard(SizeOf(version), r, c) ==>
         ModuleAt(s, SizeOf(version), r, c) == TimingLayer(version, r, c)
  }

  lemma TimedShows(before: Symbol, after: Symbol, version: nat)
    requires Version(version) && AlignedUpTo(before, version, 9)
            && Timed(before, after, SizeOf(version), SizeOf(version) - 8)
    ensures TimingShown(after, version)
  {
    forall r, c | OnBoard(SizeOf(version), r, c)
      ensures ModuleAt(after, SizeOf(version), r, c) == TimingLayer(version, r, c)
    {
      CoveredIsListed(version, r, c);
      assert ModuleAt(before, SizeOf(version), r, c) == AlignmentLayer(version, r, c);
    }
  }

  // ----- format information

  /** A symbol once both copies of the first `n` bits of the format information are set. */
  ghost predicate FormatUpTo(before: Symbol, after: Symbol, size: nat, code: nat, test: bool, n: nat) {
    && OfSize(before, size) && OfSize(after, size)
    && forall r, c {:trigger ModuleAt(after, size, r, c)} :: OnBoard(size, r, c) ==>
         ModuleAt(after, size, r, c)
         == if (InFormatColumn(size, r, c) || InFormatRow(size, r, c)) && FormatIndex(size, r, c) < n
            then Set(!test && BitSet(code, FormatIndex(size, r, c))) else ModuleAt(before, size, r, c)
  }

  /** `format`; `code` is the format information with its check bits. */
  method Format(modules: array<Module>, size: nat, code: nat, test: bool)
    requires OfSize(modules[..], size)
    modifies modules
    ensures exists middle :: FormatUpTo(old(modules[..]), middle, size, code, test, 15)
                             && modules[..] == middle[Flat(size, size - 8, 8) := Set(!test)]
                                 && 0 <= Flat(size, size - 8, 8) < |middle|
  {
    ghost var before := modules[..];
    for index := 0 to 15
      invariant FormatUpTo(before, modules[..], size, code, test, index)
    {
      FormatBit(modules, size, code, test, index, before);
    }
    FlatInside(size, size - 8, 8);
    ghost var middle := modules[..];
    modules[(size - 8) * size + 8] := Set(!test);
    assert modules[..] == middle[Flat(size, size - 8, 8) := Set(!test)];
  }

  method FormatBit(modules: array<Module>, size: nat, code: nat, test: bool, index: nat, ghost before: Symbol)
    requires index < 15 && FormatUpTo(before, modules[..], size, code, test, index)
    modifies modules
    ensures FormatUpTo(before, modules[..], size, code, test, index + 1)
  {
    var dark := !test && BitSet(code, index);
    SetModule(modules, size, if index < 6 then index else if index < 8 then index + 1 else size - 15 + index, 8, dark);
    SetModule(modules, size, 8, if index < 8 then size - index - 1 else if index < 9 then 15 - index
        else 14 - index, dark);
  }

  ghost predicate FormatShown(s: Symbol, version: nat, test: bool, code: nat) {
    && OfSize(s, SizeOf(version))
    && forall r, c {:trigger ModuleAt(s, SizeOf(version), r, c)} :: OnBoard(SizeOf(version), r, c) ==>
         ModuleAt(s, SizeOf(version), r, c) == FormatLayer(version, test, code, r, c)
  }

  lemma FormatShows(before: Symbol, middle: Symbol, after: Symbol, version: nat, test: bool, code: nat)
    requires Version(version) && TimingShown(before, version)
            && FormatUpTo(before, middle, SizeOf(version), code, test, 15)
    requires var size := SizeOf(version);
             0 <= Flat(size, size - 8, 8) < |middle| && after == middle[Flat(size, size - 8, 8) := Set(!test)]
    ensures FormatShown(after, version, test, code)
  {
    var size := SizeOf(version);
    forall r, c | OnBoard(size, r, c)
      ensures ModuleAt(after, size, r, c) == FormatLayer(version, test, code, r, c)
    {
      FlatInside(size, r, c);
      FlatApart(size, r, c, size - 8, 8);
      assert ModuleAt(after, size, r, c) == if r == size - 8 && c == 8 then Set(!test)
          else ModuleAt(middle, size, r, c);
    }
  }

  // ----- version information

  /** A symbol once both copies of the first `n` bits of the version information are set. */
  ghost predicate VersionUpTo(before: Symbol, after: Symbol, size: nat, code: nat, test: bool, n: nat) {
    && OfSize(before, size) && OfSize(after, size)
    && forall r, c {:trigger ModuleAt(after, size, r, c)} :: OnBoard(size, r, c) ==>
         ModuleAt(after, size, r, c)
         == if InVersion(size, r, c) && 0 <= VersionIndex(size, r, c) < n
            then Set(!test && BitSet(code, VersionIndex(size, r, c))) else ModuleAt(before, size, r, c)
  }

  /** The version information of the larger symbols; `code` is the version with its check bits. */
  method VersionInformation(modules: array<Module>, size: nat, code: nat, test: bool)
    requires OfSize(modules[..], size) && size >= 45
    modifies modules
    ensures VersionUpTo(old(modules[..]), modules[..], size, code, test, 18)
  {
    ghost var before := modules[..];
    for index := 0 to 18
      invariant VersionUpTo(before, modules[..], size, code, test, index)
    {
      VersionBit(modules, size, code, test, index, index / 3, index % 3 + size - 11, before);
    }
  }

  method VersionBit(modules: array<Module>, size: nat, code: nat, test: bool, index: nat, near: int, far: int,
          ghost before: Symbol)
    requires index < 18 && size >= 45 && near == index / 3 && far == index % 3 + size - 11
    requires VersionUpTo(before, modules[..], size, code, test, index)
    modifies modules
    ensures VersionUpTo(before, modules[..], size, code, test, index + 1)
  {
    SetModule(modules, size, near, far, !test && BitSet(code, index));
    SetModule(modules, size, far, near, !test && BitSet(code, index));
  }

  // ----- all of them

  /** The three finders, the alignment and timing patterns, the format and version information. */
  method Patterns(modules: array<Module>, version: nat, test: bool, formatCode: nat, versionCode: nat)
    requires Version(version) && AllUnset(modules[..], SizeOf(version))
    modifies modules
    ensures modules[..] == Blank(version, test, formatCode, versionCode)
  {
    var size := SizeOf(version);
    Finders(modules, size);
    Alignment(modules, version);
    ghost var aligned := modules[..];
    Timing(modules, size);
    ghost var timed := modules[..];
    TimedShows(aligned, timed, version);
    Format(modules, size, formatCode, test);
    ghost var middle :| FormatUpTo(timed, middle, size, formatCode, test, 15) && 0 <= Flat(size, size - 8, 8) < |middle|
                        && modules[..] == middle[Flat(size, size - 8, 8) := Set(!test)];
    ghost var formatted := modules[..];
    FormatShows(timed, middle, formatted, version, test, formatCode);
    if version >= 7 {
      VersionInformation(modules, size, versionCode, test);
    }
    AllShown(formatted, modules[..], version, test, formatCode, versionCode);
  }

  lemma AllShown(before: Symbol, after: Symbol, version: nat, test: bool, formatCode: nat, versionCode: nat)
    requires Version(version) && FormatShown(before, version, test, formatCode)
    requires if version >= 7 then VersionUpTo(before, after, SizeOf(version), versionCode, test, 18)
            else after == before
    ensures after == Blank(version, test, formatCode, versionCode)
  {
    forall r, c | OnBoard(SizeOf(version), r, c)
      ensures ModuleAt(after, SizeOf(version), r, c) == PatternAt(version, test, formatCode, versionCode, r, c)
    {
      assert ModuleAt(before, SizeOf(version), r, c) == FormatLayer(version, test, formatCode, r, c);
    }
    BlankIs(after, version, test, formatCode, versionCode);
  }

  /**
    The finished symbol: the function patterns as described, and in every other module its masked bit of
    the codewords, light bits behind them.
   */
  ghost predicate Built(version: nat, data: seq<byte>, mask: nat, test: bool, formatCode: nat, versionCode: nat,
          now: Symbol)
    requires Version(version)
  {
    Placed(Blank(version, test, formatCode, versionCode), now, SizeOf(version), BytesBits(data), mask,
        Modules(SizeOf(version)))
  }

  /** There is only one. */
  lemma BuiltIsOne(version: nat, data: seq<byte>, mask: nat, test: bool, formatCode: nat, versionCode: nat, a: Symbol,
          b: Symbol)
    requires Version(version)
    requires Built(version, data, mask, test, formatCode, versionCode, a)
            && Built(version, data, mask, test, formatCode, versionCode, b)
    ensures a == b
  {
    var size := SizeOf(version);
    forall p | 0 <= p < size * size
      ensures a[p] == b[p]
    {
      var r, c := FlatEverywhere(size, p);
      assert a[p] == ModuleAt(a, size, r, c) && b[p] == ModuleAt(b, size, r, c);
    }
  }

  /** Every module of it is set, and the patterns are still what they were. */
  lemma BuiltKeepsPatterns(version: nat, data: seq<byte>, mask: nat, test: bool, formatCode: nat, versionCode: nat,
          now: Symbol)
    requires Version(version) && Built(version, data, mask, test, formatCode, versionCode, now)
    ensures forall p {:trigger now[p]} :: 0 <= p < |now| ==> now[p].Set?
    ensures forall r, c {:trigger ModuleAt(now, SizeOf(version), r, c)} ::
            OnBoard(SizeOf(version), r, c) && Reserved(version, r, c) ==>
              ModuleAt(now, SizeOf(version), r, c) == PatternAt(version, test, formatCode, versionCode, r, c)
  {
    var start, size := Blank(version, test, formatCode, versionCode), SizeOf(version);
    forall r, c | OnBoard(size, r, c)
      ensures ModuleAt(start, size, r, c) == PatternAt(version, test, formatCode, versionCode, r, c)
      ensures ModuleAt(start, size, r, c) == Unset <==> !Reserved(version, r, c)
    {
      BlankAt(version, test, formatCode, versionCode, r, c);
      FreeIsOpen(version, test, formatCode, versionCode, r, c);
    }
    PlacedKeeps(start, now, size, BytesBits(data), mask);
    forall r, c | OnBoard(size, r, c) && Reserved(version, r, c)
      ensures ModuleAt(now, size, r, c) == PatternAt(version, test, formatCode, versionCode, r, c)
    {
      FlatInside(size, r, c);
    }
  }

  /** `build`. */
  method Build(version: nat, data: seq<byte>, mask: nat, test: bool, formatCode: nat, versionCode: nat)
    returns (modules: array<Module>)
    requires Version(version)
    ensures fresh(modules) && Built(version, data, mask, test, formatCode, versionCode, modules[..])
  {
    var size := SizeOf(version);
    modules := new Module[size * size](_ => Unset);
    StartsUnset(modules[..], size);
    Patterns(modules, version, test, formatCode, versionCode);
    PlaceAll(modules, size, data, mask);
  }

  lemma StartsUnset(s: Symbol, size: nat)
    requires OfSize(s, size) && forall p :: 0 <= p < |s| ==> s[p] == Unset
    ensures AllUnset(s, size)
  {
    forall r, c | OnBoard(size, r, c)
      ensures ModuleAt(s, size, r, c) == Unset
    {
      FlatInside(size, r, c);
    }
  }

  // ----- the mask

  /** The first mask with the smallest score. */
  predicate Best(scores: seq<int>, mask: nat) {
    && mask < |scores|
    && (forall m :: 0 <= m < |scores| ==> scores[mask] <= scores[m])
    && (forall m :: 0 <= m < mask ==> scores[mask] < scores[m])
  }

  type Penalty = (seq<Module>, nat) -> int

  /** The score of a mask: the penalty of the symbol built with it, without format and version information. */
  ghost predicate ScoreOf(version: nat, data: seq<byte>, penalty: Penalty, mask: nat, score: int)
    requires Version(version)
  {
    exists now :: Built(version, data, mask, true, 0, 0, now) && score == penalty(now, SizeOf(version))
  }

  /** Each mask has one score. */
  lemma ScoreIsOne(version: nat, data: seq<byte>, penalty: Penalty, mask: nat, a: int, b: int)
    requires Version(version) && ScoreOf(version, data, penalty, mask, a) && ScoreOf(version, data, penalty, mask, b)
    ensures a == b
  {
    var x :| Built(version, data, mask, true, 0, 0, x) && a == penalty(x, SizeOf(version));
    var y :| Built(version, data, mask, true, 0, 0, y) && b == penalty(y, SizeOf(version));
    BuiltIsOne(version, data, mask, true, 0, 0, x, y);
  }

  /** The mask whose symbol scores best, the first of equals. */
  ghost predicate BestMask(version: nat, data: seq<byte>, penalty: Penalty, mask: nat)
    requires Version(version)
  {
    exists scores: seq<int> :: |scores| == 8 && Best(scores, mask) && forall m :: 0 <= m < 8 ==>
        ScoreOf(version, data, penalty, m, scores[m])
  }

  /** Only one mask is the best. */
  lemma BestMaskIsOne(version: nat, data: seq<byte>, penalty: Penalty, a: nat, b: nat)
    requires Version(version) && BestMask(version, data, penalty, a) && BestMask(version, data, penalty, b)
    ensures a == b
  {
    var x: seq<int> :| |x| == 8 && Best(x, a) && forall m :: 0 <= m < 8 ==> ScoreOf(version, data, penalty, m, x[m]);
    var y: seq<int> :| |y| == 8 && Best(y, b) && forall m :: 0 <= m < 8 ==> ScoreOf(version, data, penalty, m, y[m]);
    forall m | 0 <= m < 8
      ensures x[m] == y[m]
    {
      ScoreIsOne(version, data, penalty, m, x[m], y[m]);
    }
    assert x == y;
  }

  /** Tries every mask on a symbol without format and version information. */
  method PickMask(version: nat, data: seq<byte>, penalty: Penalty, formatCode: nat -> nat, versionCode: nat -> nat)
    returns (best: nat)
    requires Version(version)
    ensures best < 8 && BestMask(version, data, penalty, best)
  {
    best := 0;
    var bestPenalty := 0;
    ghost var scores: seq<int> := [];
    for mask := 0 to 8
      invariant |scores| == mask && (mask > 0 ==> Best(scores, best) && bestPenalty == scores[best])
              && (mask == 0 ==> best == 0)
      invariant forall m :: 0 <= m < mask ==> ScoreOf(version, data, penalty, m, scores[m])
    {
      var modules := Build(version, data, mask, true, formatCode(mask), versionCode(version));
      var value := penalty(modules[..], SizeOf(version));
      if mask == 0 || value < bestPenalty { best, bestPenalty := mask, value; }
      BlankTest(version, formatCode(mask), versionCode(version), 0, 0);
      assert Built(version, data, mask, true, 0, 0, modules[..]);
      scores := scores + [value];
    }
  }

  // ----- the whole encoder

  datatype Code = Code(size: nat, modules: seq<bool>)

  /** Which modules of a symbol are dark. */
  predicate Shown(code: Code, symbol: Symbol) {
    |code.modules| == |symbol| && forall p :: 0 <= p < |symbol| ==> symbol[p] == Set(code.modules[p])
  }

  /**
    What a reader makes of a symbol, knowing its version and its mask: the bits of the modules that are not
    reserved, in order, unmasked; the codewords they make; mode, length and content.
   */
  ghost function ReadSymbol(now: Symbol, version: nat, mask: nat): Option<seq<byte>>
    requires Version(version) && OfSize(now, SizeOf(version))
  {
    BlankHasRoom(version, true, 0, 0);
    var start, size := Blank(version, true, 0, 0), SizeOf(version);
    ReadStream(FirstBytes(ReadBits(start, now, size, mask, Modules(size)), CODEWORDS[version - 1]), version)
  }

  /** Which modules are read depends only on which are reserved. */
  lemma {:induction false} SameFree(a: Symbol, b: Symbol, now: Symbol, size: nat, mask: nat, k: nat)
    requires OfSize(a, size) && OfSize(b, size) && OfSize(now, size) && k <= Modules(size)
    requires forall r, c {:trigger ModuleAt(a, size, r, c)} :: OnBoard(size, r, c) ==>
               (ModuleAt(a, size, r, c) == Unset <==> ModuleAt(b, size, r, c) == Unset)
    ensures FreeBefore(a, size, k) == FreeBefore(b, size, k)
            && ReadBits(a, now, size, mask, k) == ReadBits(b, now, size, mask, k)
    decreases k
  {
    if k > 0 {
      SameFree(a, b, now, size, mask, k - 1);
      IndexAtNumber(size, k - 1);
    }
  }

  /** Reading a finished symbol gives back what its codewords say. */
  lemma {:induction false} BuiltReadBack(version: nat, data: seq<byte>, mask: nat, formatCode: nat, versionCode: nat,
          now: Symbol)
    requires Version(version) && |data| == CODEWORDS[version - 1]
            && Built(version, data, mask, false, formatCode, versionCode, now)
    ensures ReadSymbol(now, version, mask) == ReadStream(data, version)
  {
    var size := SizeOf(version);
    var start, other := Blank(version, false, formatCode, versionCode), Blank(version, true, 0, 0);
    BlankHasRoom(version, false, formatCode, versionCode);
    BlankHasRoom(version, true, 0, 0);
    forall r, c | OnBoard(size, r, c)
      ensures ModuleAt(other, size, r, c) == Unset <==> ModuleAt(start, size, r, c) == Unset
    {
      BlankAt(version, false, formatCode, versionCode, r, c);
      BlankAt(version, true, 0, 0, r, c);
      FreeIsOpen(version, false, formatCode, versionCode, r, c);
      FreeIsOpen(version, true, 0, 0, r, c);
    }
    SameFree(other, start, now, size, mask, Modules(size));
    SymbolReadBack(start, now, size, data, mask);
  }

  /** The second half of `encode`: the best mask, and the symbol with it. */
  method Draw(version: nat, data: seq<byte>, penalty: Penalty, formatCode: nat -> nat, versionCode: nat -> nat)
    returns (code: Code, ghost mask: nat, ghost now: Symbol)
    requires Version(version)
    ensures code.size == SizeOf(version) && Shown(code, now) && BestMask(version, data, penalty, mask)
    ensures Built(version, data, mask, false, formatCode(mask), versionCode(version), now)
  {
    var best := PickMask(version, data, penalty, formatCode, versionCode);
    var modules := Build(version, data, best, false, formatCode(best), versionCode(version));
    mask, now := best, modules[..];
    BuiltKeepsPatterns(version, data, mask, false, formatCode(mask), versionCode(version), now);
    var dark := Darkness(modules, now);
    code := Code(SizeOf(version), dark);
  }

  /**
    `encode`: at most 213 bytes are turned into the symbol of the smallest version that fits, with the best
    mask; reading that symbol gives the content back.
   */
  method Encode(content: seq<byte>, penalty: Penalty, formatCode: nat -> nat, versionCode: nat -> nat)
    returns (r: Option<Code>, ghost version: nat, ghost mask: nat, ghost stream: seq<byte>, ghost now: Symbol)
    ensures r.Some? <==> |content| <= 213
    ensures r.Some? ==>
              && Version(version) && Fits(|content|, version) && (forall v :: 1 <= v < version ==> !Fits(|content|, v))
              && r.value.size == SizeOf(version) && Shown(r.value, now)
              && Built(version, stream, mask, false, formatCode(mask), versionCode(version), now)
              && BestMask(version, stream, penalty, mask)
              && ReadStream(stream, version) == Some(content)
              && ReadSymbol(now, version, mask) == Some(content)
  {
    var picked := PickVersion(|content|);
    if picked.None? {
      version, mask, stream, now := 0, 0, [], [];
      return None, version, mask, stream, now;
    }
    var v := picked.value;
    GfLaws();
    var data, _, _, _, _, _ := MakeData(GF, content, v);
    var code;
    code, mask, now := Draw(v, data, penalty, formatCode, versionCode);
    version, stream, r := v, data, Some(code);
    BuiltReadBack(v, data, mask, formatCode(mask), versionCode(v), now);
  }

  method Darkness(modules: array<Module>, ghost now: Symbol) returns (dark: seq<bool>)
    requires now == modules[..] && forall p {:trigger now[p]} :: 0 <= p < |now| ==> now[p].Set?
    ensures |dark| == modules.Length && forall p :: 0 <= p < |dark| ==> modules[p] == Set(dark[p])
  {
    dark := [];
    for p := 0 to modules.Length
      invariant |dark| == p && forall i :: 0 <= i < p ==> modules[i] == Set(dark[i])
    {
      assert now[p].Set?;
      dark := dark + [modules[p] != Set(false)];
    }
  }
}
