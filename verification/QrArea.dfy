/** Which modules of a symbol are left for codewords, and how many there are. */
module QrArea {
  import opened Common
  import opened QrData
  import opened QrPlacement

  const ALIGNMENT: seq<seq<nat>> :=
    [[0, 0, 0], [6, 18, 0], [6, 22, 0], [6, 26, 0], [6, 30, 0], [6, 34, 0], [6, 22, 38], [6, 24, 42], [6, 26, 46],
        [6, 28, 50]]

  function SizeOf(version: nat): nat {
    version * 4 + 17
  }

  // ----- where function patterns can be

  predicate InAlignment(rowCenter: int, columnCenter: int, r: int, c: int) {
    rowCenter - 2 <= r <= rowCenter + 2 && columnCenter - 2 <= c <= columnCenter + 2
  }

  predicate InVersion(size: nat, r: int, c: int) {
    (r <= 5 && size - 11 <= c <= size - 9) || (c <= 5 && size - 11 <= r <= size - 9)
  }

  /** A finder pattern with its border and the format information beside it. */
  predicate InCorner(size: nat, r: int, c: int) {
    (r <= 8 && c <= 8) || (r <= 8 && c >= size - 8) || (r >= size - 8 && c <= 8)
  }

  /** The middle alignment center of the larger symbols. */
  function MiddleCenter(version: nat): nat {
    2 * version + 8
  }

  predicate InSomeAlignment(version: nat, r: int, c: int) {
    var last, mid := SizeOf(version) - 7, MiddleCenter(version);
    || (version >= 2 && InAlignment(last, last, r, c))
    || (version >= 7 && (InAlignment(6, mid, r, c) || InAlignment(mid, 6, r, c) || InAlignment(mid, mid, r, c)
                         || InAlignment(mid, last, r, c) || InAlignment(last, mid, r, c)))
  }

  predicate Reserved(version: nat, r: int, c: int) {
    || InCorner(SizeOf(version), r, c) || r == TIMING || c == TIMING
    || InSomeAlignment(version, r, c) || (version >= 7 && InVersion(SizeOf(version), r, c))
  }

  lemma AlignmentTable(version: nat)
    requires Version(version)
    ensures var p, last := ALIGNMENT[version - 1], SizeOf(version) - 7;
            |p| == 3 && p[0] == (if version == 1 then 0 else 6)
            && p[1] == (if version == 1 then 0 else if version <= 6 then last else MiddleCenter(version))
            && p[2] == if version <= 6 then 0 else last
  {
  }

  /** A center that is not in a corner is one of the listed ones. */
  lemma CenterListed(version: nat, i: nat, j: nat, r: int, c: int)
    requires Version(version) && i < 3 && j < 3
    requires var rowCenter, columnCenter := ALIGNMENT[version - 1][i], ALIGNMENT[version - 1][j];
             rowCenter != 0 && columnCenter != 0 && !InCorner(SizeOf(version), rowCenter, columnCenter)
             && InAlignment(rowCenter, columnCenter, r, c)
    ensures InSomeAlignment(version, r, c)
  {
    AlignmentTable(version);
  }

  // ----- counting free modules

  /** The free modules among the first `k` of the order. */
  function FreeIndices(start: Symbol, size: nat, k: nat): set<nat>
    requires OfSize(start, size) && k <= Modules(size)
  {
    set i: nat | i < k && NumberedModule(start, size, i) == Unset
  }

  lemma {:induction false} FreeIsCount(start: Symbol, size: nat, k: nat)
    requires OfSize(start, size) && k <= Modules(size)
    ensures FreeBefore(start, size, k) == |FreeIndices(start, size, k)|
    decreases k
  {
    if k > 0 {
      FreeIsCount(start, size, k - 1);
      var before, now := FreeIndices(start, size, k - 1), FreeIndices(start, size, k);
      if NumberedModule(start, size, k - 1) == Unset {
        assert now == before + {k - 1};
      } else {
        assert now == before;
      }
    }
  }

  type Cell = (int, int)

  predicate FreeCell(start: Symbol, size: nat, p: Cell)
    requires OfSize(start, size)
  {
    OnBoard(size, p.0, p.1) && p.1 != TIMING && ModuleAt(start, size, p.0, p.1) == Unset
  }

  /** Different cells have different numbers. */
  lemma {:induction false} CellsNumbered(start: Symbol, size: nat, cells: set<Cell>) returns (numbers: set<nat>)
    requires OfSize(start, size) && forall p :: p in cells ==> FreeCell(start, size, p)
    ensures |numbers| == |cells| && numbers <= FreeIndices(start, size, Modules(size))
    ensures forall k :: k in numbers ==> (Row(size, k), Col(size, k)) in cells
    decreases |cells|
  {
    if cells == {} {
      numbers := {};
    } else {
      var p :| p in cells;
      var rest := CellsNumbered(start, size, cells - {p});
      var k := Index(size, p.0, p.1);
      ModuleAtIndex(size, p.0, p.1);
      assert (Row(size, k), Col(size, k)) == p;
      numbers := rest + {k};
    }
  }

  /** There are at least as many free modules as free cells one can name. */
  lemma {:induction false} CellsCounted(start: Symbol, size: nat, cells: set<Cell>)
    requires OfSize(start, size) && forall p :: p in cells ==> FreeCell(start, size, p)
    ensures |cells| <= FreeBefore(start, size, Modules(size))
  {
    var numbers := CellsNumbered(start, size, cells);
    Smaller(numbers, FreeIndices(start, size, Modules(size)));
    FreeIsCount(start, size, Modules(size));
  }

  lemma {:induction false} Smaller<T>(a: set<T>, b: set<T>)
    requires a <= b
    ensures |a| <= |b|
  {
    assert b == a + (b - a);
  }

  // ----- rectangles

  predicate InRectangle(top: int, bottom: int, left: int, right: int, p: Cell) {
    top <= p.0 < bottom && left <= p.1 < right
  }

  lemma {:induction false} Line(r: int, left: int, right: int) returns (cells: set<Cell>)
    requires left <= right
    ensures |cells| == right - left && forall p :: p in cells <==> InRectangle(r, r + 1, left, right, p)
    decreases right - left
  {
    if left == right {
      cells := {};
    } else {
      var rest := Line(r, left, right - 1);
      cells := rest + {(r, right - 1)};
    }
  }

  lemma {:induction false} Rectangle(top: int, bottom: int, left: int, right: int) returns (cells: set<Cell>)
    requires top <= bottom && left <= right
    ensures |cells| == (bottom - top) * (right - left)
    ensures forall p :: p in cells <==> InRectangle(top, bottom, left, right, p)
    decreases bottom - top
  {
    if top == bottom {
      cells := {};
    } else {
      var above := Rectangle(top, bottom - 1, left, right);
      var row := Line(bottom - 1, left, right);
      cells := above + row;
      assert above !! row;
      assert (bottom - top) * (right - left) == (bottom - 1 - top) * (right - left) + (right - left);
    }
  }

  /** Everything so far lies left of the columns, or above the row in them. */
  predicate Behind(cells: set<Cell>, top: int, left: int, right: int) {
    forall p :: p in cells ==> p.1 < left || (p.0 < top && p.1 < right)
  }

  predicate AllOpen(version: nat, cells: set<Cell>) {
    forall p :: p in cells ==> OnBoard(SizeOf(version), p.0, p.1) && !Reserved(version, p.0, p.1)
  }

  predicate OpenRectangle(version: nat, top: int, bottom: int, left: int, right: int) {
    && 0 <= top <= bottom <= SizeOf(version) && 0 <= left <= right <= SizeOf(version)
    && forall r, c :: top <= r < bottom && left <= c < right ==> !Reserved(version, r, c)
  }

  lemma {:induction false} Add(version: nat, cells: set<Cell>, top: int, bottom: int, left: int, right: int)
    returns (more: set<Cell>)
    requires AllOpen(version, cells) && OpenRectangle(version, top, bottom, left, right)
            && Behind(cells, top, left, right)
    ensures AllOpen(version, more) && Behind(more, bottom, left, right)
    ensures |more| == |cells| + (bottom - top) * (right - left)
  {
    var added := Rectangle(top, bottom, left, right);
    assert cells !! added;
    more := cells + added;
  }

  /** Whole columns but for the timing pattern. */
  lemma {:induction false} AddColumns(version: nat, s: int, cells: set<Cell>, left: int, right: int)
    returns (more: set<Cell>)
    requires s == SizeOf(version) && AllOpen(version, cells) && Behind(cells, 0, left, right)
    requires OpenRectangle(version, 0, 6, left, right) && OpenRectangle(version, 7, s, left, right)
    ensures AllOpen(version, more) && Behind(more, s, left, right)
    ensures |more| == |cells| + (s - 1) * (right - left)
  {
    more := Add(version, cells, 0, 6, left, right);
    more := Add(version, more, 7, s, left, right);
    assert 6 * (right - left) + (s - 7) * (right - left) == (s - 1) * (right - left);
  }

  /** The symbol without alignment patterns. */
  lemma {:induction false} OpenOne() returns (cells: set<Cell>)
    ensures AllOpen(1, cells) && |cells| == 208
  {
    cells := Add(1, {}, 9, 13, 0, 6);
    cells := Add(1, cells, 9, 13, 7, 9);
    cells := Add(1, cells, 0, 6, 9, 13);
    cells := Add(1, cells, 7, 21, 9, 13);
    cells := Add(1, cells, 9, 21, 13, 21);
  }

  lemma {:induction false} OpenFewLeft(version: nat, s: int) returns (cells: set<Cell>)
    requires 2 <= version <= 6 && s == SizeOf(version)
    ensures AllOpen(version, cells) && Behind(cells, s, 9, s - 9)
    ensures |cells| == 8 * (s - 17) + (s - 1) * (s - 18)
  {
    cells := Add(version, {}, 9, s - 8, 0, 6);
    cells := Add(version, cells, 9, s - 8, 7, 9);
    cells := AddColumns(version, s, cells, 9, s - 9);
  }

  lemma {:induction false} OpenFewRight(version: nat, s: int, before: set<Cell>) returns (cells: set<Cell>)
    requires 2 <= version <= 6 && s == SizeOf(version) && AllOpen(version, before) && Behind(before, s, 9, s - 9)
    ensures AllOpen(version, cells) && |cells| == |before| + (s - 6) + 4 * (s - 14) + 4 * (s - 9)
  {
    cells := Add(version, before, 0, 6, s - 9, s - 8);
    cells := Add(version, cells, 7, s - 9, s - 9, s - 8);
    cells := Add(version, cells, s - 4, s, s - 9, s - 8);
    cells := Add(version, cells, 9, s - 9, s - 8, s - 4);
    cells := Add(version, cells, s - 4, s, s - 8, s - 4);
    cells := Add(version, cells, 9, s, s - 4, s);
  }

  /** Symbols with one alignment pattern. */
  lemma {:induction false} OpenFew(version: nat, s: int) returns (cells: set<Cell>)
    requires 2 <= version <= 6 && s == SizeOf(version)
    ensures AllOpen(version, cells) && |cells| == 8 * (s - 17) + (s - 1) * (s - 18) + (s - 6) + 4 * (s - 14)
            + 4 * (s - 9)
  {
    cells := OpenFewLeft(version, s);
    cells := OpenFewRight(version, s, cells);
  }

  /** The leftmost columns of the symbols with version information. */
  lemma {:induction false} OpenEdge(version: nat, s: int, m: int) returns (cells: set<Cell>)
    requires 7 <= version <= 10 && s == SizeOf(version) && m == MiddleCenter(version)
    ensures AllOpen(version, cells) && Behind(cells, s, 7, 9) && |cells| == 4 * (s - 20) + 2 * (s - 25) + 2 * (s - 22)
  {
    cells := Add(version, {}, 9, s - 11, 0, 4);
    cells := Add(version, cells, 9, m - 2, 4, 6);
    cells := Add(version, cells, m + 3, s - 11, 4, 6);
    cells := Add(version, cells, 9, m - 2, 7, 9);
    cells := Add(version, cells, m + 3, s - 8, 7, 9);
  }

  /** The left part of those symbols, up to the middle. */
  lemma {:induction false} OpenLeft(version: nat, s: int, m: int) returns (cells: set<Cell>)
    requires 7 <= version <= 10 && s == SizeOf(version) && m == MiddleCenter(version)
    ensures AllOpen(version, cells) && Behind(cells, s, 9, m - 2)
    ensures |cells| == 4 * (s - 20) + 2 * (s - 25) + 2 * (s - 22) + (s - 1) * (m - 2 - 9)
  {
    cells := OpenEdge(version, s, m);
    cells := AddColumns(version, s, cells, 9, m - 2);
  }

  lemma {:induction false} OpenMiddle(version: nat, s: int, m: int, before: set<Cell>) returns (cells: set<Cell>)
    requires 7 <= version <= 10 && s == SizeOf(version) && m == MiddleCenter(version)
    requires AllOpen(version, before) && Behind(before, s, 9, m - 2)
    ensures AllOpen(version, cells) && Behind(cells, s, m + 3, s - 11)
    ensures |cells| == |before| + 5 * (s - 15) + (s - 1) * (s - 11 - (m + 3))
  {
    cells := Add(version, before, 0, 4, m - 2, m + 3);
    cells := Add(version, cells, 9, m - 2, m - 2, m + 3);
    cells := Add(version, cells, m + 3, s - 9, m - 2, m + 3);
    cells := Add(version, cells, s - 4, s, m - 2, m + 3);
    cells := AddColumns(version, s, cells, m + 3, s - 11);
  }

  lemma {:induction false} OpenRight(version: nat, s: int, m: int, before: set<Cell>) returns (cells: set<Cell>)
    requires 7 <= version <= 10 && s == SizeOf(version) && m == MiddleCenter(version)
    requires AllOpen(version, before) && Behind(before, s, m + 3, s - 11)
    ensures AllOpen(version, cells)
    ensures |cells| == |before| + 2 * (s - 7) + (s - 17) + 4 * (s - 19) + 4 * (s - 9)
  {
    cells := Add(version, before, 7, s, s - 11, s - 9);
    cells := Add(version, cells, 7, m - 2, s - 9, s - 8);
    cells := Add(version, cells, m + 3, s - 9, s - 9, s - 8);
    cells := Add(version, cells, s - 4, s, s - 9, s - 8);
    cells := Add(version, cells, 9, m - 2, s - 8, s - 4);
    cells := Add(version, cells, m + 3, s - 9, s - 8, s - 4);
    cells := Add(version, cells, s - 4, s, s - 8, s - 4);
    cells := Add(version, cells, 9, s, s - 4, s);
  }

  /** Outside everything reserved there is room for all codewords of the version. */
  lemma {:induction false} RoomForCodewords(version: nat) returns (cells: set<Cell>)
    requires Version(version)
    ensures AllOpen(version, cells) && 8 * CODEWORDS[version - 1] <= |cells|
  {
    var s, m := SizeOf(version), MiddleCenter(version);
    if version == 1 {
      cells := OpenOne();
    } else if version <= 6 {
      cells := OpenFew(version, s);
      assert version == 2 || version == 3 || version == 4 || version == 5 || version == 6;
    } else {
      cells := OpenLeft(version, s, m);
      cells := OpenMiddle(version, s, m, cells);
      cells := OpenRight(version, s, m, cells);
      assert version == 7 || version == 8 || version == 9 || version == 10;
    }
  }

  /** A symbol whose modules are free outside everything reserved has room for the codewords. */
  lemma {:induction false} FreeEnough(start: Symbol, version: nat)
    requires Version(version) && OfSize(start, SizeOf(version))
    requires forall r, c {:trigger ModuleAt(start, SizeOf(version), r, c)} ::
            OnBoard(SizeOf(version), r, c) && !Reserved(version, r, c) ==>
               ModuleAt(start, SizeOf(version), r, c) == Unset
    ensures 8 * CODEWORDS[version - 1] <= FreeBefore(start, SizeOf(version), Modules(SizeOf(version)))
  {
    var cells := RoomForCodewords(version);
    CellsCounted(start, SizeOf(version), cells);
  }
}
