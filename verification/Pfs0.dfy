module Pfs0Archives {
  // The archive that packages arrive in: opening, looking up, reading, and how one is laid out.

  import opened Common
  import opened Endian

  datatype Entry = Entry(name: seq<byte>, offset: nat, size: nat)

  datatype Raw = Raw(offset: nat, size: nat, stringOffset: nat)

  datatype Fault = InvalidHeader | InvalidEntries | InvalidName

  /** What opening leaves behind: the entries listed before the first fault. */
  datatype Listing = Listing(entries: seq<Entry>, fault: Option<Fault>)

  const HEADER: nat := 16
  const RECORD: nat := 24
  const MOST_FILES: nat := 4096
  const MOST_NAMES: nat := 4 * 1024 * 1024
  const MAGIC: seq<byte> := [80, 70, 83, 48]
  const WIDE: nat := 8
  const NARROW: nat := 4
  const U64: nat := 0x1_0000_0000_0000_0000

  /** Where record `i` starts. */
  function Place(i: nat): nat {
    16 + 24 * i
  }

  // ----- what a file says

  function Count(file: seq<byte>): nat
    requires |file| >= HEADER
  {
    Le(file[4..8])
  }

  function TableSize(file: seq<byte>): nat
    requires |file| >= HEADER
  {
    Le(file[8..12])
  }

  function TableStart(file: seq<byte>): nat
    requires |file| >= HEADER
  {
    Place(Count(file))
  }

  function DataStart(file: seq<byte>): nat
    requires |file| >= HEADER
  {
    TableStart(file) + TableSize(file)
  }

  predicate HeaderOk(file: seq<byte>) {
    |file| >= HEADER && file[..4] == MAGIC && 1 <= Count(file) <= MOST_FILES && TableSize(file) <= MOST_NAMES
  }

  predicate Fits(file: seq<byte>) {
    HeaderOk(file) && DataStart(file) <= |file|
  }

  function RecordAt(file: seq<byte>, at: nat): Raw
    requires at + RECORD <= |file|
  {
    Raw(Le(file[at..at + 8]), Le(file[at + 8..at + 16]), Le(file[at + 16..at + 20]))
  }

  function Strings(file: seq<byte>): seq<byte>
    requires Fits(file)
  {
    file[TableStart(file)..DataStart(file)]
  }

  /** Where the text that starts at `at` ends: at the first zero, or at the end. */
  function Terminator(s: seq<byte>, at: nat): (end: nat)
    requires at <= |s|
    ensures at <= end <= |s| && (end < |s| ==> s[end] == 0)
    ensures forall i :: at <= i < end ==> s[i] != 0
    decreases |s| - at
  {
    if at == |s| || s[at] == 0 then at else Terminator(s, at + 1)
  }

  predicate InRange(raw: Raw, strings: seq<byte>, room: nat) {
    raw.stringOffset < |strings| && raw.offset + raw.size <= room
  }

  function EntryOf(raw: Raw, strings: seq<byte>, start: nat): Option<Entry>
    requires raw.stringOffset < |strings|
  {
    var end := Terminator(strings, raw.stringOffset);
    if end == |strings| || end == raw.stringOffset then None
    else Some(Entry(strings[raw.stringOffset..end], start + raw.offset, raw.size))
  }

  function Added(list: Listing, raw: Raw, strings: seq<byte>, start: nat, room: nat): Listing {
    if list.fault.Some? then list
    else if !InRange(raw, strings, room) then list.(fault := Some(InvalidEntries))
    else
      match EntryOf(raw, strings, start)
      case None => list.(fault := Some(InvalidName))
      case Some(entry) => list.(entries := list.entries + [entry])
  }

  /** The list after the first `n` records. */
  function ListUpTo(file: seq<byte>, strings: seq<byte>, start: nat, room: nat, n: nat): Listing
    requires Place(n) <= |file|
    decreases n
  {
    if n == 0 then Listing([], None)
    else Added(ListUpTo(file, strings, start, room, n - 1), RecordAt(file, Place(n - 1)), strings, start, room)
  }

  function Opened(file: seq<byte>): Listing {
    if !HeaderOk(file) then Listing([], Some(InvalidHeader))
    else if !Fits(file) then Listing([], Some(InvalidEntries))
    else ListUpTo(file, Strings(file), DataStart(file), |file| - DataStart(file), Count(file))
  }

  // ----- what an accepted archive looks like

  /** The entry is a range of the file, and its name is a piece of the string table that a zero ends. */
  ghost predicate EntryIn(e: Entry, strings: seq<byte>, start: nat, end: nat) {
    && start <= e.offset && e.offset + e.size <= end
    && e.name != [] && 0 !in e.name
    && exists at: nat :: NameAt(strings, at, e.name)
  }

  predicate NameAt(strings: seq<byte>, at: nat, name: seq<byte>) {
    at + |name| < |strings| && strings[at..at + |name|] == name && strings[at + |name|] == 0
  }

  lemma {:induction false} AddedIn(list: Listing, raw: Raw, strings: seq<byte>, start: nat, room: nat)
    requires forall e :: e in list.entries ==> EntryIn(e, strings, start, start + room)
    ensures forall e :: e in Added(list, raw, strings, start, room).entries ==> EntryIn(e, strings, start, start + room)
  {
    if list.fault.None? && InRange(raw, strings, room) && EntryOf(raw, strings, start).Some? {
      var e := EntryOf(raw, strings, start).value;
      assert NameAt(strings, raw.stringOffset, e.name);
      forall i | 0 <= i < |e.name|
        ensures e.name[i] != 0
      {
        assert e.name[i] == strings[raw.stringOffset + i];
      }
      assert EntryIn(e, strings, start, start + room);
    }
  }

  /** Whatever the file: every listed entry lies inside it and has a proper name. */
  lemma {:induction false} ListedIn(file: seq<byte>, strings: seq<byte>, start: nat, room: nat, n: nat)
    requires Place(n) <= |file|
    ensures var list := ListUpTo(file, strings, start, room, n);
            && (forall e :: e in list.entries ==> EntryIn(e, strings, start, start + room))
            && (list.fault.None? ==> |list.entries| == n)
    decreases n
  {
    if n > 0 {
      ListedIn(file, strings, start, room, n - 1);
      AddedIn(ListUpTo(file, strings, start, room, n - 1), RecordAt(file, Place(n - 1)), strings, start, room);
    }
  }

  /** Every entry of an accepted archive lies behind the string table and inside the file. */
  lemma {:induction false} AcceptedIsSound(file: seq<byte>)
    requires Opened(file).fault.None?
    ensures Fits(file) && |Opened(file).entries| == Count(file)
    ensures forall e :: e in Opened(file).entries ==> EntryIn(e, Strings(file), DataStart(file), |file|)
  {
    ListedIn(file, Strings(file), DataStart(file), |file| - DataStart(file), Count(file));
  }

  // ----- the layout

  datatype File = File(name: seq<byte>, data: seq<byte>)

  function NamesUpTo(files: seq<File>, n: nat): seq<byte>
    requires n <= |files|
  {
    if n == 0 then [] else NamesUpTo(files, n - 1) + (files[n - 1].name + [0])
  }

  function DataUpTo(files: seq<File>, n: nat): seq<byte>
    requires n <= |files|
  {
    if n == 0 then [] else DataUpTo(files, n - 1) + files[n - 1].data
  }

  function RecordOf(files: seq<File>, i: nat): (r: seq<byte>)
    requires i < |files|
    ensures |r| == RECORD
  {
    ToLe(|DataUpTo(files, i)|, WIDE) + ToLe(|files[i].data|, WIDE)
        + (ToLe(|NamesUpTo(files, i)|, NARROW) + ToLe(0, NARROW))
  }

  function Records(files: seq<File>): (r: seq<seq<byte>>)
    ensures |r| == |files| && forall i :: 0 <= i < |files| ==> r[i] == RecordOf(files, i)
  {
    seq(|files|, i requires 0 <= i < |files| => RecordOf(files, i))
  }

  function Head(files: seq<File>): (r: seq<byte>)
    ensures |r| == HEADER
  {
    MAGIC + ToLe(|files|, NARROW) + (ToLe(|NamesUpTo(files, |files|)|, NARROW) + ToLe(0, NARROW))
  }

  function Layout(files: seq<File>): seq<byte> {
    Head(files) + Joined(Records(files)) + (NamesUpTo(files, |files|) + DataUpTo(files, |files|))
  }

  /** The numbers fit the header's fields. */
  predicate Sized(files: seq<File>) {
    |files| < Pow256(NARROW) && |NamesUpTo(files, |files|)| < Pow256(NARROW)
        && |DataUpTo(files, |files|)| < Pow256(WIDE)
  }

  predicate Proper(name: seq<byte>) {
    name != [] && 0 !in name
  }

  predicate Openable(files: seq<File>) {
    && 1 <= |files| <= MOST_FILES && |NamesUpTo(files, |files|)| <= MOST_NAMES
    && forall i :: 0 <= i < |files| ==> Proper(files[i].name)
  }

  /** What opening the layout should list. */
  function EntryFor(files: seq<File>, i: nat): Entry
    requires i < |files|
  {
    Entry(files[i].name,
          Place(|files|) + |NamesUpTo(files, |files|)| + |DataUpTo(files, i)|,
          |files[i].data|)
  }

  predicate Lists(files: seq<File>, entries: seq<Entry>, n: nat)
    requires n <= |files|
  {
    |entries| == n && forall i :: 0 <= i < n ==> entries[i] == EntryFor(files, i)
  }

  lemma Kept<T>(a: seq<T>, b: seq<T>, j: nat, k: nat)
    requires j <= k <= |a|
    ensures (a + b)[j..k] == a[j..k]
  {
  }

  lemma Appended<T>(a: seq<T>, b: seq<T>, at: nat)
    requires at == |a|
    ensures (a + b)[at..at + |b|] == b
  {
  }

  lemma {:induction false} NamesSplit(files: seq<File>, i: nat, n: nat)
    requires i < n <= |files|
    ensures NameAt(NamesUpTo(files, n), |NamesUpTo(files, i)|, files[i].name)
    decreases n
  {
    var before, last := NamesUpTo(files, n - 1), files[n - 1].name + [0];
    if i < n - 1 {
      NamesSplit(files, i, n - 1);
      Kept(before, last, |NamesUpTo(files, i)|, |NamesUpTo(files, i)| + |files[i].name|);
    } else {
      Regroup(before, files[i].name, [0]);
    }
  }

  lemma {:induction false} DataSplit(files: seq<File>, i: nat, n: nat)
    requires i < n <= |files|
    ensures var at, all := |DataUpTo(files, i)|, DataUpTo(files, n);
            at + |files[i].data| <= |all| && all[at..at + |files[i].data|] == files[i].data
    decreases n
  {
    var before, at := DataUpTo(files, n - 1), |DataUpTo(files, i)|;
    if i < n - 1 {
      DataSplit(files, i, n - 1);
      Kept(before, files[n - 1].data, at, at + |files[i].data|);
    } else {
      Appended(before, files[i].data, at);
    }
  }

  /** Chunks of 24 stand at the multiples of it. */
  lemma {:induction false} ChunkAt<T>(parts: seq<seq<T>>, i: nat, at: nat)
    requires (forall p :: p in parts ==> |p| == 24) && i < |parts| && at == 24 * i
    ensures at + 24 <= |Joined(parts)| && Joined(parts)[at..at + 24] == parts[i]
    decreases i
  {
    var rest := Joined(parts[1..]);
    if i == 0 {
      assert (parts[0] + rest)[0..24] == parts[0];
    } else {
      ChunkAt(parts[1..], i - 1, at - 24);
      assert (parts[0] + rest)[at..at + 24] == rest[at - 24..at];
    }
  }

  lemma {:induction false} ChunksLength<T>(parts: seq<seq<T>>)
    requires forall p :: p in parts ==> |p| == 24
    ensures |Joined(parts)| == 24 * |parts|
  {
    if parts != [] { ChunksLength(parts[1..]); }
  }

  /** Four pieces in a row, the last two of one width. */
  lemma FourPieces<T>(a: seq<T>, b: seq<T>, c: seq<T>, d: seq<T>, x: nat, y: nat, z: nat)
    requires x == |a| && y == x + |b| && z == y + |c|
    ensures var all := a + b + (c + d);
            all[..x] == a && all[x..y] == b && all[y..z] == c && |all| == z + |d| && all[z..|all|] == d
  {
  }

  lemma {:induction false} HeadReads(files: seq<File>, rest: seq<byte>)
    requires Sized(files)
    ensures var file := Head(files) + rest;
            file[..4] == MAGIC && Count(file) == |files| && TableSize(file) == |NamesUpTo(files, |files|)|
  {
    var names := |NamesUpTo(files, |files|)|;
    FourPieces(MAGIC, ToLe(|files|, NARROW), ToLe(names, NARROW), ToLe(0, NARROW), 4, 8, 12);
    Kept(Head(files), rest, 0, 4);
    Kept(Head(files), rest, 4, 8);
    Kept(Head(files), rest, 8, 12);
    LeToLe(|files|, NARROW);
    LeToLe(names, NARROW);
  }

  /** The layout's parts, where `open` looks for them. */
  predicate LaidOut(files: seq<File>, file: seq<byte>, table: nat, start: nat) {
    var names, data := NamesUpTo(files, |files|), DataUpTo(files, |files|);
    && Place(|files|) == table && start == table + |names| && |file| == start + |data|
    && file[16..table] == Joined(Records(files)) && file[table..start] == names && file[start..|file|] == data
    && file[..4] == MAGIC && Count(file) == |files| && TableSize(file) == |names|
  }

  lemma {:induction false} LayoutIs(files: seq<File>, table: nat, start: nat)
    requires Sized(files) && table == Place(|files|) && start == table + |NamesUpTo(files, |files|)|
    ensures LaidOut(files, Layout(files), table, start)
  {
    var head, records, names, data := Head(files), Joined(Records(files)), NamesUpTo(files, |files|),
        DataUpTo(files, |files|);
    ChunksLength(Records(files));
    FourPieces(head, records, names, data, HEADER, table, start);
    Regroup(head, records, names + data);
    HeadReads(files, records + (names + data));
  }

  lemma {:induction false} RecordReads(files: seq<File>, i: nat, file: seq<byte>, at: nat)
    requires i < |files| && Sized(files) && at + RECORD <= |file| && file[at..at + RECORD] == RecordOf(files, i)
    ensures RecordAt(file, at) == Raw(|DataUpTo(files, i)|, |files[i].data|, |NamesUpTo(files, i)|)
  {
    var a, b, c := |DataUpTo(files, i)|, |files[i].data|, |NamesUpTo(files, i)|;
    DataSplit(files, i, |files|);
    NamesSplit(files, i, |files|);
    FourPieces(ToLe(a, WIDE), ToLe(b, WIDE), ToLe(c, NARROW), ToLe(0, NARROW), 8, 16, 20);
    SliceOfSlice(file, at, at + RECORD, 0, 8);
    SliceOfSlice(file, at, at + RECORD, 8, 16);
    SliceOfSlice(file, at, at + RECORD, 16, 20);
    LeToLe(a, WIDE);
    LeToLe(b, WIDE);
    LeToLe(c, NARROW);
  }

  lemma {:induction false} RecordStands(records: seq<seq<byte>>, file: seq<byte>, table: nat, i: nat, at: nat)
    requires (forall p :: p in records ==> |p| == 24) && i < |records| && at == Place(i)
    requires 16 <= table <= |file| && file[16..table] == Joined(records)
    ensures at + 24 <= table && file[at..at + 24] == records[i]
  {
    ChunkAt(records, i, at - 16);
    SliceOfSlice(file, 16, table, at - 16, at - 16 + 24);
  }

  lemma {:induction false} LayoutRecord(files: seq<File>, file: seq<byte>, table: nat, i: nat, at: nat)
    requires Sized(files) && i < |files| && at == Place(i)
    requires 16 <= table <= |file| && file[16..table] == Joined(Records(files))
    ensures at + RECORD <= table
    ensures RecordAt(file, at) == Raw(|DataUpTo(files, i)|, |files[i].data|, |NamesUpTo(files, i)|)
  {
    RecordStands(Records(files), file, table, i, at);
    RecordReads(files, i, file, at);
  }

  /** One text of the table is found where its record says, up to the first zero in it. */
  lemma {:induction false} NameReads(strings: seq<byte>, at: nat, name: seq<byte>)
    requires NameAt(strings, at, name)
    ensures Proper(name) <==> Terminator(strings, at) == at + |name| && name != []
    ensures Terminator(strings, at) <= at + |name|
  {
    var end := Terminator(strings, at);
    forall i | 0 <= i < |name|
      ensures name[i] == strings[at + i]
    {
      assert name[i] == strings[at..at + |name|][i];
    }
    if end < at + |name| { assert name[end - at] == 0; }
  }

  /** A record that points at a text adds an entry of that name exactly if the text is a proper name. */
  lemma {:induction false} AddedIs(list: Listing, raw: Raw, strings: seq<byte>, start: nat, room: nat, name: seq<byte>)
    requires InRange(raw, strings, room) && NameAt(strings, raw.stringOffset, name)
    ensures var next := Added(list, raw, strings, start, room);
            && (next.fault.None? ==> list.fault.None? && |next.entries| == |list.entries| + 1
                                     && next.entries[..|list.entries|] == list.entries)
            && (list.fault.None? && Proper(name) ==>
                next == Listing(list.entries + [Entry(name, start + raw.offset, raw.size)], None))
            && (next.fault.None? && next.entries[|list.entries|].name == name ==> Proper(name))
  {
    NameReads(strings, raw.stringOffset, name);
  }

  predicate ProperUpTo(files: seq<File>, n: nat)
    requires n <= |files|
  {
    forall i :: 0 <= i < n ==> Proper(files[i].name)
  }

  lemma {:induction false} ListsOneMore(files: seq<File>, list: Listing, next: Listing, i: nat)
    requires i < |files| && (list.fault.None? && Lists(files, list.entries, i) <==> ProperUpTo(files, i))
    requires next.fault.None? ==>
            list.fault.None? && |next.entries| == |list.entries| + 1 && next.entries[..|list.entries|] == list.entries
    requires list.fault.None? && Proper(files[i].name) ==>
            next.fault.None? && next.entries == list.entries + [EntryFor(files, i)]
    requires next.fault.None? && next.entries[|list.entries|].name == files[i].name ==> Proper(files[i].name)
    ensures next.fault.None? && Lists(files, next.entries, i + 1) <==> ProperUpTo(files, i + 1)
  {
    if next.fault.None? && Lists(files, next.entries, i + 1) {
      assert forall k :: 0 <= k < i ==> list.entries[k] == next.entries[k];
      assert next.entries[i] == EntryFor(files, i);
    }
  }

  /** One record of the layout after the others. */
  lemma {:induction false} ListsRecord(files: seq<File>, list: Listing, names: seq<byte>, start: nat, room: nat, i: nat)
    requires i < |files| && (list.fault.None? && Lists(files, list.entries, i) <==> ProperUpTo(files, i))
    requires names == NamesUpTo(files, |files|) && start == Place(|files|) + |names|
            && room == |DataUpTo(files, |files|)|
    ensures var next := Added(list, Raw(|DataUpTo(files, i)|, |files[i].data|, |NamesUpTo(files, i)|), names, start,
            room);
            next.fault.None? && Lists(files, next.entries, i + 1) <==> ProperUpTo(files, i + 1)
  {
    var raw := Raw(|DataUpTo(files, i)|, |files[i].data|, |NamesUpTo(files, i)|);
    NamesSplit(files, i, |files|);
    DataSplit(files, i, |files|);
    AddedIs(list, raw, names, start, room, files[i].name);
    ListsOneMore(files, list, Added(list, raw, names, start, room), i);
  }

  /** Listing the first files of a layout; proper names are needed and enough. */
  lemma {:induction false} ListsLayout(files: seq<File>, file: seq<byte>, names: seq<byte>, table: nat, start: nat,
          room: nat, n: nat)
    requires Sized(files) && n <= |files|
    requires names == NamesUpTo(files, |files|) && room == |DataUpTo(files, |files|)|
    requires table == Place(|files|) && start == table + |names|
    requires table <= |file| && file[16..table] == Joined(Records(files))
    ensures var list := ListUpTo(file, names, start, room, n);
            list.fault.None? && Lists(files, list.entries, n) <==> ProperUpTo(files, n)
    decreases n
  {
    if n > 0 {
      ListsLayout(files, file, names, table, start, room, n - 1);
      LayoutRecord(files, file, table, n - 1, Place(n - 1));
      ListsRecord(files, ListUpTo(file, names, start, room, n - 1), names, start, room, n - 1);
    }
  }

  /** Every file's bytes stand where its entry says. */
  lemma {:induction false} LaidOutHolds(files: seq<File>, file: seq<byte>, table: nat, start: nat, i: nat)
    requires LaidOut(files, file, table, start) && i < |files|
    ensures var e := EntryFor(files, i);
            e.offset + e.size <= |file| && file[e.offset..e.offset + e.size] == files[i].data
  {
    var at := |DataUpTo(files, i)|;
    DataSplit(files, i, |files|);
    SliceOfSlice(file, start, |file|, at, at + |files[i].data|);
  }

  lemma {:induction false} LaidOutStrings(files: seq<File>, file: seq<byte>, table: nat, start: nat)
    requires LaidOut(files, file, table, start) && Fits(file)
    ensures Opened(file) == ListUpTo(file, NamesUpTo(files, |files|), start, |DataUpTo(files, |files|)|, |files|)
  {
  }

  lemma {:induction false} LaidOutOpens(files: seq<File>, file: seq<byte>, table: nat, start: nat)
    requires Sized(files) && LaidOut(files, file, table, start)
    ensures var list := Opened(file);
            list.fault.None? && Lists(files, list.entries, |files|) <==> Openable(files)
  {
    var names, room := NamesUpTo(files, |files|), |DataUpTo(files, |files|)|;
    if Fits(file) {
      LaidOutStrings(files, file, table, start);
      ListsLayout(files, file, names, table, start, room, |files|);
    }
  }

  /**
    Opening what was laid out lists exactly the files, in order, exactly if there are 1 to 4096 of them, the
    names fit 4 MiB, and every name is non-empty and free of zeros; and each entry's range holds the data.
   */
  lemma {:induction false} LayoutOpens(files: seq<File>)
    requires Sized(files)
    ensures var list := Opened(Layout(files));
            list.fault.None? && Lists(files, list.entries, |files|) <==> Openable(files)
    ensures forall i :: 0 <= i < |files| ==>
              var e := EntryFor(files, i);
              e.offset + e.size <= |Layout(files)| && Layout(files)[e.offset..e.offset + e.size] == files[i].data
  {
    var table := Place(|files|);
    var start := table + |NamesUpTo(files, |files|)|;
    LayoutIs(files, table, start);
    LaidOutOpens(files, Layout(files), table, start);
    forall i | 0 <= i < |files|
      ensures var e := EntryFor(files, i);
              e.offset + e.size <= |Layout(files)| && Layout(files)[e.offset..e.offset + e.size] == files[i].data
    {
      LaidOutHolds(files, Layout(files), table, start, i);
    }
  }

  // ----- the object

  class Pfs0 {
    var entries: seq<Entry>
    var valid: bool
    var input: seq<byte>

    constructor ()
      ensures !valid && entries == []
    {
      entries, valid, input := [], false, [];
    }

    /** An archive that opened, and nothing has changed the file since. */
    ghost predicate Ready()
      reads this
    {
      |input| < U64 && (valid ==> Opened(input).fault.None? && entries == Opened(input).entries)
    }

    method Open(file: seq<byte>) returns (ok: bool)
      requires |file| < U64
      modifies this
      ensures Ready() && input == file && ok == valid
      ensures ok <==> Opened(file).fault.None?
      ensures entries == Opened(file).entries
    {
      valid, entries, input := false, [], file;
      if |file| < HEADER || file[..4] != MAGIC { return false; }
      var count := ReadLe32(file[4..8]);
      var table := ReadLe32(file[8..12]);
      if count == 0 || count as int > MOST_FILES || table as int > MOST_NAMES { return false; }
      var total := |file| as u64;
      var start: u64 := HEADER as u64 + (count as u64) * 24 + table as u64;
      if start > total { return false; }
      valid := ListAll(file[TableStart(file)..DataStart(file)], count as nat, start, total - start);
      return valid;
    }

    /** The loop over the records. */
    method ListAll(strings: seq<byte>, count: nat, start: u64, room: u64) returns (ok: bool)
      requires Place(count) <= |input| && entries == []
      modifies this`entries
      ensures ok <==> ListUpTo(input, strings, start as nat, room as nat, count).fault.None?
      ensures entries == ListUpTo(input, strings, start as nat, room as nat, count).entries
    {
      for i := 0 to count
        invariant ListUpTo(input, strings, start as nat, room as nat, i) == Listing(entries, None)
      {
        var added := AddEntry(strings, start, room, Place(i));
        if !added {
          FaultStays(input, strings, start as nat, room as nat, i + 1, count);
          return false;
        }
      }
      return true;
    }

    /** The body of the loop over the records. */
    method AddEntry(strings: seq<byte>, start: u64, room: u64, at: nat) returns (ok: bool)
      requires at + RECORD <= |input|
      modifies this`entries
      ensures ok <==> Added(Listing(old(entries), None), RecordAt(input, at), strings, start as nat,
              room as nat).fault.None?
      ensures entries == Added(Listing(old(entries), None), RecordAt(input, at), strings, start as nat,
              room as nat).entries
    {
      var offset := ReadLe64(input[at..at + 8]);
      var size := ReadLe64(input[at + 8..at + 16]);
      var stringOffset := ReadLe32(input[at + 16..at + 20]);
      if stringOffset as int >= |strings| || offset > room || size > room - offset { return false; }
      var end := stringOffset as nat;
      while end < |strings| && strings[end] != 0
        invariant stringOffset as nat <= end <= |strings|
        invariant Terminator(strings, stringOffset as nat) == Terminator(strings, end)
      {
        end := end + 1;
      }
      if end == |strings| || end == stringOffset as int { return false; }
      entries := entries + [Entry(strings[stringOffset as int..end], start as nat + offset as nat, size as nat)];
      return true;
    }

    /** The first entry of that name. */
    method Find(name: seq<byte>) returns (found: Option<Entry>)
      ensures found.None? <==> forall e :: e in entries ==> e.name != name
      ensures found.Some? ==> exists i :: 0 <= i < |entries| && entries[i] == found.value && found.value.name == name
                                          && forall k :: 0 <= k < i ==> entries[k].name != name
    {
      for i := 0 to |entries|
        invariant forall k :: 0 <= k < i ==> entries[k].name != name
      {
        if entries[i].name == name { return Some(entries[i]); }
      }
      return None;
    }

    /**
      Bytes of one entry. Whatever entry is passed, the position is computed in 64 bits; for one of this
      archive it cannot wrap, and what is read lies inside the entry.
     */
    method Read(entry: Entry, offset: u64, size: u64) returns (bytes: Option<seq<byte>>)
      requires Ready() && entry.offset < U64 && entry.size < U64
      ensures bytes.Some? ==> valid && offset as int + size as int <= entry.size && |bytes.value| == size as int
      ensures valid && entry in entries ==>
                && (bytes.Some? <==> offset as int + size as int <= entry.size)
                && entry.offset + entry.size <= |input|
                && (bytes.Some? ==> bytes.value == input[entry.offset..entry.offset
                    + entry.size][offset as int..offset as int + size as int])
    {
      if valid { AcceptedIsSound(input); }
      if !valid || offset as int > entry.size || size as int > entry.size - offset as int { return None; }
      var position := (entry.offset + offset as nat) % U64;
      if entry in entries { SliceOfSlice(input, entry.offset, entry.offset + entry.size, offset as nat,
          offset as nat + size as nat); }
      if position + size as int > |input| { return None; }
      return Some(input[position..position + size as int]);
    }
  }

  /** A fault ends the list. */
  lemma {:induction false} FaultStays(file: seq<byte>, strings: seq<byte>, start: nat, room: nat, i: nat, n: nat)
    requires Place(n) <= |file| && i <= n && ListUpTo(file, strings, start, room, i).fault.Some?
    ensures ListUpTo(file, strings, start, room, n) == ListUpTo(file, strings, start, room, i)
    decreases n
  {
    if i < n { FaultStays(file, strings, start, room, i, n - 1); }
  }
}
