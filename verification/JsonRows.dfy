/** Cutting a list of records out of the text, aware of strings and nesting. */
module JsonRows {
  import opened Common
  import opened Decimal
  import opened JsonText
  import opened JsonFields

  predicate Blank(c: char) {
    c == ' ' || c == '\n' || c == ','
  }

  function SkipBlanks(s: string): (t: string)
    ensures |t| <= |s| && (t != [] ==> !Blank(t[0]))
  {
    if s != [] && Blank(s[0]) then SkipBlanks(s[1..]) else s
  }

  /** How many characters it takes until the braces are balanced. */
  function RowLength(s: string, depth: nat, inString: bool, escaped: bool): (n: Option<nat>)
    ensures n.Some? ==> n.value <= |s|
  {
    if depth == 0 then Some(0)
    else if s == [] then None
    else
      var c := s[0];
      var rest :=
        if inString then RowLength(s[1..], depth, escaped || c != '"', !escaped && c == '\\')
        else if c == '"' then RowLength(s[1..], depth, true, escaped)
        else RowLength(s[1..], if c == '{' then depth + 1 else if c == '}' then depth - 1 else depth, false, escaped);
      if rest.Some? then Some(rest.value + 1) else None
  }

  /** The records from the start of a list's contents. */
  function RowsFrom(s: string): seq<string>
    decreases |s|
  {
    var t := SkipBlanks(s);
    if t == [] || t[0] != '{' then []
    else
      var n := RowLength(t[1..], 1, false, false);
      if n.None? then [] else [t[..n.value + 1]] + RowsFrom(t[n.value + 1..])
  }

  /** `objectRows`. */
  function ObjectRows(json: string, key: string): seq<string> {
    var after := After(json, Marker(key, "["));
    if after.None? then [] else RowsFrom(after.value)
  }

  // ----- scanning printed records

  /** Adding what has been passed. */
  function Passed(n: nat, rest: Option<nat>): Option<nat> {
    if rest.Some? then Some(n + rest.value) else None
  }

  lemma {:induction false} ScanChar(c: char, rest: string, depth: nat)
    requires depth > 0
    ensures RowLength(EscapeChar(c) + rest, depth, true, false)
            == Passed(|EscapeChar(c)|, RowLength(rest, depth, true, false))
  {
    var s := EscapeChar(c) + rest;
    assert s[|EscapeChar(c)|..] == rest;
    if |EscapeChar(c)| == 2 { assert s[1..][1..] == rest; }
  }

  /** An escaped string ends exactly at its closing quote. */
  lemma {:induction false} ScanEscaped(value: string, rest: string, depth: nat)
    requires depth > 0
    ensures RowLength(Escape(value) + ['"'] + rest, depth, true, false)
            == Passed(|Escape(value)| + 1, RowLength(rest, depth, false, false))
    decreases |value|
  {
    if value == [] {
      assert Escape(value) + ['"'] + rest == ['"'] + rest;
      assert (['"'] + rest)[1..] == rest;
    } else {
      var tail := Escape(value[1..]) + ['"'] + rest;
      assert Escape(value) + ['"'] + rest == EscapeChar(value[0]) + tail;
      ScanChar(value[0], tail, depth);
      ScanEscaped(value[1..], rest, depth);
    }
  }

  lemma {:induction false} ScanQuoted(value: string, rest: string, depth: nat)
    requires depth > 0
    ensures RowLength(['"'] + Escape(value) + ['"'] + rest, depth, false, false)
            == Passed(|Escape(value)| + 2, RowLength(rest, depth, false, false))
  {
    ScanEscaped(value, rest, depth);
    assert (['"'] + Escape(value) + ['"'] + rest)[1..] == Escape(value) + ['"'] + rest;
  }

  /** Text without quotes and braces. */
  predicate Flat(text: string) {
    forall i :: 0 <= i < |text| ==> text[i] != '"' && text[i] != '{' && text[i] != '}'
  }

  lemma {:induction false} ScanFlat(text: string, rest: string, depth: nat)
    requires Flat(text) && depth > 0
    ensures RowLength(text + rest, depth, false, false) == Passed(|text|, RowLength(rest, depth, false, false))
    decreases |text|
  {
    if text == [] {
      assert text + rest == rest;
    } else {
      ScanFlat(text[1..], rest, depth);
      assert (text + rest)[1..] == text[1..] + rest;
    }
  }

  lemma {:induction false} NameIsEscaped(name: string)
    requires forall i :: 0 <= i < |name| ==> name[i] != '"' && name[i] != '\\' && name[i] != '\n'
    ensures Escape(name) == name
  {
    if name != [] { NameIsEscaped(name[1..]); }
  }

  lemma {:induction false} ScanToken(t: Token, rest: string, depth: nat)
    requires depth > 0 && (t.Key? ==> Name(t.name)) && (t.Raw? ==> Flat(t.text))
    ensures RowLength(TokenText(t) + rest, depth, false, false)
            == Passed(|TokenText(t)|, RowLength(rest, depth, false, false))
  {
    match t {
      case Key(name) =>
        NameIsEscaped(name);
        assert TokenText(t) + rest == ['"'] + Escape(name) + ['"'] + (":" + rest);
        ScanQuoted(name, ":" + rest, depth);
        ScanFlat(":", rest, depth);
      case Str(value) =>
        assert TokenText(t) + rest == ['"'] + Escape(value) + ['"'] + rest;
        ScanQuoted(value, rest, depth);
      case Raw(text) =>
        ScanFlat(text, rest, depth);
    }
  }

  predicate FlatTokens(tokens: seq<Token>) {
    forall i :: 0 <= i < |tokens| ==>
        (tokens[i].Key? ==> Name(tokens[i].name)) && (tokens[i].Raw? ==> Flat(tokens[i].text))
  }

  lemma {:induction false} ScanTokens(tokens: seq<Token>, rest: string, depth: nat)
    requires depth > 0 && FlatTokens(tokens)
    ensures RowLength(Text(tokens) + rest, depth, false, false)
            == Passed(|Text(tokens)|, RowLength(rest, depth, false, false))
  {
    if tokens == [] {
      assert Text(tokens) + rest == rest;
    } else {
      ScanTokens(tokens[1..], rest, depth);
      ScanToken(tokens[0], Text(tokens[1..]) + rest, depth);
      Regroup(TokenText(tokens[0]), Text(tokens[1..]), rest);
    }
  }

  lemma {:induction false} FieldIsFlat(f: Field)
    requires FieldOk(f)
    ensures FlatTokens(FieldTokens(f))
  {
    if f.Number? {
      var p := Print(f.n);
      forall i | 0 <= i < |p|
        ensures p[i] != '"' && p[i] != '{' && p[i] != '}'
      {
        assert IsDigit(p[i]);
      }
    }
  }

  lemma {:induction false} MoreFieldsFlat(fields: seq<Field>)
    requires FieldsOk(fields)
    ensures FlatTokens(MoreFields(fields))
  {
    if fields != [] {
      FieldIsFlat(fields[0]);
      MoreFieldsFlat(fields[1..]);
    }
  }

  lemma {:induction false} TextAppend(a: seq<Token>, b: seq<Token>)
    ensures Text(a + b) == Text(a) + Text(b)
  {
    if a == [] {
      assert a + b == b;
    } else {
      TextAppend(a[1..], b);
      assert (a + b)[1..] == a[1..] + b;
      Regroup(TokenText(a[0]), Text(a[1..]), Text(b));
    }
  }

  function RowText(fields: seq<Field>): string {
    Text(RowTokens(fields))
  }

  /** A printed record is cut out whole. */
  lemma {:induction false} ScanRow(fields: seq<Field>, rest: string)
    requires FieldsOk(fields) && fields != []
    ensures RowText(fields) != [] && RowText(fields)[0] == '{'
    ensures RowLength((RowText(fields) + rest)[1..], 1, false, false) == Some(|RowText(fields)| - 1)
  {
    var inner := Text(FieldsTokens(fields));
    RowIs(fields);
    Braced(inner, rest);
    FieldIsFlat(fields[0]);
    MoreFieldsFlat(fields[1..]);
    ScanTokens(FieldsTokens(fields), "}" + rest, 1);
    ScanEnd(rest);
  }

  lemma Braced(inner: string, rest: string)
    ensures ("{" + inner + "}" + rest)[1..] == inner + ("}" + rest)
  {
  }

  lemma {:induction false} ScanEnd(rest: string)
    ensures RowLength("}" + rest, 1, false, false) == Some(1)
  {
    assert ("}" + rest)[1..] == rest;
  }

  lemma {:induction false} RowIs(fields: seq<Field>)
    ensures RowText(fields) == "{" + Text(FieldsTokens(fields)) + "}"
  {
    TextAppend([Raw("{")], FieldsTokens(fields));
    TextAppend([Raw("{")] + FieldsTokens(fields), [Raw("}")]);
    TextOne("{");
    TextOne("}");
  }

  lemma TextOne(text: string)
    ensures Text([Raw(text)]) == text
  {
    assert [Raw(text)][1..] == [];
    assert text + [] == text;
  }

  function RowTexts(rows: seq<seq<Field>>): (r: seq<string>)
    ensures |r| == |rows|
    ensures forall i :: 0 <= i < |r| ==> r[i] == RowText(rows[i])
  {
    if rows == [] then [] else [RowText(rows[0])] + RowTexts(rows[1..])
  }

  lemma {:induction false} RowsFromRow(fields: seq<Field>, rest: string)
    requires FieldsOk(fields) && fields != []
    ensures RowsFrom(RowText(fields) + rest) == [RowText(fields)] + RowsFrom(rest)
  {
    var row := RowText(fields);
    ScanRow(fields, rest);
    var s := row + rest;
    assert s[0] == '{' && SkipBlanks(s) == s;
    assert s[..|row|] == row && s[|row|..] == rest;
  }

  lemma {:induction false} MoreRowsIs(rows: seq<seq<Field>>)
    requires rows != []
    ensures Text(MoreRows(rows)) == "," + RowText(rows[0]) + Text(MoreRows(rows[1..]))
  {
    TextAppend([Raw(",")], RowTokens(rows[0]));
    TextAppend([Raw(",")] + RowTokens(rows[0]), MoreRows(rows[1..]));
    TextOne(",");
  }

  lemma CommaParts(a: string, b: string, c: string)
    ensures "," + a + b + c == "," + (a + (b + c))
  {
  }

  lemma {:induction false} CommaFirst(s: string)
    ensures RowsFrom("," + s) == RowsFrom(s)
  {
    assert ("," + s)[1..] == s;
  }

  lemma {:induction false} RowsFromEnd(end: string)
    requires end != [] && end[0] == ']'
    ensures RowsFrom(end) == []
  {
    assert SkipBlanks(end) == end;
  }

  lemma {:induction false} RowsFromMore(rows: seq<seq<Field>>, end: string)
    requires RowsOk(rows) && end != [] && end[0] == ']'
    ensures RowsFrom(Text(MoreRows(rows)) + end) == RowTexts(rows)
    decreases |rows|
  {
    if rows == [] {
      assert Text(MoreRows(rows)) + end == end;
      RowsFromEnd(end);
    } else {
      var tail := Text(MoreRows(rows[1..])) + end;
      MoreRowsIs(rows);
      CommaParts(RowText(rows[0]), Text(MoreRows(rows[1..])), end);
      CommaFirst(RowText(rows[0]) + tail);
      RowsFromRow(rows[0], tail);
      RowsFromMore(rows[1..], end);
    }
  }

  /** The records of a printed list are cut out exactly. */
  lemma {:induction false} RowsFromRows(rows: seq<seq<Field>>, end: string)
    requires RowsOk(rows) && end != [] && end[0] == ']'
    ensures RowsFrom(Text(RowsTokens(rows)) + end) == RowTexts(rows)
  {
    if rows == [] {
      assert Text(RowsTokens(rows)) + end == end;
      RowsFromEnd(end);
    } else {
      TextAppend(RowTokens(rows[0]), MoreRows(rows[1..]));
      Regroup(RowText(rows[0]), Text(MoreRows(rows[1..])), end);
      RowsFromRow(rows[0], Text(MoreRows(rows[1..])) + end);
      RowsFromMore(rows[1..], end);
    }
  }

  // ----- finding a list

  /** No field's value starts with a bracket. */
  lemma {:induction false} NoBracket(fields: seq<Field>, key: string)
    ensures First(fields, key, "[") == None
  {
    if fields != [] {
      ValueStart(fields[0]);
      NoBracket(fields[1..], key);
    }
  }

  lemma {:induction false} ValueStart(f: Field)
    ensures !("[" <= TokenText(ValueToken(f)))
  {
    var t := TokenText(ValueToken(f));
    if f.Number? { assert IsDigit(Print(f.n)[0]); }
    assert "["[0] == '[';
    assert t != [] ==> t[0] != '[' by { ValueIsPlain(f); }
  }

  lemma {:induction false} NoBracketInRows(rows: seq<seq<Field>>, key: string)
    ensures FirstInRows(rows, key, "[") == None
  {
    if rows != [] {
      NoBracket(rows[0], key);
      NoBracketInRows(rows[1..], key);
    }
  }

  lemma {:induction false} NamedHere(list: List, more: seq<Token>)
    ensures Behind(ListTokens(list) + more, list.name, "[")
            == Some([Raw("[")] + (RowsTokens(list.rows) + ([Raw("]")] + more)))
  {
    var body := [Raw("[")] + (RowsTokens(list.rows) + ([Raw("]")] + more));
    ListParts(list, [Raw("]")] + more, more);
    BehindSkips(Raw(","), [Key(list.name)] + body, list.name, "[");
    assert ([Key(list.name)] + body)[1..] == body;
  }

  /** The first list of that name. */
  predicate Named(lists: seq<List>, key: string, i: nat) {
    i < |lists| && lists[i].name == key && forall j :: 0 <= j < i ==> lists[j].name != key
  }

  /** The tokens from the opening bracket of the named list on. */
  lemma {:induction false} BehindNamed(lists: seq<List>, rest: seq<Token>, key: string, i: nat)
    returns (more: seq<Token>)
    requires ListsOk(lists) && Closes(rest) && Named(lists, key, i)
    ensures Behind(ListsTokens(lists) + rest, key, "[")
            == Some([Raw("[")] + (RowsTokens(lists[i].rows) + ([Raw("]")] + more)))
    decreases i
  {
    var tail := ListsTokens(lists[1..]) + rest;
    Regroup(ListTokens(lists[0]), ListsTokens(lists[1..]), rest);
    ListsFormed(lists[1..], rest);
    if i == 0 {
      more := tail;
      NamedHere(lists[0], more);
    } else {
      PassList(lists[0], tail, key);
      assert Named(lists[1..], key, i - 1);
      more := BehindNamed(lists[1..], rest, key, i - 1);
    }
  }

  lemma {:induction false} PassList(list: List, rest: seq<Token>, key: string)
    requires RowsOk(list.rows) && WellFormed(rest) && list.name != key
    ensures Behind(ListTokens(list) + rest, key, "[") == Behind(rest, key, "[")
  {
    BehindList(list, rest, key, "[");
    NoBracketInRows(list.rows, key);
  }

  /** Reading a list of a printed file gives its records. */
  lemma {:induction false} ObjectRowsOf(header: seq<Field>, lists: seq<List>, key: string, i: nat)
    requires FieldsOk(header) && header != [] && ListsOk(lists)
    requires Named(lists, key, i)
    ensures ObjectRows(Text(FileTokens(header, lists)), key) == RowTexts(lists[i].rows)
  {
    var tail := ListsTokens(lists) + [Raw("}")];
    EndFormed();
    ListsFormed(lists, [Raw("}")]);
    FileFormed(header, lists);
    FileParts(header, lists);
    BehindSkips(Raw("{"), FieldsTokens(header) + tail, key, "[");
    BehindFields(header, tail, key, "[");
    NoBracket(header, key);
    var more := BehindNamed(lists, [Raw("}")], key, i);
    FindsKey(FileTokens(header, lists), key, "[");
    ListText(lists[i].rows, more);
    RowsFromRows(lists[i].rows, "]" + Text(more));
  }

  lemma {:induction false} ListText(rows: seq<seq<Field>>, more: seq<Token>)
    ensures Text([Raw("[")] + (RowsTokens(rows) + ([Raw("]")] + more)))[|"["|..]
            == Text(RowsTokens(rows)) + ("]" + Text(more))
  {
    TextAppend([Raw("[")], RowsTokens(rows) + ([Raw("]")] + more));
    TextAppend(RowsTokens(rows), [Raw("]")] + more);
    TextAppend([Raw("]")], more);
    TextOne("[");
    TextOne("]");
  }

  // ----- reading a field of a record

  /** No earlier field has this key. */
  predicate Leads(fields: seq<Field>, i: nat) {
    i < |fields| && forall j :: 0 <= j < i ==> fields[j].key != fields[i].key
  }

  lemma {:induction false} FirstAt(fields: seq<Field>, i: nat, opening: string)
    requires Leads(fields, i) && opening <= TokenText(ValueToken(fields[i]))
    ensures First(fields, fields[i].key, opening) == Some(fields[i])
    decreases i
  {
    if i > 0 { FirstAt(fields[1..], i - 1, opening); }
  }

  lemma {:induction false} RowEndsAt(fields: seq<Field>, i: nat, opening: string)
    requires FieldsOk(fields) && Leads(fields, i) && opening <= TokenText(ValueToken(fields[i]))
    ensures WellFormed(RowTokens(fields)) && EndsAt(Behind(RowTokens(fields), fields[i].key, opening), fields[i])
  {
    assert RowTokens(fields) + [] == RowTokens(fields);
    RowFormed(fields, []);
    BehindRow(fields, [], fields[i].key, opening);
    FirstAt(fields, i, opening);
  }

  lemma {:induction false} QuotedInRow(fields: seq<Field>, i: nat)
    requires FieldsOk(fields) && Leads(fields, i) && fields[i].Quoted?
    ensures StringField(RowText(fields), fields[i].key) == fields[i].value
  {
    assert "\"" <= TokenText(ValueToken(fields[i]));
    RowEndsAt(fields, i, "\"");
    ReadsQuoted(RowTokens(fields), fields[i].key, fields[i]);
  }

  lemma {:induction false} NamedInRow(fields: seq<Field>, i: nat, key: string, value: string)
    requires FieldsOk(fields) && Leads(fields, i) && fields[i] == Quoted(key, value)
    ensures StringField(RowText(fields), key) == value
  {
    QuotedInRow(fields, i);
  }

  lemma {:induction false} NumberInRow(fields: seq<Field>, i: nat, fallback: nat)
    requires FieldsOk(fields) && Leads(fields, i) && fields[i].Number?
    ensures NumberField(RowText(fields), fields[i].key, fallback) == fields[i].n
  {
    RowEndsAt(fields, i, "");
    ReadsNumber(RowTokens(fields), fields[i].key, fields[i], fallback);
  }

  lemma {:induction false} FlagInRow(fields: seq<Field>, i: nat, fallback: bool)
    requires FieldsOk(fields) && Leads(fields, i) && fields[i].Flag?
    ensures BoolField(RowText(fields), fields[i].key, fallback) == fields[i].on
  {
    RowEndsAt(fields, i, "");
    ReadsFlag(RowTokens(fields), fields[i].key, fields[i], fallback);
  }

  // ----- the loops

  /** `escape`. */
  method EscapeLoop(value: string) returns (result: string)
    ensures result == Escape(value)
  {
    result := [];
    for i := 0 to |value|
      invariant result + Escape(value[i..]) == Escape(value)
    {
      assert value[i..][1..] == value[i + 1..];
      ghost var before := result;
      if value[i] == '\\' || value[i] == '"' { result := result + ['\\']; }
      if value[i] == '\n' { result := result + "\\n"; } else { result := result + [value[i]]; }
      assert result == before + EscapeChar(value[i]);
      Regroup(before, EscapeChar(value[i]), Escape(value[i + 1..]));
    }
    assert result + [] == result;
  }

  /** The rest of a string, in the middle of an escape or not. */
  function ReadRest(s: string, escaped: bool): string {
    if !escaped then ReadString(s)
    else if s == [] then []
    else [if s[0] == 'n' then '\n' else s[0]] + ReadString(s[1..])
  }

  /** What one character adds to the result. */
  function Added(c: char, escaped: bool): string {
    if escaped then [if c == 'n' then '\n' else c] else if c == '\\' then [] else [c]
  }

  /** One turn of the loop: what is added, and how the rest is read. */
  lemma {:induction false} ReadTurn(before: string, s: string, escaped: bool)
    requires s != [] && (escaped || s[0] != '"')
    ensures before + ReadRest(s, escaped) == (before + Added(s[0], escaped))
            + ReadRest(s[1..], !escaped && s[0] == '\\')
  {
    if |s| > 1 { assert s[1..][1..] == s[2..]; }
    Regroup(before, Added(s[0], escaped), ReadRest(s[1..], !escaped && s[0] == '\\'));
    if Added(s[0], escaped) == [] { assert before + [] == before; }
  }

  /** The loop of `stringField` behind the marker. */
  method ReadStringLoop(s: string) returns (result: string)
    ensures result == ReadString(s)
  {
    result := [];
    var escaped := false;
    var index := 0;
    assert s[0..] == s;
    while index < |s|
      invariant index <= |s| && ReadString(s) == result + ReadRest(s[index..], escaped)
    {
      var c := s[index];
      ghost var before, was := result, escaped;
      assert s[index..][0] == c && s[index..][1..] == s[index + 1..];
      if !escaped && c == '"' { return; }
      ReadTurn(before, s[index..], was);
      if escaped {
        result := result + [if c == 'n' then '\n' else c];
        escaped := false;
      } else if c == '\\' {
        escaped := true;
        assert before + [] == result;
      } else {
        result := result + [c];
      }
      index := index + 1;
    }
  }

  /** The scanner after one character. */
  datatype Scan = Scan(depth: nat, inString: bool, escaped: bool)

  function Next(scan: Scan, c: char): Scan
    requires scan.depth > 0
  {
    if scan.inString then scan.(inString := scan.escaped || c != '"', escaped := !scan.escaped && c == '\\')
    else if c == '"' then scan.(inString := true)
    else scan.(depth := if c == '{' then scan.depth + 1 else if c == '}' then scan.depth - 1 else scan.depth)
  }

  function Remaining(s: string, cursor: nat, scan: Scan): Option<nat>
    requires cursor <= |s|
  {
    Passed(cursor, RowLength(s[cursor..], scan.depth, scan.inString, scan.escaped))
  }

  lemma {:induction false} ScanTurn(s: string, cursor: nat, scan: Scan)
    requires cursor < |s| && scan.depth > 0
    ensures Remaining(s, cursor, scan) == Remaining(s, cursor + 1, Next(scan, s[cursor]))
  {
    assert s[cursor..][0] == s[cursor] && s[cursor..][1..] == s[cursor + 1..];
  }

  /** The inner loop of `objectRows`: the length of a record behind its opening brace. */
  method RowLengthLoop(s: string) returns (n: Option<nat>)
    ensures n == RowLength(s, 1, false, false)
  {
    var cursor: nat, depth: nat, inString, escaped := 0, 1, false, false;
    assert s[0..] == s;
    while cursor < |s| && depth > 0
      invariant cursor <= |s| && Remaining(s, 0, Scan(1, false, false))
              == Remaining(s, cursor, Scan(depth, inString, escaped))
    {
      var c := s[cursor];
      ScanTurn(s, cursor, Scan(depth, inString, escaped));
      cursor := cursor + 1;
      if inString {
        if escaped { escaped := false; }
        else if c == '\\' { escaped := true; }
        else if c == '"' { inString := false; }
      } else if c == '"' {
        inString := true;
      } else if c == '{' {
        depth := depth + 1;
      } else if c == '}' {
        depth := depth - 1;
      }
    }
    n := if depth > 0 then None else Some(cursor);
  }

  /** One record: where it ends, if it does. */
  method NextRow(s: string, cursor: nat) returns (next: Option<nat>)
    requires cursor < |s| && s[cursor] == '{'
    ensures next.Some? ==>
            cursor < next.value <= |s| && RowsFrom(s[cursor..]) == [s[cursor..next.value]] + RowsFrom(s[next.value..])
    ensures next.None? ==> RowsFrom(s[cursor..]) == []
  {
    ghost var t := s[cursor..];
    assert t[0] == '{' && SkipBlanks(t) == t && t[1..] == s[cursor + 1..];
    var length := RowLengthLoop(s[cursor + 1..]);
    if length.None? { return None; }
    next := Some(cursor + 1 + length.value);
    assert t[..length.value + 1] == s[cursor..next.value] && t[length.value + 1..] == s[next.value..];
  }

  /** The outer loop of `objectRows`. */
  method RowsLoop(s: string) returns (rows: seq<string>)
    ensures rows == RowsFrom(s)
  {
    rows := [];
    var cursor: nat := 0;
    assert s[0..] == s;
    while cursor < |s|
      invariant cursor <= |s| && RowsFrom(s) == rows + RowsFrom(s[cursor..])
    {
      cursor := SkipLoop(s, cursor);
      if cursor >= |s| || s[cursor] == ']' || s[cursor] != '{' {
        BlankRows(s[cursor..]);
        return;
      }
      var next := NextRow(s, cursor);
      if next.None? { return; }
      Regroup(rows, [s[cursor..next.value]], RowsFrom(s[next.value..]));
      rows, cursor := rows + [s[cursor..next.value]], next.value;
    }
    BlankRows(s[cursor..]);
  }

  lemma {:induction false} BlankRows(t: string)
    requires t == [] || (!Blank(t[0]) && t[0] != '{')
    ensures RowsFrom(t) == []
  {
  }

  lemma {:induction false} SkipOne(t: string)
    requires t != [] && Blank(t[0])
    ensures RowsFrom(t) == RowsFrom(t[1..])
  {
  }

  /** The loop over blanks and commas. */
  method SkipLoop(s: string, cursor: nat) returns (next: nat)
    requires cursor <= |s|
    ensures cursor <= next <= |s| && (next < |s| ==> !Blank(s[next])) && RowsFrom(s[next..]) == RowsFrom(s[cursor..])
  {
    next := cursor;
    while next < |s| && Blank(s[next])
      invariant cursor <= next <= |s| && RowsFrom(s[next..]) == RowsFrom(s[cursor..])
    {
      SkipOne(s[next..]);
      assert s[next..][1..] == s[next + 1..];
      next := next + 1;
    }
  }
}
