/** Records of the state files: how their fields are printed, and how the readers find them again. */
module JsonFields {
  import opened Common
  import opened Decimal
  import opened JsonText

  datatype Field = Quoted(key: string, value: string) | Number(key: string, n: nat) | Flag(key: string, on: bool)

  function ValueToken(f: Field): Token {
    match f
    case Quoted(_, value) => Str(value)
    case Number(_, n) => Raw(Print(n))
    case Flag(_, on) => Raw(if on then "true" else "false")
  }

  predicate FieldOk(f: Field) {
    Name(f.key) && (f.Number? ==> f.n <= U64_MAX)
  }

  predicate FieldsOk(fields: seq<Field>) {
    forall i :: 0 <= i < |fields| ==> FieldOk(fields[i])
  }

  function FieldTokens(f: Field): seq<Token> {
    [Key(f.key), ValueToken(f)]
  }

  /** The fields of a record, separated by commas. */
  function FieldsTokens(fields: seq<Field>): seq<Token> {
    if fields == [] then [] else FieldTokens(fields[0]) + MoreFields(fields[1..])
  }

  function MoreFields(fields: seq<Field>): seq<Token> {
    if fields == [] then [] else [Raw(",")] + FieldTokens(fields[0]) + MoreFields(fields[1..])
  }

  function RowTokens(fields: seq<Field>): seq<Token> {
    [Raw("{")] + FieldsTokens(fields) + [Raw("}")]
  }

  /** The records of a list, separated by commas. */
  function RowsTokens(rows: seq<seq<Field>>): seq<Token> {
    if rows == [] then [] else RowTokens(rows[0]) + MoreRows(rows[1..])
  }

  function MoreRows(rows: seq<seq<Field>>): seq<Token> {
    if rows == [] then [] else [Raw(",")] + RowTokens(rows[0]) + MoreRows(rows[1..])
  }

  datatype List = List(name: string, rows: seq<seq<Field>>)

  function ListTokens(list: List): seq<Token> {
    [Raw(","), Key(list.name), Raw("[")] + RowsTokens(list.rows) + [Raw("]")]
  }

  function ListsTokens(lists: seq<List>): seq<Token> {
    if lists == [] then [] else ListTokens(lists[0]) + ListsTokens(lists[1..])
  }

  /** A whole file: fields first, then lists of records. */
  function FileTokens(header: seq<Field>, lists: seq<List>): seq<Token> {
    [Raw("{")] + FieldsTokens(header) + ListsTokens(lists) + [Raw("}")]
  }

  predicate RowsOk(rows: seq<seq<Field>>) {
    forall i :: 0 <= i < |rows| ==> rows[i] != [] && FieldsOk(rows[i])
  }

  predicate ListsOk(lists: seq<List>) {
    forall i :: 0 <= i < |lists| ==> Name(lists[i].name) && RowsOk(lists[i].rows)
  }

  // ----- the printed text is well formed

  /** Tokens that may follow a value. */
  predicate Closes(rest: seq<Token>) {
    WellFormed(rest) && rest != [] && rest[0].Raw? && Delimits(rest[0].text[0])
  }

  lemma {:induction false} MoreFieldsFormed(fields: seq<Field>, rest: seq<Token>)
    requires FieldsOk(fields) && Closes(rest)
    ensures Closes(MoreFields(fields) + rest)
    decreases |fields|
  {
    if fields == [] {
      assert MoreFields(fields) + rest == rest;
    } else {
      var more := MoreFields(fields[1..]) + rest;
      MoreFieldsFormed(fields[1..], rest);
      FieldFormed(fields[0], more);
      RawFormed(",", FieldTokens(fields[0]) + more);
      MoreFieldsParts(fields, rest);
    }
  }

  lemma {:induction false} MoreFieldsParts(fields: seq<Field>, rest: seq<Token>)
    requires fields != []
    ensures MoreFields(fields) + rest == [Raw(",")] + (FieldTokens(fields[0]) + (MoreFields(fields[1..]) + rest))
  {
  }

  lemma {:induction false} FieldsFormed(fields: seq<Field>, rest: seq<Token>)
    requires FieldsOk(fields) && fields != [] && Closes(rest)
    ensures WellFormed(FieldsTokens(fields) + rest)
  {
    MoreFieldsFormed(fields[1..], rest);
    FieldFormed(fields[0], MoreFields(fields[1..]) + rest);
    Regroup(FieldTokens(fields[0]), MoreFields(fields[1..]), rest);
  }

  lemma {:induction false} RawFormed(text: string, rest: seq<Token>)
    requires Plain(text) && WellFormed(rest)
    ensures WellFormed([Raw(text)] + rest)
  {
    assert ([Raw(text)] + rest)[1..] == rest;
  }

  lemma {:induction false} FieldFormed(f: Field, rest: seq<Token>)
    requires FieldOk(f) && Closes(rest)
    ensures WellFormed(FieldTokens(f) + rest)
  {
    var ts := FieldTokens(f) + rest;
    ValueIsPlain(f);
    assert ts[1..] == [ValueToken(f)] + rest;
    assert ts[1..][1..] == rest;
  }

  lemma {:induction false} ValueIsPlain(f: Field)
    ensures ValueToken(f).Raw? ==> Plain(ValueToken(f).text)
    ensures TokenText(ValueToken(f)) != []
  {
    if f.Number? {
      var p := Print(f.n);
      forall i | 0 <= i < |p|
        ensures p[i] != '"'
      {
        assert IsDigit(p[i]);
      }
    }
  }

  lemma {:induction false} RowFormed(fields: seq<Field>, rest: seq<Token>)
    requires FieldsOk(fields) && fields != [] && WellFormed(rest)
    ensures WellFormed(RowTokens(fields) + rest)
  {
    RawFormed("}", rest);
    FieldsFormed(fields, [Raw("}")] + rest);
    RawFormed("{", FieldsTokens(fields) + ([Raw("}")] + rest));
    assert RowTokens(fields) + rest == [Raw("{")] + (FieldsTokens(fields) + ([Raw("}")] + rest));
  }

  lemma {:induction false} MoreRowsFormed(rows: seq<seq<Field>>, rest: seq<Token>)
    requires RowsOk(rows) && WellFormed(rest)
    ensures WellFormed(MoreRows(rows) + rest)
    decreases |rows|
  {
    if rows == [] {
      assert MoreRows(rows) + rest == rest;
    } else {
      var more := MoreRows(rows[1..]) + rest;
      MoreRowsFormed(rows[1..], rest);
      RowFormed(rows[0], more);
      RawFormed(",", RowTokens(rows[0]) + more);
      MoreRowsParts(rows, rest);
    }
  }

  lemma {:induction false} MoreRowsParts(rows: seq<seq<Field>>, rest: seq<Token>)
    requires rows != []
    ensures MoreRows(rows) + rest == [Raw(",")] + (RowTokens(rows[0]) + (MoreRows(rows[1..]) + rest))
  {
  }

  lemma {:induction false} RowsFormed(rows: seq<seq<Field>>, rest: seq<Token>)
    requires RowsOk(rows) && WellFormed(rest)
    ensures WellFormed(RowsTokens(rows) + rest)
  {
    if rows == [] {
      assert RowsTokens(rows) + rest == rest;
    } else {
      MoreRowsFormed(rows[1..], rest);
      RowFormed(rows[0], MoreRows(rows[1..]) + rest);
      Regroup(RowTokens(rows[0]), MoreRows(rows[1..]), rest);
    }
  }

  lemma {:induction false} ListFormed(list: List, more: seq<Token>)
    requires Name(list.name) && RowsOk(list.rows) && WellFormed(more)
    ensures Closes(ListTokens(list) + more)
  {
    var closed := [Raw("]")] + more;
    RawFormed("]", more);
    var body := RowsTokens(list.rows) + closed;
    RowsFormed(list.rows, closed);
    RawFormed("[", body);
    var keyed := [Key(list.name)] + ([Raw("[")] + body);
    KeyFormed(list.name, [Raw("[")] + body);
    RawFormed(",", keyed);
    ListParts(list, closed, more);
  }

  lemma KeyFormed(name: string, rest: seq<Token>)
    requires Name(name) && WellFormed(rest) && rest != [] && rest[0].Raw?
    ensures WellFormed([Key(name)] + rest)
  {
    assert ([Key(name)] + rest)[1..] == rest;
  }

  lemma ListParts(list: List, closed: seq<Token>, more: seq<Token>)
    requires closed == [Raw("]")] + more
    ensures ListTokens(list) + more == [Raw(",")] + ([Key(list.name)] + ([Raw("[")] + (RowsTokens(list.rows) + closed)))
  {
  }

  lemma {:induction false} ListsFormed(lists: seq<List>, rest: seq<Token>)
    requires ListsOk(lists) && Closes(rest)
    ensures Closes(ListsTokens(lists) + rest)
    decreases |lists|
  {
    if lists == [] {
      assert ListsTokens(lists) + rest == rest;
    } else {
      ListsFormed(lists[1..], rest);
      ListFormed(lists[0], ListsTokens(lists[1..]) + rest);
      Regroup(ListTokens(lists[0]), ListsTokens(lists[1..]), rest);
    }
  }

  lemma {:induction false} FileFormed(header: seq<Field>, lists: seq<List>)
    requires FieldsOk(header) && header != [] && ListsOk(lists)
    ensures WellFormed(FileTokens(header, lists))
  {
    var end, tail := [Raw("}")], ListsTokens(lists) + [Raw("}")];
    EndFormed();
    ListsFormed(lists, end);
    FieldsFormed(header, tail);
    RawFormed("{", FieldsTokens(header) + tail);
    FileParts(header, lists);
  }

  lemma EndFormed()
    ensures Closes([Raw("}")])
  {
    RawFormed("}", []);
    assert [Raw("}")] + [] == [Raw("}")];
  }

  lemma FileParts(header: seq<Field>, lists: seq<List>)
    ensures FileTokens(header, lists) == [Raw("{")] + (FieldsTokens(header) + (ListsTokens(lists) + [Raw("}")]))
  {
  }

  // ----- the readers

  /** `stringField`. */
  function StringField(json: string, key: string): string {
    var after := After(json, Marker(key, "\""));
    if after.None? then [] else ReadString(after.value)
  }

  /** `numberField`. */
  function NumberField(json: string, key: string, fallback: nat): nat {
    var after := After(json, Marker(key, ""));
    if after.None? then fallback
    else
      var parsed := StrToUll(CString(after.value));
      if parsed.None? then fallback else parsed.value.0
  }

  /** `boolField`. */
  function BoolField(json: string, key: string, fallback: bool): bool {
    var after := After(json, Marker(key, ""));
    if after.None? then fallback else "true" <= after.value
  }

  /** The first field with a key, among those whose value starts as asked. */
  function First(fields: seq<Field>, key: string, opening: string): Option<Field> {
    if fields == [] then None
    else if fields[0].key == key && opening <= TokenText(ValueToken(fields[0])) then Some(fields[0])
    else First(fields[1..], key, opening)
  }

  /** The search ends at the value of `f`, which a separator follows. */
  ghost predicate EndsAt(found: Option<seq<Token>>, f: Field) {
    found.Some? && |found.value| > 1 && found.value[0] == ValueToken(f) && found.value[1].Raw?
    && found.value[1].text != [] && Delimits(found.value[1].text[0])
  }

  /** The search found `f`, or went past. */
  ghost predicate FoundOr(found: Option<seq<Token>>, f: Option<Field>, past: Option<seq<Token>>) {
    match f
    case Some(field) => EndsAt(found, field)
    case None => found == past
  }

  lemma {:induction false} BehindSkips(t: Token, rest: seq<Token>, key: string, opening: string)
    requires !Hit([t] + rest, key, opening)
    ensures Behind([t] + rest, key, opening) == Behind(rest, key, opening)
  {
    assert ([t] + rest)[1..] == rest;
  }

  /** One field: it is found, or passed over with its value. */
  lemma {:induction false} BehindField(f: Field, rest: seq<Token>, key: string, opening: string)
    ensures Behind(FieldTokens(f) + rest, key, opening)
         == if f.key == key && opening <= TokenText(ValueToken(f)) then Some([ValueToken(f)] + rest)
             else Behind(rest, key, opening)
  {
    var tail := [ValueToken(f)] + rest;
    assert FieldTokens(f) + rest == [Key(f.key)] + tail;
    assert ([Key(f.key)] + tail)[1..] == tail;
    if !(f.key == key && opening <= TokenText(ValueToken(f))) {
      BehindSkips(Key(f.key), tail, key, opening);
      BehindSkips(ValueToken(f), rest, key, opening);
    }
  }

  lemma {:induction false} BehindMoreFields(fields: seq<Field>, rest: seq<Token>, key: string, opening: string)
    requires FieldsOk(fields) && Closes(rest)
    ensures FoundOr(Behind(MoreFields(fields) + rest, key, opening), First(fields, key, opening),
            Behind(rest, key, opening))
    decreases |fields|
  {
    if fields == [] {
      assert MoreFields(fields) + rest == rest;
    } else {
      var more := MoreFields(fields[1..]) + rest;
      MoreFieldsFormed(fields[1..], rest);
      MoreFieldsParts(fields, rest);
      BehindSkips(Raw(","), FieldTokens(fields[0]) + more, key, opening);
      BehindField(fields[0], more, key, opening);
      BehindMoreFields(fields[1..], rest, key, opening);
    }
  }

  /** Searching a record is searching its fields, and what follows if none fits. */
  lemma {:induction false} BehindFields(fields: seq<Field>, rest: seq<Token>, key: string, opening: string)
    requires FieldsOk(fields) && fields != [] && Closes(rest)
    ensures FoundOr(Behind(FieldsTokens(fields) + rest, key, opening), First(fields, key, opening),
            Behind(rest, key, opening))
  {
    var more := MoreFields(fields[1..]) + rest;
    MoreFieldsFormed(fields[1..], rest);
    Regroup(FieldTokens(fields[0]), MoreFields(fields[1..]), rest);
    BehindField(fields[0], more, key, opening);
    BehindMoreFields(fields[1..], rest, key, opening);
  }

  function FirstInRows(rows: seq<seq<Field>>, key: string, opening: string): Option<Field> {
    if rows == [] then None
    else
      var here := First(rows[0], key, opening);
      if here.Some? then here else FirstInRows(rows[1..], key, opening)
  }

  function FirstInLists(lists: seq<List>, key: string, opening: string): Option<Field> {
    if lists == [] then None
    else
      var here := FirstInRows(lists[0].rows, key, opening);
      if here.Some? then here else FirstInLists(lists[1..], key, opening)
  }

  /** What a search for a field of a whole file finds. */
  function FirstInFile(header: seq<Field>, lists: seq<List>, key: string, opening: string): Option<Field> {
    var here := First(header, key, opening);
    if here.Some? then here else FirstInLists(lists, key, opening)
  }

  lemma {:induction false} BehindRow(fields: seq<Field>, rest: seq<Token>, key: string, opening: string)
    requires FieldsOk(fields) && fields != [] && WellFormed(rest)
    ensures FoundOr(Behind(RowTokens(fields) + rest, key, opening), First(fields, key, opening),
            Behind(rest, key, opening))
  {
    var end := [Raw("}")] + rest;
    assert RowTokens(fields) + rest == [Raw("{")] + (FieldsTokens(fields) + end);
    RawFormed("}", rest);
    BehindSkips(Raw("{"), FieldsTokens(fields) + end, key, opening);
    BehindFields(fields, end, key, opening);
    BehindSkips(Raw("}"), rest, key, opening);
  }

  lemma {:induction false} BehindMoreRows(rows: seq<seq<Field>>, rest: seq<Token>, key: string, opening: string)
    requires RowsOk(rows) && WellFormed(rest)
    ensures FoundOr(Behind(MoreRows(rows) + rest, key, opening), FirstInRows(rows, key, opening),
            Behind(rest, key, opening))
    decreases |rows|
  {
    if rows == [] {
      assert MoreRows(rows) + rest == rest;
    } else {
      var more := MoreRows(rows[1..]) + rest;
      MoreRowsFormed(rows[1..], rest);
      MoreRowsParts(rows, rest);
      BehindSkips(Raw(","), RowTokens(rows[0]) + more, key, opening);
      BehindRow(rows[0], more, key, opening);
      BehindMoreRows(rows[1..], rest, key, opening);
    }
  }

  lemma {:induction false} BehindRows(rows: seq<seq<Field>>, rest: seq<Token>, key: string, opening: string)
    requires RowsOk(rows) && WellFormed(rest)
    ensures FoundOr(Behind(RowsTokens(rows) + rest, key, opening), FirstInRows(rows, key, opening),
            Behind(rest, key, opening))
  {
    if rows == [] {
      assert RowsTokens(rows) + rest == rest;
    } else {
      var more := MoreRows(rows[1..]) + rest;
      MoreRowsFormed(rows[1..], rest);
      Regroup(RowTokens(rows[0]), MoreRows(rows[1..]), rest);
      BehindRow(rows[0], more, key, opening);
      BehindMoreRows(rows[1..], rest, key, opening);
    }
  }

  lemma {:induction false} BehindList(list: List, rest: seq<Token>, key: string, opening: string)
    requires RowsOk(list.rows) && WellFormed(rest) && list.name != key
    ensures FoundOr(Behind(ListTokens(list) + rest, key, opening), FirstInRows(list.rows, key, opening),
            Behind(rest, key, opening))
  {
    var closed := [Raw("]")] + rest;
    var body := RowsTokens(list.rows) + closed;
    ListParts(list, closed, rest);
    RawFormed("]", rest);
    BehindSkips(Raw(","), [Key(list.name)] + ([Raw("[")] + body), key, opening);
    BehindSkips(Key(list.name), [Raw("[")] + body, key, opening);
    BehindSkips(Raw("["), body, key, opening);
    BehindRows(list.rows, closed, key, opening);
    BehindSkips(Raw("]"), rest, key, opening);
  }

  predicate NotAList(lists: seq<List>, key: string) {
    forall i :: 0 <= i < |lists| ==> lists[i].name != key
  }

  lemma {:induction false} BehindLists(lists: seq<List>, rest: seq<Token>, key: string, opening: string)
    requires ListsOk(lists) && Closes(rest) && NotAList(lists, key)
    ensures FoundOr(Behind(ListsTokens(lists) + rest, key, opening), FirstInLists(lists, key, opening),
            Behind(rest, key, opening))
    decreases |lists|
  {
    if lists == [] {
      assert ListsTokens(lists) + rest == rest;
    } else {
      ListsFormed(lists[1..], rest);
      BehindList(lists[0], ListsTokens(lists[1..]) + rest, key, opening);
      BehindLists(lists[1..], rest, key, opening);
      Regroup(ListTokens(lists[0]), ListsTokens(lists[1..]), rest);
    }
  }

  lemma BehindEnd(key: string, opening: string)
    ensures Behind([Raw("}")], key, opening) == None
  {
    assert [Raw("}")][1..] == [];
  }

  lemma {:induction false} BehindFile(header: seq<Field>, lists: seq<List>, key: string, opening: string)
    requires FieldsOk(header) && header != [] && ListsOk(lists) && NotAList(lists, key)
    ensures FoundOr(Behind(FileTokens(header, lists), key, opening), FirstInFile(header, lists, key, opening), None)
  {
    var end, tail := [Raw("}")], ListsTokens(lists) + [Raw("}")];
    EndFormed();
    ListsFormed(lists, end);
    FileParts(header, lists);
    BehindSkips(Raw("{"), FieldsTokens(header) + tail, key, opening);
    BehindFields(header, tail, key, opening);
    BehindLists(lists, end, key, opening);
    BehindEnd(key, opening);
  }

  // ----- reading a value

  /** Only a quoted value starts with a quote. */
  lemma {:induction false} OpensQuoted(f: Field)
    requires "\"" <= TokenText(ValueToken(f))
    ensures f.Quoted?
  {
    ValueIsPlain(f);
    assert TokenText(ValueToken(f))[0] == "\""[0] == '"';
  }

  /** Whichever field the search ends at, the reader gets its value. */
  lemma {:induction false} ReadsQuoted(tokens: seq<Token>, key: string, f: Field)
    requires WellFormed(tokens) && Name(key) && EndsAt(Behind(tokens, key, "\""), f)
    ensures f.Quoted? && StringField(Text(tokens), key) == f.value
  {
    var found := Behind(tokens, key, "\"").value;
    OpensQuoted(f);
    FindsKey(tokens, key, "\"");
    TextOfTwo(found);
    QuotedText(f.value, Text(found[1..]));
  }

  lemma QuotedText(value: string, rest: string)
    ensures ReadString((['"'] + Escape(value) + ['"'] + rest)[1..]) == value
  {
    assert (['"'] + Escape(value) + ['"'] + rest)[1..] == Escape(value) + ['"'] + rest;
    EscapeReadBack(value, rest);
  }

  lemma {:induction false} TextOfTwo(found: seq<Token>)
    requires |found| > 1 && found[1].Raw? && found[1].text != []
    ensures Text(found) == TokenText(found[0]) + Text(found[1..])
    ensures Text(found[1..]) != [] && Text(found[1..])[0] == found[1].text[0]
  {
    assert Text(found[1..]) == TokenText(found[1]) + Text(found[1..][1..]);
  }

  lemma {:induction false} ReadsNumber(tokens: seq<Token>, key: string, f: Field, fallback: nat)
    requires WellFormed(tokens) && Name(key) && EndsAt(Behind(tokens, key, ""), f) && f.Number? && f.n <= U64_MAX
    ensures NumberField(Text(tokens), key, fallback) == f.n
  {
    var found := Behind(tokens, key, "").value;
    FindsKey(tokens, key, "");
    TextOfTwo(found);
    CStringDigits(Print(f.n), Text(found[1..]));
    ReadBack(f.n, CString(Text(found[1..])));
  }

  lemma {:induction false} CStringDigits(digits: string, rest: string)
    requires forall i :: 0 <= i < |digits| ==> IsDigit(digits[i])
    requires rest != [] && Delimits(rest[0])
    ensures CString(digits + rest) == digits + CString(rest)
    ensures CString(rest) != [] && CString(rest)[0] == rest[0]
    decreases |digits|
  {
    if digits == [] {
      assert digits + rest == rest;
    } else {
      CStringDigits(digits[1..], rest);
      assert (digits + rest)[1..] == digits[1..] + rest;
      assert [digits[0]] + (digits[1..] + CString(rest)) == digits + CString(rest);
    }
  }

  lemma {:induction false} ReadsFlag(tokens: seq<Token>, key: string, f: Field, fallback: bool)
    requires WellFormed(tokens) && Name(key) && EndsAt(Behind(tokens, key, ""), f) && f.Flag?
    ensures BoolField(Text(tokens), key, fallback) == f.on
  {
    var found := Behind(tokens, key, "").value;
    FindsKey(tokens, key, "");
    TextOfTwo(found);
    var s := Text(found);
    assert s[0] == if f.on then 't' else 'f';
  }

  lemma {:induction false} ReadsNothing(tokens: seq<Token>, key: string, opening: string)
    requires WellFormed(tokens) && Name(key) && |opening| <= 1 && Behind(tokens, key, opening) == None
    ensures After(Text(tokens), Marker(key, opening)) == None
  {
    FindsKey(tokens, key, opening);
  }
}
