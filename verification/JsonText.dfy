/** JSON text, printed and searched. */
module JsonText {
  // The hand-written JSON of the state files: a printer that escapes strings, and a reader that searches for a
  // field's marker in the raw text. The printed text is described by its tokens, and the key fact is that a
  // marker is found exactly at a real key.

  import opened Common
  import opened Decimal

  // ----- escaping

  function EscapeChar(c: char): string {
    if c == '\n' then "\\n" else if c == '\\' || c == '"' then ['\\', c] else [c]
  }

  /** `escape`. */
  function Escape(value: string): string {
    if value == [] then [] else EscapeChar(value[0]) + Escape(value[1..])
  }

  /** Reading up to the first unescaped quote: what `stringField` does behind its marker. */
  function ReadString(s: string): string {
    if s == [] || s[0] == '"' then []
    else if s[0] == '\\' then
      if |s| == 1 then [] else [if s[1] == 'n' then '\n' else s[1]] + ReadString(s[2..])
    else [s[0]] + ReadString(s[1..])
  }

  lemma {:induction false} ReadChar(c: char, tail: string)
    ensures ReadString(EscapeChar(c) + tail) == [c] + ReadString(tail)
  {
    var s := EscapeChar(c) + tail;
    assert s[|EscapeChar(c)|..] == tail;
  }

  /** Unescaping undoes escaping, for every string. */
  lemma {:induction false} EscapeReadBack(value: string, rest: string)
    ensures ReadString(Escape(value) + ['"'] + rest) == value
    decreases |value|
  {
    if value == [] {
      assert Escape(value) + ['"'] + rest == ['"'] + rest;
    } else {
      var tail := Escape(value[1..]) + ['"'] + rest;
      assert Escape(value) + ['"'] + rest == EscapeChar(value[0]) + tail;
      ReadChar(value[0], tail);
      EscapeReadBack(value[1..], rest);
    }
  }

  /** Every quote has a backslash in front of it. */
  ghost predicate Guarded(s: string) {
    forall i :: 0 <= i < |s| && s[i] == '"' ==> i > 0 && s[i - 1] == '\\'
  }

  lemma {:induction false} EscapeGuards(value: string)
    ensures Guarded(Escape(value))
  {
    if value != [] {
      EscapeGuards(value[1..]);
      var c, tail := EscapeChar(value[0]), Escape(value[1..]);
      forall i | 0 <= i < |c + tail| && (c + tail)[i] == '"'
        ensures i > 0 && (c + tail)[i - 1] == '\\'
      {
        if i >= |c| { assert tail[i - |c|] == '"'; }
      }
    }
  }

  // ----- searching

  /** `find`: the first place where `pattern` stands. */
  function Find(s: string, pattern: string): Option<nat> {
    if pattern <= s then Some(0)
    else if s == [] then None
    else
      var later := Find(s[1..], pattern);
      if later.Some? then Some(later.value + 1) else None
  }

  /** No place before `n` matches. */
  ghost predicate NoneBefore(s: string, pattern: string, n: nat) {
    n <= |s| && forall i {:trigger s[i..]} :: 0 <= i < n ==> !(pattern <= s[i..])
  }

  lemma {:induction false} FindSkips(s: string, pattern: string, n: nat)
    requires NoneBefore(s, pattern, n) && pattern != []
    ensures Find(s, pattern) == (match Find(s[n..], pattern) case Some(at) => Some(n + at) case None => None)
    decreases n
  {
    if n == 0 {
      assert s[0..] == s;
    } else {
      assert s[0..] == s;
      forall i | 0 <= i < n - 1
        ensures !(pattern <= s[1..][i..])
      {
        assert s[1..][i..] == s[i + 1..];
      }
      FindSkips(s[1..], pattern, n - 1);
      assert s[1..][n - 1..] == s[n..];
    }
  }

  // ----- tokens

  /** A key with its colon, a quoted string, or text without quotes. */
  datatype Token = Key(name: string) | Str(value: string) | Raw(text: string)

  function TokenText(t: Token): string {
    match t
    case Key(name) => ['"'] + name + "\":"
    case Str(value) => ['"'] + Escape(value) + ['"']
    case Raw(text) => text
  }

  function Text(tokens: seq<Token>): string {
    if tokens == [] then [] else TokenText(tokens[0]) + Text(tokens[1..])
  }

  /** A name that needs no escaping and starts with a letter. */
  predicate Name(s: string) {
    s != [] && ('a' <= s[0] <= 'z' || 'A' <= s[0] <= 'Z') && forall i :: 0 <= i < |s| ==>
        s[i] != '"' && s[i] != '\\' && s[i] != '\n'
  }

  predicate Plain(text: string) {
    text != [] && forall i :: 0 <= i < |text| ==> text[i] != '"'
  }

  /** What may follow a quoted value. */
  predicate Delimits(c: char) {
    c == ',' || c == '}'
  }

  predicate TokenOk(t: Token, rest: seq<Token>) {
    match t
    case Key(name) => Name(name) && rest != [] && !rest[0].Key?
    case Str(_) => rest != [] && rest[0].Raw? && rest[0].text != [] && Delimits(rest[0].text[0])
    case Raw(text) => Plain(text)
  }

  predicate WellFormed(tokens: seq<Token>) {
    tokens == [] || (TokenOk(tokens[0], tokens[1..]) && WellFormed(tokens[1..]))
  }

  /** What the readers search for: a key, its colon, and at most one character of its value. */
  function Marker(key: string, opening: string): string {
    ['"'] + key + "\":" + opening
  }

  /** Whether the first token is the key, with a value that starts as asked. */
  predicate Hit(tokens: seq<Token>, key: string, opening: string) {
    |tokens| > 1 && tokens[0] == Key(key) && opening <= TokenText(tokens[1])
  }

  /** The tokens behind the first such key. */
  function Behind(tokens: seq<Token>, key: string, opening: string): (r: Option<seq<Token>>)
    ensures r.Some? ==> r.value != [] && opening <= TokenText(r.value[0])
  {
    if tokens == [] then None
    else if Hit(tokens, key, opening) then Some(tokens[1..])
    else Behind(tokens[1..], key, opening)
  }

  /** What `find` and the marker's length leave of the text. */
  function After(s: string, marker: string): Option<string> {
    var at := Find(s, marker);
    if at.None? then None
    else
      FindMatches(s, marker);
      Some(s[at.value + |marker|..])
  }

  lemma {:induction false} FindMatches(s: string, pattern: string)
    ensures Find(s, pattern).Some? ==>
              Find(s, pattern).value + |pattern| <= |s| && pattern <= s[Find(s, pattern).value..]
  {
    if !(pattern <= s) && s != [] { FindMatches(s[1..], pattern); }
  }

  // ----- a marker is found only at a key

  /** A quote, the name, a quote: nothing but the quoted name itself starts like that. */
  lemma QuotedIsName(e: string, key: string, d: char, rest: string, opening: string)
    requires Name(key) && Guarded(e) && d != ':'
    ensures !(Marker(key, opening) <= ['"'] + e + ['"', d] + rest)
  {
    var s, m, n := ['"'] + e + ['"', d] + rest, Marker(key, opening), |key|;
    assert m[n + 1] == '"' && m[n + 2] == ':';
    assert forall i :: 0 <= i < n ==> m[i + 1] == key[i];
    assert forall i :: 0 <= i < |e| ==> s[i + 1] == e[i];
    assert s[|e| + 1] == '"' && s[|e| + 2] == d;
    if |e| < n {
      assert m[|e| + 1] == key[|e|] != '"';
    } else if |e| > n {
      assert s[n + 1] == e[n] && s[n] == e[n - 1] && m[n] == key[n - 1];
    }
  }

  lemma MarkerStart(key: string, opening: string)
    requires Name(key)
    ensures Marker(key, opening)[0] == '"' && Marker(key, opening)[1] == key[0]
  {
  }

  /** Nothing inside an escaped string is taken for a key. */
  lemma {:induction false} StrHides(value: string, d: char, rest: string, key: string, opening: string)
    requires Name(key) && Delimits(d)
    ensures NoneBefore(['"'] + Escape(value) + ['"', d] + rest, Marker(key, opening), |Escape(value)| + 2)
  {
    var e, m := Escape(value), Marker(key, opening);
    var s := ['"'] + e + ['"', d] + rest;
    EscapeGuards(value);
    MarkerStart(key, opening);
    forall i | 0 <= i < |e| + 2
      ensures !(m <= s[i..])
    {
      if i == |e| + 1 {
        assert s[i..][1] == d;
      } else if s[i] == '"' {
        assert Guarded(e[i..]);
        assert s[i..] == ['"'] + e[i..] + ['"', d] + rest;
        QuotedIsName(e[i..], key, d, rest, opening);
      } else {
        assert s[i..][0] == s[i];
      }
    }
  }

  /** A key hides nothing but itself. */
  lemma KeyHides(name: string, after: string, key: string, opening: string)
    requires Name(name) && Name(key) && !(name == key && opening <= after)
    ensures NoneBefore(['"'] + name + "\":" + after, Marker(key, opening), |name| + 3)
  {
    var s, m := ['"'] + name + "\":" + after, Marker(key, opening);
    MarkerStart(key, opening);
    forall i | 0 <= i < |name| + 3
      ensures !(m <= s[i..])
    {
      assert s[i..][0] == s[i];
      if i == 0 {
        SameName(name, after, key, opening);
        assert s[0..] == s;
      } else if i == |name| + 1 {
        assert s[i..][1] == ':';
      }
    }
  }

  lemma SameName(name: string, after: string, key: string, opening: string)
    requires Name(name) && Name(key)
    ensures Marker(key, opening) <= ['"'] + name + "\":" + after ==> name == key && opening <= after
  {
    var s, m := ['"'] + name + "\":" + after, Marker(key, opening);
    assert forall i :: 0 <= i < |key| ==> m[i + 1] == key[i];
    assert forall i :: 0 <= i < |name| ==> s[i + 1] == name[i];
    assert m[|key| + 1] == '"' && s[|name| + 1] == '"';
    if |name| < |key| {
      assert m[|name| + 1] == key[|name|];
    } else if |key| < |name| {
      assert s[|key| + 1] == name[|key|];
    } else {
      assert s == ['"'] + name + "\":" + after && m == ['"'] + key + "\":" + opening;
      PrefixParts(['"'] + name + "\":", after, ['"'] + key + "\":", opening);
      assert ['"'] + name + "\":" == ['"'] + key + "\":" ==> name == key by {
        assert (['"'] + name + "\":")[1..|name| + 1] == name && (['"'] + key + "\":")[1..|key| + 1] == key;
      }
    }
  }

  lemma PrefixParts(a: string, b: string, c: string, d: string)
    requires |a| == |c|
    ensures c + d <= a + b <==> c == a && d <= b
  {
    if c + d <= a + b {
      assert (c + d)[..|c|] == c && (a + b)[..|c|] == a;
      assert (c + d)[|c|..] == d && (a + b)[|c|..] == b;
      forall i | 0 <= i < |d|
        ensures d[i] == b[i]
      {
        assert (c + d)[|c| + i] == (a + b)[|c| + i];
      }
    }
  }

  /** The first token hides every marker, unless it is a hit. */
  lemma {:induction false} TokenHides(tokens: seq<Token>, key: string, opening: string)
    requires tokens != [] && WellFormed(tokens) && Name(key) && |opening| <= 1 && !Hit(tokens, key, opening)
    ensures NoneBefore(Text(tokens), Marker(key, opening), |TokenText(tokens[0])|)
  {
    var rest := Text(tokens[1..]);
    match tokens[0] {
      case Key(name) =>
        KeyOpens(tokens, opening);
        KeyHides(name, rest, key, opening);
      case Str(value) =>
        assert rest[0] == tokens[1].text[0];
        StrBeforeHides(value, rest, key, opening);
      case Raw(text) =>
        RawHides(text, rest, key, opening);
    }
  }

  lemma {:induction false} StrBeforeHides(value: string, rest: string, key: string, opening: string)
    requires Name(key) && rest != [] && Delimits(rest[0])
    ensures NoneBefore(['"'] + Escape(value) + ['"'] + rest, Marker(key, opening), |['"'] + Escape(value) + ['"']|)
  {
    StrHides(value, rest[0], rest[1..], key, opening);
    assert ['"'] + Escape(value) + ['"'] + rest == ['"'] + Escape(value) + ['"', rest[0]] + rest[1..];
  }

  lemma RawHides(text: string, rest: string, key: string, opening: string)
    requires Plain(text) && Name(key)
    ensures NoneBefore(text + rest, Marker(key, opening), |text|)
  {
    MarkerStart(key, opening);
    forall i | 0 <= i < |text|
      ensures !(Marker(key, opening) <= (text + rest)[i..])
    {
      assert (text + rest)[i..][0] == text[i];
    }
  }

  /** The character behind a key's colon belongs to the next token. */
  lemma {:induction false} KeyOpens(tokens: seq<Token>, opening: string)
    requires WellFormed(tokens) && tokens != [] && tokens[0].Key? && |opening| <= 1
    ensures |tokens| > 1 && TokenText(tokens[1]) != []
    ensures opening <= Text(tokens[1..]) <==> opening <= TokenText(tokens[1])
  {
    assert TokenOk(tokens[1], tokens[2..]);
    assert Text(tokens[1..]) == TokenText(tokens[1]) + Text(tokens[1..][1..]);
  }

  /** What searching for a marker finds is the first real key with such a value, and nothing else. */
  lemma {:induction false} FindsKey(tokens: seq<Token>, key: string, opening: string)
    requires WellFormed(tokens) && Name(key) && |opening| <= 1
    ensures After(Text(tokens), Marker(key, opening))
         == (match Behind(tokens, key, opening) case Some(rest) => Some(Text(rest)[|opening|..]) case None => None)
    ensures Behind(tokens, key, opening).Some? ==> |opening| <= |Text(Behind(tokens, key, opening).value)|
    decreases |tokens|
  {
    var m, s := Marker(key, opening), Text(tokens);
    if tokens == [] {
    } else if Hit(tokens, key, opening) {
      KeyOpens(tokens, opening);
      MarkerFound(key, opening, Text(tokens[1..]));
    } else {
      TokenHides(tokens, key, opening);
      var n := |TokenText(tokens[0])|;
      FindSkips(s, m, n);
      assert s[n..] == Text(tokens[1..]);
      FindsKey(tokens[1..], key, opening);
      AfterSkips(s, m, n);
    }
  }

  lemma {:induction false} AfterSkips(s: string, m: string, n: nat)
    requires NoneBefore(s, m, n) && m != []
    ensures After(s, m) == After(s[n..], m)
  {
    FindSkips(s, m, n);
    FindMatches(s, m);
    FindMatches(s[n..], m);
    var at := Find(s[n..], m);
    if at.Some? { assert s[n..][at.value + |m|..] == s[n + at.value + |m|..]; }
  }

  lemma MarkerFound(key: string, opening: string, rest: string)
    requires opening <= rest
    ensures After(['"'] + key + "\":" + rest, Marker(key, opening)) == Some(rest[|opening|..])
  {
    var s, m := ['"'] + key + "\":" + rest, Marker(key, opening);
    assert rest == opening + rest[|opening|..];
    assert s == m + rest[|opening|..];
    assert m <= s;
  }
}
