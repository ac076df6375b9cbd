/**
  The Rust side of the Lua plugin bridge (`execute_lua_plugin`): the widgets
  and options a Lua plugin receives, written as Lua table constructors, and
  the way the plugin's output comes back.

  To say what the written text means, the module also has a small reader for
  the part of Lua's syntax the writer produces: short string literals
  (section 3.1 of the Lua 5.4 Reference Manual) and table constructors with
  positional, `name = v` and `["key"] = v` fields (section 3.4.9). The reader
  is independent of the writer; the lemmas show what it reads back.
*/
module LuaBridge {
  import opened Wrappers
  import opened JsText
  import CodeText
  import Types

  // ---------------------------------------------------------------------
  // Quoting strings.

  /** `s.replace(c, with)` for a single character `c`. */
  function ReplaceAll(s: string, c: char, with: string): string {
    if s == [] then [] else (if s[0] == c then with else [s[0]]) + ReplaceAll(s[1..], c, with)
  }

  /** The escape every quoted string goes through: `s.replace('\\', "\\\\").replace('"', "\\\"")`. */
  function EscapeAsWritten(s: string): string {
    ReplaceAll(ReplaceAll(s, '\\', "\\\\"), '"', "\\\"")
  }

  /** What the escape does to one character. */
  function EscapeCharAsWritten(c: char): string {
    if c == '\\' then "\\\\" else if c == '"' then "\\\"" else [c]
  }

  /** Escaping character by character, without line breaks: the corrected escape also writes `\n` and `\r`. */
  function EscapeChar(c: char): string {
    if c == '\n' then "\\n" else if c == '\r' then "\\r" else EscapeCharAsWritten(c)
  }

  function MapChars(s: string, f: char -> string): string {
    if s == [] then [] else f(s[0]) + MapChars(s[1..], f)
  }

  lemma {:induction false} MapCharsAppend(a: string, b: string, f: char -> string)
    ensures MapChars(a + b, f) == MapChars(a, f) + MapChars(b, f)
  {
    if a != [] {
      assert (a + b)[1..] == a[1..] + b;
      MapCharsAppend(a[1..], b, f);
    } else {
      assert a + b == b;
    }
  }

  /** The corrected escape. */
  function Escape(s: string): string {
    MapChars(s, EscapeChar)
  }

  /** Two passes of `replace` escape each character on its own: the second pass never sees a quote the first wrote. */
  lemma {:induction false} EscapeAsWrittenPerChar(s: string)
    ensures EscapeAsWritten(s) == MapChars(s, EscapeCharAsWritten)
  {
    if s != [] {
      EscapeAsWrittenPerChar(s[1..]);
      EscapeAsWrittenCons(s, ReplaceAll(s[1..], '\\', "\\\\"));
    }
  }

  lemma EscapeAsWrittenCons(s: string, r1: string)
    requires s != [] && r1 == ReplaceAll(s[1..], '\\', "\\\\")
    requires ReplaceAll(r1, '"', "\\\"") == MapChars(s[1..], EscapeCharAsWritten)
    ensures EscapeAsWritten(s) == MapChars(s, EscapeCharAsWritten)
  {
    var head := SlashPass(s[0]);
    assert ReplaceAll(s, '\\', "\\\\") == head + r1;
    ReplaceAllAppend(head, r1, '"', "\\\"");
    QuotePassOfHead(s[0]);
  }

  /** What the first pass writes for one character. */
  function SlashPass(c: char): string {
    if c == '\\' then "\\\\" else [c]
  }

  lemma QuotePassOfHead(c: char)
    ensures ReplaceAll(SlashPass(c), '"', "\\\"") == EscapeCharAsWritten(c)
  {
    var h := SlashPass(c);
    if c == '\\' {
      assert h[1..] == [c] && h[1..][1..] == [];
      assert ReplaceAll(h[1..], '"', "\\\"") == [c];
    } else {
      assert h[1..] == [];
    }
  }

  lemma {:induction false} ReplaceAllAppend(a: string, b: string, c: char, with: string)
    ensures ReplaceAll(a + b, c, with) == ReplaceAll(a, c, with) + ReplaceAll(b, c, with)
  {
    if a != [] {
      assert (a + b)[1..] == a[1..] + b;
      ReplaceAllAppend(a[1..], b, c, with);
    } else {
      assert a + b == b;
    }
  }

  /** A Lua line break, which may not appear unescaped in a short string. */
  predicate IsLineBreak(c: char) {
    c == '\n' || c == '\r'
  }

  predicate HasLineBreak(s: string) {
    exists i :: 0 <= i < |s| && IsLineBreak(s[i])
  }

  // ---------------------------------------------------------------------
  // Reading short strings back.

  /** The escapes the reader knows, with what they stand for; other escapes are not read. */
  function Unescape(c: char): Option<char> {
    match c
    case '\\' => Some('\\')
    case '"' => Some('"')
    case '\'' => Some('\'')
    case 'n' => Some('\n')
    case 'r' => Some('\r')
    case 't' => Some('\t')
    case 'a' => Some('\U{0007}')
    case 'b' => Some('\U{0008}')
    case 'f' => Some('\U{000C}')
    case 'v' => Some('\U{000B}')
    case _ => None
  }

  /**
    The body of a double-quoted short string, after its opening quote: the
    characters up to the closing quote with escapes resolved, and the text
    after it. An unescaped line break ends the reading with an error, as the
    Lua lexer reports an unfinished string.
  */
  function ReadString(s: string): (r: Option<(string, string)>)
    ensures r.Some? ==> |r.value.1| < |s|
  {
    if s == [] then None
    else if s[0] == '"' then Some(("", s[1..]))
    else if IsLineBreak(s[0]) then None
    else if s[0] == '\\' then
      if |s| < 2 || Unescape(s[1]).None? then None
      else match ReadString(s[2..])
        case None => None
        case Some((t, rest)) => Some(([Unescape(s[1]).value] + t, rest))
    else
      match ReadString(s[1..])
      case None => None
      case Some((t, rest)) => Some(([s[0]] + t, rest))
  }

  /** The corrected escape reads back as the original string, whatever follows the closing quote. */
  lemma {:induction false} ReadEscaped(x: string, rest: string)
    ensures ReadString(Escape(x) + "\"" + rest) == Some((x, rest))
  {
    if x == [] {
      assert Escape(x) + "\"" + rest == "\"" + rest;
    } else {
      ReadEscaped(x[1..], rest);
      var e := EscapeChar(x[0]);
      assert Escape(x) + "\"" + rest == e + (Escape(x[1..]) + "\"" + rest);
      var tail := Escape(x[1..]) + "\"" + rest;
      var c := x[0];
      if c == '\n' || c == '\r' || c == '\\' || c == '"' {
        assert e[0] == '\\' && |e| == 2 && Unescape(e[1]) == Some(c);
        var s := e + tail;
        assert s[0] == '\\' && s[1] == e[1] && s[2..] == tail;
        assert [c] + x[1..] == x;
      } else {
        assert e == [c];
        assert (e + tail)[1..] == tail;
        assert [c] + x[1..] == x;
      }
    }
  }

  /** Without line breaks the source's escape reads back as the original string. */
  lemma {:induction false} ReadEscapedAsWritten(x: string, rest: string)
    requires !HasLineBreak(x)
    ensures ReadString(EscapeAsWritten(x) + "\"" + rest) == Some((x, rest))
  {
    EscapeAsWrittenPerChar(x);
    EscapeAgrees(x);
    ReadEscaped(x, rest);
  }

  /** Away from line breaks the two escapes agree. */
  lemma {:induction false} EscapeAgrees(x: string)
    requires !HasLineBreak(x)
    ensures MapChars(x, EscapeCharAsWritten) == Escape(x)
  {
    if x != [] {
      assert !IsLineBreak(x[0]);
      assert !HasLineBreak(x[1..]) by {
        forall i | 0 <= i < |x| - 1 ensures !IsLineBreak(x[1..][i]) {
          assert x[1..][i] == x[i + 1];
        }
      }
      EscapeAgrees(x[1..]);
    }
  }

  /** With a line break, the source's escape leaves it raw and the string cannot be read at all. */
  lemma {:induction false} LineBreakUnreadable(x: string, rest: string)
    requires HasLineBreak(x)
    ensures ReadString(EscapeAsWritten(x) + "\"" + rest) == None
  {
    EscapeAsWrittenPerChar(x);
    LineBreakStops(x, rest);
  }

  lemma {:induction false} LineBreakStops(x: string, rest: string)
    requires HasLineBreak(x)
    ensures ReadString(MapChars(x, EscapeCharAsWritten) + "\"" + rest) == None
  {
    var e := EscapeCharAsWritten(x[0]);
    var tail := MapChars(x[1..], EscapeCharAsWritten) + "\"" + rest;
    assert MapChars(x, EscapeCharAsWritten) + "\"" + rest == e + tail;
    if IsLineBreak(x[0]) {
      assert (e + tail)[0] == x[0];
    } else {
      var i :| 0 <= i < |x| && IsLineBreak(x[i]);
      assert IsLineBreak(x[1..][i - 1]);
      LineBreakStops(x[1..], rest);
      if |e| == 2 {
        assert (e + tail)[2..] == tail;
      } else {
        assert (e + tail)[1..] == tail;
      }
    }
  }

  /** A label text with a line break, as a multi-line label holds. */
  lemma MultiLineTextUnreadable()
    ensures ReadString(EscapeAsWritten("a\nb") + "\"") == None
    ensures ReadString(Escape("a\nb") + "\"") == Some(("a\nb", ""))
  {
    assert HasLineBreak("a\nb") by { assert IsLineBreak("a\nb"[1]); }
    LineBreakUnreadable("a\nb", "");
    assert EscapeAsWritten("a\nb") + "\"" + "" == EscapeAsWritten("a\nb") + "\"";
    ReadEscaped("a\nb", "");
    assert Escape("a\nb") + "\"" + "" == Escape("a\nb") + "\"";
  }

  // ---------------------------------------------------------------------
  // JSON values as Lua text (`json_to_lua`).

  /**
    A `serde_json::Value`. A number is held as the text its `to_string`
    prints; an object's entries are in the order the map iterates them.
  */
  datatype Json =
    | JNull
    | JBool(b: bool)
    | JNumber(text: string)
    | JString(s: string)
    | JArray(items: seq<Json>)
    | JObject(entries: seq<(string, Json)>)

  /**
    `json_to_lua`, with the string escape as a parameter: `nil`, `true` and
    `false`, numbers as printed, strings in double quotes, arrays as `{a, b}`
    and objects as `{["k"] = v}`.
  */
  function ToLua(v: Json, esc: string -> string): string
    decreases v, 1
  {
    match v
    case JNull => "nil"
    case JBool(b) => if b then "true" else "false"
    case JNumber(t) => t
    case JString(s) => "\"" + esc(s) + "\""
    case JArray(xs) => "{" + Join(ItemTexts(xs, esc), ", ") + "}"
    case JObject(es) => "{" + Join(EntryTexts(es, esc), ", ") + "}"
  }

  /** The array elements as Lua text. */
  function ItemTexts(xs: seq<Json>, esc: string -> string): (ts: seq<string>)
    ensures |ts| == |xs| && forall i :: 0 <= i < |xs| ==> ts[i] == ToLua(xs[i], esc)
    decreases JArray(xs), 0
  {
    seq(|xs|, i requires 0 <= i < |xs| => ToLua(xs[i], esc))
  }

  /** The object entries as Lua text. */
  function EntryTexts(es: seq<(string, Json)>, esc: string -> string): (ts: seq<string>)
    ensures |ts| == |es| && forall i :: 0 <= i < |es| ==> ts[i] == EntryText(es[i].0, ToLua(es[i].1, esc), esc)
    decreases JObject(es), 0
  {
    seq(|es|, i requires 0 <= i < |es| => EntryText(es[i].0, ToLua(es[i].1, esc), esc))
  }

  /** One object entry: the key always in the `["key"] = ` form. */
  function EntryText(k: string, value: string, esc: string -> string): string {
    "[\"" + esc(k) + "\"] = " + value
  }

  predicate IsDigit(c: char) {
    '0' <= c <= '9'
  }

  predicate IsNumChar(c: char) {
    IsDigit(c) || c == '-' || c == '+' || c == '.' || c == 'e' || c == 'E'
  }

  predicate IsNameStart(c: char) {
    ('a' <= c <= 'z') || ('A' <= c <= 'Z') || c == '_'
  }

  predicate IsNameChar(c: char) {
    IsNameStart(c) || IsDigit(c)
  }

  /** Printed number text: a digit or a minus sign first, then number characters. */
  predicate NumText(t: string) {
    t != [] && (IsDigit(t[0]) || t[0] == '-') && forall i :: 0 <= i < |t| ==> IsNumChar(t[i])
  }

  /** Every number in the value has printed number text. */
  predicate Wf(v: Json) {
    match v
    case JNumber(t) => NumText(t)
    case JArray(xs) => forall i :: 0 <= i < |xs| ==> Wf(xs[i])
    case JObject(es) => forall i :: 0 <= i < |es| ==> Wf(es[i].1)
    case _ => true
  }

  /** What the Lua text can tell apart: an empty object and an empty array are both `{}`. */
  function Norm(v: Json): Json
    decreases v, 1
  {
    match v
    case JArray(xs) => JArray(NormItems(xs))
    case JObject(es) => if es == [] then JArray([]) else JObject(NormEntries(es))
    case _ => v
  }

  function NormItems(xs: seq<Json>): (ys: seq<Json>)
    ensures |ys| == |xs| && forall i :: 0 <= i < |xs| ==> ys[i] == Norm(xs[i])
    decreases JArray(xs), 0
  {
    seq(|xs|, i requires 0 <= i < |xs| => Norm(xs[i]))
  }

  function NormEntries(es: seq<(string, Json)>): (ps: seq<(string, Json)>)
    ensures |ps| == |es| && forall i :: 0 <= i < |es| ==> ps[i] == (es[i].0, Norm(es[i].1))
    decreases JObject(es), 0
  {
    seq(|es|, i requires 0 <= i < |es| => (es[i].0, Norm(es[i].1)))
  }

  // ---------------------------------------------------------------------
  // Reading table constructors back.

  /** A field of a table constructor: positional, or with a key. */
  datatype Field = Pos(v: Json) | Keyed(k: string, v: Json)

  /** The length of the longest prefix of `s` whose characters satisfy `p`. */
  function Run(s: string, p: char -> bool): (n: nat)
    ensures n <= |s| && forall i :: 0 <= i < n ==> p(s[i])
    ensures n < |s| ==> !p(s[n])
  {
    if s != [] && p(s[0]) then 1 + Run(s[1..], p) else 0
  }

  function SkipSpaces(s: string): (r: string)
    ensures |r| <= |s| && (r != [] ==> r[0] != ' ')
  {
    if s != [] && s[0] == ' ' then SkipSpaces(s[1..]) else s
  }

  /** The reserved words of Lua 5.4, which cannot be field names. */
  predicate Reserved(w: string) {
    w in {"and", "break", "do", "else", "elseif", "end", "false", "for", "function", "goto", "if",
          "in", "local", "nil", "not", "or", "repeat", "return", "then", "true", "until", "while"}
  }

  /** One value: `nil`, a boolean, a number, a string or a table; the text after it comes back too. */
  function ReadValue(s: string): (r: Option<(Json, string)>)
    ensures r.Some? ==> |r.value.1| < |s|
    decreases |s|, 0
  {
    if s == [] then None
    else if s[0] == '{' then ReadTable(s[1..])
    else if s[0] == '"' then
      match ReadString(s[1..])
      case None => None
      case Some((t, rest)) => Some((JString(t), rest))
    else if IsNameStart(s[0]) then
      var n := Run(s, IsNameChar);
      var word := s[..n];
      if word == "nil" then Some((JNull, s[n..]))
      else if word == "true" then Some((JBool(true), s[n..]))
      else if word == "false" then Some((JBool(false), s[n..]))
      else None
    else if IsDigit(s[0]) || s[0] == '-' then
      var n := Run(s, IsNumChar);
      Some((JNumber(s[..n]), s[n..]))
    else None
  }

  /** A table after its `{`: `{}` reads as an empty array, otherwise the fields decide between array and object. */
  function ReadTable(s: string): (r: Option<(Json, string)>)
    ensures r.Some? ==> |r.value.1| < |s|
    decreases |s|, 3
  {
    var t := SkipSpaces(s);
    if t != [] && t[0] == '}' then Some((JArray([]), t[1..]))
    else
      match ReadFields(t)
      case None => None
      case Some((fs, rest)) =>
        match Build(fs)
        case None => None
        case Some(v) => Some((v, rest))
  }

  /** Fields separated by commas up to the closing `}`; a comma may also end the list. */
  function ReadFields(s: string): (r: Option<(seq<Field>, string)>)
    ensures r.Some? ==> |r.value.1| < |s|
    decreases |s|, 2
  {
    match ReadField(s)
    case None => None
    case Some((f, after)) =>
      var t := SkipSpaces(after);
      if t == [] then None
      else if t[0] == '}' then Some(([f], t[1..]))
      else if t[0] == ',' then
        var u := SkipSpaces(t[1..]);
        if u != [] && u[0] == '}' then Some(([f], u[1..]))
        else
          match ReadFields(u)
          case None => None
          case Some((fs, rest)) => Some(([f] + fs, rest))
      else None
  }

  /** One field: `["key"] = v`, `name = v`, or a value on its own. */
  function ReadField(s: string): (r: Option<(Field, string)>)
    ensures r.Some? ==> |r.value.1| < |s|
    decreases |s|, 1
  {
    if s != [] && s[0] == '[' then
      var t := SkipSpaces(s[1..]);
      if t == [] || t[0] != '"' then None
      else
        match ReadString(t[1..])
        case None => None
        case Some((k, after)) => ReadAssigned(k, SkipSpaces(after), true)
    else if s != [] && IsNameStart(s[0]) && !Reserved(s[..Run(s, IsNameChar)]) then
      var n := Run(s, IsNameChar);
      ReadAssigned(s[..n], s[n..], false)
    else
      match ReadValue(s)
      case None => None
      case Some((v, rest)) => Some((Pos(v), rest))
  }

  /** The `] = v` or ` = v` that follows a key; `bracket` says whether a `]` comes first. */
  function ReadAssigned(k: string, s: string, bracket: bool): (r: Option<(Field, string)>)
    ensures r.Some? ==> |r.value.1| < |s|
    decreases |s|, 0
  {
    var e := if bracket then (if s != [] && s[0] == ']' then SkipSpaces(s[1..]) else []) else SkipSpaces(s);
    if e == [] || e[0] != '=' then None
    else
      match ReadValue(SkipSpaces(e[1..]))
      case None => None
      case Some((v, rest)) => Some((Keyed(k, v), rest))
  }

  /** A table whose fields are all positional is an array, one whose fields all have keys an object. */
  function Build(fs: seq<Field>): Option<Json> {
    if forall i :: 0 <= i < |fs| ==> fs[i].Pos? then Some(JArray(FieldValues(fs)))
    else if forall i :: 0 <= i < |fs| ==> fs[i].Keyed? then Some(JObject(FieldPairs(fs)))
    else None
  }

  function FieldValues(fs: seq<Field>): (vs: seq<Json>)
    ensures |vs| == |fs| && forall i :: 0 <= i < |fs| ==> vs[i] == fs[i].v
  {
    seq(|fs|, i requires 0 <= i < |fs| => fs[i].v)
  }

  function FieldPairs(fs: seq<Field>): (ps: seq<(string, Json)>)
    requires forall i :: 0 <= i < |fs| ==> fs[i].Keyed?
    ensures |ps| == |fs| && forall i :: 0 <= i < |fs| ==> ps[i] == (fs[i].k, fs[i].v)
  {
    seq(|fs|, i requires 0 <= i < |fs| => (fs[i].k, fs[i].v))
  }

  /** Values as positional fields. */
  function Positional(vs: seq<Json>): (fs: seq<Field>)
    ensures |fs| == |vs| && forall i :: 0 <= i < |vs| ==> fs[i] == Pos(vs[i])
  {
    seq(|vs|, i requires 0 <= i < |vs| => Pos(vs[i]))
  }

  /** Entries as keyed fields. */
  function KeyedFields(ps: seq<(string, Json)>): (fs: seq<Field>)
    ensures |fs| == |ps| && forall i :: 0 <= i < |ps| ==> fs[i] == Keyed(ps[i].0, ps[i].1)
  {
    seq(|ps|, i requires 0 <= i < |ps| => Keyed(ps[i].0, ps[i].1))
  }

  // ---------------------------------------------------------------------
  // What the Lua side reads back from `json_to_lua` with the corrected escape.

  /** Text that may follow a value inside a table: nothing, a separator, a closing brace or a space. */
  predicate Stop(r: string) {
    r == [] || r[0] == ',' || r[0] == '}' || r[0] == ' '
  }

  /** A field's text starts with something other than a space, a separator or a closing brace. */
  predicate Lead(t: string) {
    t != [] && t[0] != ' ' && t[0] != '}' && t[0] != ','
  }

  lemma {:induction false} RunPrefix(w: string, r: string, p: char -> bool)
    requires forall i :: 0 <= i < |w| ==> p(w[i])
    requires r == [] || !p(r[0])
    ensures Run(w + r, p) == |w|
  {
    if w == [] {
      assert w + r == r;
    } else {
      RunPrefix(w[1..], r, p);
      assert (w + r)[1..] == w[1..] + r;
    }
  }

  lemma SkipOne(t: string)
    requires t == [] || t[0] != ' '
    ensures SkipSpaces(" " + t) == t
  {
    assert (" " + t)[1..] == t;
  }

  lemma {:induction false} JoinHead(parts: seq<string>, sep: string)
    requires parts != [] && parts[0] != []
    ensures Join(parts, sep) != [] && Join(parts, sep)[0] == parts[0][0]
  {
  }

  /** The text of a value starts with its own first character: a quote, a brace, a letter of a word, or a digit or minus sign. */
  lemma ToLuaLead(v: Json)
    requires Wf(v)
    ensures Lead(ToLua(v, Escape)) && ToLua(v, Escape)[0] != '['
    ensures IsNameStart(ToLua(v, Escape)[0]) ==> v.JNull? || v.JBool?
  {
  }

  /** A scalar reads back as itself before any text that may follow it. */
  lemma ScalarRoundTrip(v: Json, r: string)
    requires !v.JArray? && !v.JObject? && Wf(v) && Stop(r)
    ensures ReadValue(ToLua(v, Escape) + r) == Some((v, r))
  {
    var t := ToLua(v, Escape);
    var s := t + r;
    match v
    case JString(x) =>
      assert s[1..] == Escape(x) + "\"" + r;
      ReadEscaped(x, r);
    case JNumber(n) =>
      RunPrefix(n, r, IsNumChar);
      assert s[..|n|] == n && s[|n|..] == r;
    case JNull =>
      RunPrefix(t, r, IsNameChar);
      assert s[..|t|] == t && s[|t|..] == r;
    case JBool(_) =>
      RunPrefix(t, r, IsNameChar);
      assert s[..|t|] == t && s[|t|..] == r;
  }

  /** A value that reads back reads back as a positional field too. */
  lemma PosField(x: Json, r: string)
    requires Wf(x) && Stop(r)
    requires ReadValue(ToLua(x, Escape) + r) == Some((Norm(x), r))
    ensures ReadField(ToLua(x, Escape) + r) == Some((Pos(Norm(x)), r))
  {
    var t := ToLua(x, Escape);
    var s := t + r;
    ToLuaLead(x);
    if IsNameStart(s[0]) {
      RunPrefix(t, r, IsNameChar);
      assert s[..Run(s, IsNameChar)] == t;
    }
  }

  /** `= v` with a space after the sign reads as the value. */
  lemma EqualsValue(t: string, r: string)
    requires Lead(t)
    ensures var e := "= " + t + r; e != [] && e[0] == '=' && SkipSpaces(e[1..]) == t + r
  {
    assert ("= " + t + r)[1..] == " " + (t + r);
    SkipOne(t + r);
  }

  /** After the key, `] = v` or ` = v` reads as the key with the value. */
  lemma AssignedValue(k: string, t: string, v: Json, r: string, bracket: bool)
    requires Lead(t) && ReadValue(t + r) == Some((v, r))
    ensures ReadAssigned(k, (if bracket then "] = " else " = ") + t + r, bracket) == Some((Keyed(k, v), r))
  {
    var e := "= " + t + r;
    EqualsValue(t, r);
    SkipOne(e);
    AssignedShape(t, r);
    AssignedAfter(k, (if bracket then "] = " else " = ") + t + r, bracket, e, t + r, v, r);
  }

  lemma AssignedShape(t: string, r: string)
    ensures "] = " + t + r == "]" + " " + ("= " + t + r)
    ensures " = " + t + r == "" + " " + ("= " + t + r)
  {
  }

  lemma AssignedAfter(k: string, s: string, bracket: bool, e: string, u: string, v: Json, r: string)
    requires s == (if bracket then "]" else "") + " " + e
    requires e != [] && e[0] == '=' && SkipSpaces(e[1..]) == u && ReadValue(u) == Some((v, r))
    requires SkipSpaces(" " + e) == e
    ensures ReadAssigned(k, s, bracket) == Some((Keyed(k, v), r))
  {
    if bracket {
      assert s[1..] == " " + e;
    } else {
      assert s == " " + e;
    }
  }

  lemma BracketField(q: string, k: string, after: string)
    requires q != [] && q[0] == '"' && ReadString(q[1..]) == Some((k, after))
    ensures ReadField("[" + q) == ReadAssigned(k, SkipSpaces(after), true)
  {
    assert ("[" + q)[1..] == q;
    assert SkipSpaces(q) == q;
  }

  lemma EntryShape(k: string, t: string, r: string)
    ensures EntryText(k, t, Escape) + r == "[" + ("\"" + Escape(k) + "\"" + ("] = " + t + r))
  {
  }

  lemma EscapedKey(k: string, after: string)
    ensures ("\"" + Escape(k) + "\"" + after)[1..] == Escape(k) + "\"" + after
    ensures ReadString(("\"" + Escape(k) + "\"" + after)[1..]) == Some((k, after))
  {
    assert ("\"" + Escape(k) + "\"" + after)[1..] == Escape(k) + "\"" + after;
    ReadEscaped(k, after);
  }

  /** An entry `["k"] = v` reads back as the key with its value. */
  lemma KeyedField(k: string, t: string, v: Json, r: string)
    requires Lead(t) && ReadValue(t + r) == Some((v, r))
    ensures ReadField(EntryText(k, t, Escape) + r) == Some((Keyed(k, v), r))
  {
    var after := "] = " + t + r;
    var q := "\"" + Escape(k) + "\"" + after;
    EntryShape(k, t, r);
    EscapedKey(k, after);
    BracketField(q, k, after);
    assert SkipSpaces(after) == after;
    AssignedValue(k, t, v, r, true);
  }

  /** A field `name = v` reads back as the name with its value, for a name Lua does not reserve. */
  lemma NamedField(k: string, t: string, v: Json, r: string)
    requires LuaName(k) && Lead(t) && ReadValue(t + r) == Some((v, r))
    ensures ReadField(k + " = " + t + r) == Some((Keyed(k, v), r))
  {
    var after := " = " + t + r;
    var s := k + " = " + t + r;
    assert s == k + after;
    RunPrefix(k, after, IsNameChar);
    assert s[..|k|] == k && s[|k|..] == after;
    AssignedValue(k, t, v, r, false);
    assert ReadField(s) == ReadAssigned(k, after, false);
  }

  /** A name Lua accepts before ` = ` in a table constructor. */
  predicate LuaName(k: string) {
    k != [] && IsNameStart(k[0]) && (forall i :: 0 <= i < |k| ==> IsNameChar(k[i])) && !Reserved(k)
  }

  /** A field followed by the closing brace ends the list. */
  lemma FieldsLast(s: string, f: Field, after: string, rest: string)
    requires ReadField(s) == Some((f, after)) && SkipSpaces(after) == "}" + rest
    ensures ReadFields(s) == Some(([f], rest))
  {
    assert ("}" + rest)[1..] == rest;
  }

  /** A field followed by `, ` and more fields reads them all. */
  lemma FieldsNext(s: string, f: Field, u: string, fs: seq<Field>, rest: string)
    requires ReadField(s) == Some((f, ", " + u)) && Lead(u) && ReadFields(u) == Some((fs, rest))
    ensures ReadFields(s) == Some(([f] + fs, rest))
  {
    var after := ", " + u;
    assert SkipSpaces(after) == after;
    assert after[1..] == " " + u;
    SkipOne(u);
  }

  /** A single field before the closing brace. */
  lemma FieldsOne(texts: seq<string>, fields: seq<Field>, close: string, rest: string)
    requires |texts| == |fields| == 1
    requires forall r :: Stop(r) ==> ReadField(texts[0] + r) == Some((fields[0], r))
    requires close == "}" || close == " }"
    ensures ReadFields(Join(texts, ", ") + (close + rest)) == Some((fields, rest))
  {
    var s := Join(texts, ", ") + (close + rest);
    assert s == texts[0] + (close + rest);
    assert Stop(close + rest);
    assert SkipSpaces(close + rest) == "}" + rest by {
      if close == " }" {
        assert close + rest == " " + ("}" + rest);
        SkipOne("}" + rest);
      }
    }
    FieldsLast(s, fields[0], close + rest, rest);
    assert [fields[0]] == fields;
  }

  lemma JoinShape(texts: seq<string>, after: string)
    requires |texts| > 1
    ensures Join(texts, ", ") + after == texts[0] + (", " + (Join(texts[1..], ", ") + after))
    ensures Stop(", " + (Join(texts[1..], ", ") + after))
  {
  }

  lemma FieldsCons(texts: seq<string>, fields: seq<Field>, after: string, rest: string)
    requires |texts| == |fields| > 1 && Lead(texts[1])
    requires var u := Join(texts[1..], ", ") + after;
      ReadField(texts[0] + (", " + u)) == Some((fields[0], ", " + u)) && ReadFields(u) == Some((fields[1..], rest))
    ensures ReadFields(Join(texts, ", ") + after) == Some((fields, rest))
  {
    var u := Join(texts[1..], ", ") + after;
    JoinShape(texts, after);
    JoinHead(texts[1..], ", ");
    FieldsNext(texts[0] + (", " + u), fields[0], u, fields[1..], rest);
    assert [fields[0]] + fields[1..] == fields;
  }

  /**
    Fields joined by `, ` and closed by `}` or ` }` read back in order, when
    each field's text reads back before whatever may follow it.
  */
  lemma {:induction false} FieldsRoundTrip(texts: seq<string>, fields: seq<Field>, close: string, rest: string)
    requires |texts| == |fields| > 0
    requires forall i :: 0 <= i < |texts| ==> Lead(texts[i])
    requires forall i, r :: 0 <= i < |texts| && Stop(r) ==> ReadField(texts[i] + r) == Some((fields[i], r))
    requires close == "}" || close == " }"
    ensures ReadFields(Join(texts, ", ") + (close + rest)) == Some((fields, rest))
  {
    if |texts| == 1 {
      FieldsOne(texts, fields, close, rest);
    } else {
      var u := Join(texts[1..], ", ") + (close + rest);
      FieldsRoundTrip(texts[1..], fields[1..], close, rest);
      JoinShape(texts, close + rest);
      assert ReadField(texts[0] + (", " + u)) == Some((fields[0], ", " + u));
      FieldsCons(texts, fields, close + rest, rest);
    }
  }

  /** Positional fields make an array of their values. */
  lemma BuildPositional(items: seq<Json>)
    ensures Build(Positional(items)) == Some(JArray(items))
  {
    assert FieldValues(Positional(items)) == items;
  }

  /** Keyed fields, at least one, make an object of their entries. */
  lemma BuildKeyed(pairs: seq<(string, Json)>)
    requires pairs != []
    ensures Build(KeyedFields(pairs)) == Some(JObject(pairs))
  {
    var fs := KeyedFields(pairs);
    assert !fs[0].Pos?;
    assert FieldPairs(fs) == pairs;
  }

  /** `{}` reads as an empty table, which is taken for an empty array. */
  lemma EmptyTable(r: string)
    ensures ReadValue("{}" + r) == Some((JArray([]), r))
  {
    assert ("{}" + r)[1..] == "}" + r;
    assert ("}" + r)[1..] == r;
  }

  /** An empty object is written `{}` and so reads back as an empty array. */
  lemma EmptyObject(r: string)
    ensures ReadValue(ToLua(JObject([]), Escape) + r) == Some((JArray([]), r))
  {
    assert ToLua(JObject([]), Escape) + r == "{}" + r;
    EmptyTable(r);
  }

  lemma TableText(t: string, parts: seq<string>, r: string)
    requires t == "{" + Join(parts, ", ") + "}"
    ensures t + r == "{" + (Join(parts, ", ") + ("}" + r))
  {
  }

  /** A brace followed by fields that read back is the table those fields build. */
  lemma TableOf(inner: string, fields: seq<Field>, val: Json, r: string)
    requires Lead(inner) && ReadFields(inner) == Some((fields, r)) && Build(fields) == Some(val)
    ensures ReadValue("{" + inner) == Some((val, r))
  {
    assert ("{" + inner)[1..] == inner;
    assert SkipSpaces(inner) == inner;
  }

  /**
    Everything `json_to_lua` writes reads back as the value it came from,
    up to the one thing Lua tables cannot tell apart: an empty object reads
    as an empty array.
  */
  lemma {:induction false} ValueRoundTrip(v: Json, r: string)
    requires Wf(v) && Stop(r)
    ensures ReadValue(ToLua(v, Escape) + r) == Some((Norm(v), r))
    decreases v, 2
  {
    match v
    case JArray(xs) =>
      ArrayRoundTrip(xs, r);
    case JObject(es) =>
      ObjectRoundTrip(es, r);
    case _ =>
      ScalarRoundTrip(v, r);
  }

  lemma {:induction false} ArrayRoundTrip(xs: seq<Json>, r: string)
    requires Wf(JArray(xs)) && Stop(r)
    ensures ReadValue(ToLua(JArray(xs), Escape) + r) == Some((Norm(JArray(xs)), r))
    decreases JArray(xs), 1
  {
    if xs == [] {
      assert ToLua(JArray(xs), Escape) + r == "{}" + r;
      EmptyTable(r);
      assert NormItems(xs) == [];
    } else {
      var parts := ItemTexts(xs, Escape);
      var inner := Join(parts, ", ") + ("}" + r);
      ArrayFields(xs, r);
      BuildPositional(NormItems(xs));
      TableOf(inner, Positional(NormItems(xs)), Norm(JArray(xs)), r);
      TableText(ToLua(JArray(xs), Escape), parts, r);
    }
  }

  lemma {:induction false} ArrayFields(xs: seq<Json>, r: string)
    requires xs != [] && Wf(JArray(xs)) && Stop(r)
    ensures Lead(Join(ItemTexts(xs, Escape), ", ") + ("}" + r))
    ensures ReadFields(Join(ItemTexts(xs, Escape), ", ") + ("}" + r)) == Some((Positional(NormItems(xs)), r))
    decreases JArray(xs), 0
  {
    var parts := ItemTexts(xs, Escape);
    var fields := Positional(NormItems(xs));
    forall i, r' | 0 <= i < |parts| && Stop(r')
      ensures ReadField(parts[i] + r') == Some((fields[i], r'))
    {
      ValueRoundTrip(xs[i], r');
      PosField(xs[i], r');
    }
    forall i | 0 <= i < |parts| ensures Lead(parts[i]) {
      ToLuaLead(xs[i]);
    }
    FieldsRoundTrip(parts, fields, "}", r);
    JoinHead(parts, ", ");
  }

  lemma {:induction false} ObjectRoundTrip(es: seq<(string, Json)>, r: string)
    requires Wf(JObject(es)) && Stop(r)
    ensures ReadValue(ToLua(JObject(es), Escape) + r) == Some((Norm(JObject(es)), r))
    decreases JObject(es), 1
  {
    if es == [] {
      EmptyObject(r);
    } else {
      var parts := EntryTexts(es, Escape);
      var inner := Join(parts, ", ") + ("}" + r);
      ObjectFields(es, r);
      BuildKeyed(NormEntries(es));
      TableOf(inner, KeyedFields(NormEntries(es)), Norm(JObject(es)), r);
      TableText(ToLua(JObject(es), Escape), parts, r);
    }
  }

  lemma {:induction false} ObjectFields(es: seq<(string, Json)>, r: string)
    requires es != [] && Wf(JObject(es)) && Stop(r)
    ensures Lead(Join(EntryTexts(es, Escape), ", ") + ("}" + r))
    ensures ReadFields(Join(EntryTexts(es, Escape), ", ") + ("}" + r)) == Some((KeyedFields(NormEntries(es)), r))
    decreases JObject(es), 0
  {
    var parts := EntryTexts(es, Escape);
    var fields := KeyedFields(NormEntries(es));
    forall i, r' | 0 <= i < |parts| && Stop(r')
      ensures ReadField(parts[i] + r') == Some((fields[i], r'))
    {
      ValueRoundTrip(es[i].1, r');
      ToLuaLead(es[i].1);
      KeyedField(es[i].0, ToLua(es[i].1, Escape), Norm(es[i].1), r');
    }
    forall i | 0 <= i < |parts| ensures Lead(parts[i]) {
    }
    FieldsRoundTrip(parts, fields, "}", r);
    JoinHead(parts, ", ");
  }

  // ---------------------------------------------------------------------
  // The records the Rust side deserialises, and their Lua tables.

  /** The Rust `Widget` struct; `kind` is its `type` field, the numbers are `u32`s and `f64`s. */
  datatype RustWidget = RustWidget(
    id: Option<nat>,
    kind: string,
    x: real, y: real, w: real, h: real,
    text: string,
    name: Option<string>,
    image: Option<string>,
    parentId: Option<nat>,
    checked: Option<bool>,
    selectedIndex: Option<nat>)

  /** The Rust `ExportOptions` struct (camelCase keys). */
  datatype ExportOptions = ExportOptions(
    resourcePath: Option<string>,
    luaPath: Option<string>,
    mode: Option<string>,
    fileName: Option<string>,
    animations: Option<Json>)

  /** One more than the largest `u32`. */
  const U32Limit: nat := 0x1_0000_0000

  /** An optional `u32` read from an editor number: absent when it is absent or does not fit. */
  function U32(n: Option<int>): (r: Option<nat>)
    ensures r.Some? <==> n.Some? && 0 <= n.value < U32Limit
    ensures r.Some? ==> r.value == n.value
  {
    if n.Some? && 0 <= n.value < U32Limit then Some(n.value as nat) else None
  }

  /** What stands in for a widget that does not deserialise: a `Panel` at the origin, zero-sized, with empty text and nothing optional. */
  const FallbackWidget := RustWidget(None, "Panel", 0.0, 0.0, 0.0, 0.0, "", None, None, None, None, None)

  /** What stands in for options that do not deserialise: every field absent. */
  const NoOptions := ExportOptions(None, None, None, None, None)

  /**
    `serde_json::from_value` of an editor widget into the Rust struct, as
    written: the text is required and the id must fit a `u32`. The struct's
    fields keep their snake_case names (`parent_id`, `selected_index`), so
    the editor's `parentId` and `selectedIndex` keys match nothing and are
    ignored; both fields stay absent.
  */
  function FromEditorAsWritten(w: Types.Widget): (r: Option<RustWidget>)
    ensures r.None? <==> w.text.None? || !(0 <= w.id < U32Limit)
    ensures r.Some? ==> r.value.parentId.None? && r.value.selectedIndex.None?
  {
    if w.text.None? || !(0 <= w.id < U32Limit) then None
    else Some(RustWidget(U32(Some(w.id)), w.kind, w.x, w.y, w.w, w.h, w.text.value, Some(w.name), w.image,
                         None, w.checked, None))
  }

  /**
    The deserialisation with camelCase field names, as `ExportOptions` has
    them: the same requirements, and the parent link and the selected index
    carried over (as absent when they do not fit a `u32`).
  */
  function FromEditor(w: Types.Widget): (r: Option<RustWidget>)
    ensures r.None? <==> w.text.None? || !(0 <= w.id < U32Limit)
    ensures r.Some? ==> r.value.parentId == U32(w.parentId) && r.value.selectedIndex == U32(w.selectedIndex)
  {
    if w.text.None? || !(0 <= w.id < U32Limit) then None
    else Some(RustWidget(U32(Some(w.id)), w.kind, w.x, w.y, w.w, w.h, w.text.value, Some(w.name), w.image,
                         U32(w.parentId), w.checked, U32(w.selectedIndex)))
  }

  /** The widget the plugin is given: the deserialised one, or the stand-in. */
  function Received(d: Option<RustWidget>): (r: RustWidget)
    ensures d.Some? ==> r == d.value
    ensures d.None? ==> r.kind == "Panel" && r.id.None? && r.text == "" && r.w == 0.0 && r.h == 0.0
  {
    d.GetOr(FallbackWidget)
  }

  /** The options the plugin is given. */
  function ReceivedOptions(d: Option<ExportOptions>): (r: ExportOptions)
    ensures d.Some? ==> r == d.value
    ensures d.None? ==> r.resourcePath.None? && r.luaPath.None? && r.mode.None? && r.fileName.None? && r.animations.None?
  {
    d.GetOr(NoOptions)
  }

  /**
    The two deserialisations differ only in the parent link and the selected
    index: as written, a child widget reaches the plugin as a root, while the
    corrected reading keeps its parent.
  */
  lemma ParentLinkDropped(w: Types.Widget)
    requires w.text.Some? && 0 <= w.id < U32Limit
    requires w.parentId.Some? && 0 <= w.parentId.value < U32Limit
    ensures Received(FromEditorAsWritten(w)).parentId == None
    ensures Received(FromEditor(w)).parentId == Some(w.parentId.value)
    ensures Received(FromEditorAsWritten(w)) == Received(FromEditor(w)).(parentId := None, selectedIndex := None)
  {
  }

  function OptNat(n: Option<nat>): Json {
    if n.Some? then JNumber(NatToString(n.value)) else JNull
  }

  function OptString(s: Option<string>): Json {
    if s.Some? then JString(s.value) else JNull
  }

  function OptBool(b: Option<bool>): Json {
    if b.Some? then JBool(b.value) else JNull
  }

  /**
    The fields of a widget's Lua table, in the order they are written; an
    absent optional is `nil`. Numbers print as `showF64` prints an `f64`.
  */
  function WidgetFields(w: RustWidget, showF64: real -> string): (fs: seq<(string, Json)>)
    ensures |fs| == 12
    ensures fs[0] == ("id", OptNat(w.id)) && fs[9] == ("parentId", OptNat(w.parentId))
  {
    [("id", OptNat(w.id)), ("type", JString(w.kind)),
     ("x", JNumber(showF64(w.x))), ("y", JNumber(showF64(w.y))), ("w", JNumber(showF64(w.w))), ("h", JNumber(showF64(w.h))),
     ("text", JString(w.text)), ("name", OptString(w.name)), ("image", OptString(w.image)),
     ("parentId", OptNat(w.parentId)), ("checked", OptBool(w.checked)), ("selectedIndex", OptNat(w.selectedIndex))]
  }

  /** The fields of the options table, in order: every one present, `nil` when absent. */
  function OptionFields(o: ExportOptions): (fs: seq<(string, Json)>)
    ensures |fs| == 5 && fs[4] == ("animations", o.animations.GetOr(JNull))
  {
    [("resourcePath", OptString(o.resourcePath)), ("luaPath", OptString(o.luaPath)), ("mode", OptString(o.mode)),
     ("fileName", OptString(o.fileName)), ("animations", o.animations.GetOr(JNull))]
  }

  /** Fields as `name = value` text. */
  function FieldTexts(fs: seq<(string, Json)>, esc: string -> string): (ts: seq<string>)
    ensures |ts| == |fs| && forall i :: 0 <= i < |fs| ==> ts[i] == fs[i].0 + " = " + ToLua(fs[i].1, esc)
  {
    seq(|fs|, i requires 0 <= i < |fs| => fs[i].0 + " = " + ToLua(fs[i].1, esc))
  }

  /** A table of named fields; the options table has a space inside each brace. */
  function NamedTable(fs: seq<(string, Json)>, esc: string -> string, spaced: bool): string {
    (if spaced then "{ " else "{") + Join(FieldTexts(fs, esc), ", ") + (if spaced then " }" else "}")
  }

  function WidgetTable(w: RustWidget, esc: string -> string, showF64: real -> string): string {
    NamedTable(WidgetFields(w, showF64), esc, false)
  }

  function WidgetTexts(ws: seq<RustWidget>, esc: string -> string, showF64: real -> string): (ts: seq<string>)
    ensures |ts| == |ws| && forall i :: 0 <= i < |ws| ==> ts[i] == WidgetTable(ws[i], esc, showF64)
  {
    seq(|ws|, i requires 0 <= i < |ws| => WidgetTable(ws[i], esc, showF64))
  }

  /** The `widgets` table: one table per widget, in order. */
  function WidgetsTable(ws: seq<RustWidget>, esc: string -> string, showF64: real -> string): string {
    "{" + Join(WidgetTexts(ws, esc, showF64), ", ") + "}"
  }

  /** The `options` table. */
  function OptionsTable(o: ExportOptions, esc: string -> string): string {
    NamedTable(OptionFields(o), esc, true)
  }

  /** The two tables the wrapper script hands the plugin, from what the editor sent. */
  function PluginTables(ws: seq<Option<RustWidget>>, o: Option<ExportOptions>, esc: string -> string, showF64: real -> string): (string, string) {
    (WidgetsTable(seq(|ws|, i requires 0 <= i < |ws| => Received(ws[i])), esc, showF64), OptionsTable(ReceivedOptions(o), esc))
  }

  // ---------------------------------------------------------------------
  // What the plugin reads from the widget and options tables.

  /** Named fields joined by `, ` read back as keyed fields, in order. */
  lemma NamedFieldsRoundTrip(fs: seq<(string, Json)>, close: string, r: string)
    requires fs != [] && forall i :: 0 <= i < |fs| ==> LuaName(fs[i].0) && Wf(fs[i].1)
    requires close == "}" || close == " }"
    ensures Lead(Join(FieldTexts(fs, Escape), ", ") + (close + r))
    ensures ReadFields(Join(FieldTexts(fs, Escape), ", ") + (close + r)) == Some((KeyedFields(NormEntries(fs)), r))
  {
    var parts := FieldTexts(fs, Escape);
    var fields := KeyedFields(NormEntries(fs));
    forall i, r' | 0 <= i < |parts| && Stop(r')
      ensures ReadField(parts[i] + r') == Some((fields[i], r'))
    {
      ValueRoundTrip(fs[i].1, r');
      ToLuaLead(fs[i].1);
      NamedField(fs[i].0, ToLua(fs[i].1, Escape), Norm(fs[i].1), r');
    }
    forall i | 0 <= i < |parts| ensures Lead(parts[i]) {
    }
    FieldsRoundTrip(parts, fields, close, r);
    JoinHead(parts, ", ");
  }

  /** A brace, possibly a space, then fields that read back: the table those fields build. */
  lemma PaddedTableOf(inner: string, fields: seq<Field>, val: Json, r: string)
    requires Lead(inner) && ReadFields(inner) == Some((fields, r)) && Build(fields) == Some(val)
    ensures ReadValue("{" + (" " + inner)) == Some((val, r))
  {
    assert ("{" + (" " + inner))[1..] == " " + inner;
    SkipOne(inner);
  }

  lemma NamedTableText(fs: seq<(string, Json)>, spaced: bool, r: string)
    ensures var inner := Join(FieldTexts(fs, Escape), ", ") + ((if spaced then " }" else "}") + r);
            NamedTable(fs, Escape, spaced) + r == "{" + ((if spaced then " " else "") + inner)
  {
  }

  /**
    A table of named fields reads back as an object with those fields in
    order, whenever the names are names Lua accepts there.
  */
  lemma NamedTableRoundTrip(fs: seq<(string, Json)>, spaced: bool, r: string)
    requires fs != [] && forall i :: 0 <= i < |fs| ==> LuaName(fs[i].0) && Wf(fs[i].1)
    requires Stop(r)
    ensures ReadValue(NamedTable(fs, Escape, spaced) + r) == Some((JObject(NormEntries(fs)), r))
  {
    var close := if spaced then " }" else "}";
    var inner := Join(FieldTexts(fs, Escape), ", ") + (close + r);
    NamedFieldsRoundTrip(fs, close, r);
    BuildKeyed(NormEntries(fs));
    NamedTableText(fs, spaced, r);
    if spaced {
      PaddedTableOf(inner, KeyedFields(NormEntries(fs)), JObject(NormEntries(fs)), r);
    } else {
      TableOf(inner, KeyedFields(NormEntries(fs)), JObject(NormEntries(fs)), r);
      assert "" + inner == inner;
    }
  }

  lemma NatTextIsNumber(n: nat)
    ensures NumText(NatToString(n))
  {
  }

  /** Every field name of a widget table is one Lua accepts before ` = `. */
  lemma WidgetNamesAccepted()
    ensures LuaName("id")
    ensures LuaName("type")
    ensures LuaName("x")
    ensures LuaName("y")
    ensures LuaName("w")
    ensures LuaName("h")
    ensures LuaName("text")
    ensures LuaName("name")
    ensures LuaName("image")
    ensures LuaName("parentId")
    ensures LuaName("checked")
    ensures LuaName("selectedIndex")
  {
    NameAccepted("id");
    NameAccepted("type");
    NameAccepted("x");
    NameAccepted("y");
    NameAccepted("w");
    NameAccepted("h");
    NameAccepted("text");
    NameAccepted("name");
    NameAccepted("image");
    NameAccepted("parentId");
    NameAccepted("checked");
    NameAccepted("selectedIndex");
  }

  /** Every field name of the options table is one Lua accepts before ` = `. */
  lemma OptionNamesAccepted()
    ensures LuaName("resourcePath")
    ensures LuaName("luaPath")
    ensures LuaName("mode")
    ensures LuaName("fileName")
    ensures LuaName("animations")
  {
    NameAccepted("resourcePath");
    NameAccepted("luaPath");
    NameAccepted("mode");
    NameAccepted("fileName");
    NameAccepted("animations");
  }

  /** A word of ASCII letters that is not reserved. */
  lemma NameAccepted(k: string)
    requires 0 < |k| <= 13 && forall i :: 0 <= i < |k| ==> 'a' <= k[i] <= 'z' || 'A' <= k[i] <= 'Z'
    requires k !in {"and", "break", "do", "else", "elseif", "end", "false", "for", "function", "goto", "if",
                    "in", "local", "nil", "not", "or", "repeat", "return", "then", "true", "until", "while"}
    ensures LuaName(k)
  {
  }

  /** Numbers printed the way a number literal starts. */
  predicate PrintsNumbers(w: RustWidget, showF64: real -> string) {
    NumText(showF64(w.x)) && NumText(showF64(w.y)) && NumText(showF64(w.w)) && NumText(showF64(w.h))
  }

  lemma WidgetFieldsWellFormed(w: RustWidget, showF64: real -> string)
    requires PrintsNumbers(w, showF64)
    ensures var fs := WidgetFields(w, showF64);
            (forall i :: 0 <= i < |fs| ==> LuaName(fs[i].0) && Wf(fs[i].1)) && NormEntries(fs) == fs
  {
    WidgetNamesAccepted();
    OptNatGood(w.id);
    OptNatGood(w.parentId);
    OptNatGood(w.selectedIndex);
    var fs := WidgetFields(w, showF64);
    assert forall i :: 0 <= i < |fs| ==> GoodField(fs[i]);
    GoodFieldsNormal(fs);
  }

  /** A field with a name Lua accepts and a value that needs no normalising. */
  predicate GoodField(f: (string, Json)) {
    LuaName(f.0) && Wf(f.1) && Norm(f.1) == f.1
  }

  lemma OptNatGood(n: Option<nat>)
    ensures Wf(OptNat(n)) && Norm(OptNat(n)) == OptNat(n)
  {
    if n.Some? { NatTextIsNumber(n.value); }
  }

  lemma GoodFieldsNormal(fs: seq<(string, Json)>)
    requires forall i :: 0 <= i < |fs| ==> GoodField(fs[i])
    ensures (forall i :: 0 <= i < |fs| ==> LuaName(fs[i].0) && Wf(fs[i].1)) && NormEntries(fs) == fs
  {
    assert forall i :: 0 <= i < |fs| ==> NormEntries(fs)[i] == fs[i];
  }

  /**
    With the corrected escape, the table written for a widget reads back,
    field by field and in order, as the widget's own values.
  */
  lemma WidgetTableRoundTrip(w: RustWidget, showF64: real -> string, r: string)
    requires PrintsNumbers(w, showF64) && Stop(r)
    ensures ReadValue(WidgetTable(w, Escape, showF64) + r) == Some((JObject(WidgetFields(w, showF64)), r))
  {
    WidgetFieldsWellFormed(w, showF64);
    NamedTableRoundTrip(WidgetFields(w, showF64), false, r);
  }

  /**
    With the corrected escape, the options table reads back with all five
    fields, in order, each the option's value or `nil`.
  */
  lemma OptionsTableRoundTrip(o: ExportOptions, r: string)
    requires o.animations.Some? ==> Wf(o.animations.value)
    requires Stop(r)
    ensures ReadValue(OptionsTable(o, Escape) + r) == Some((JObject(NormEntries(OptionFields(o))), r))
    ensures NormEntries(OptionFields(o))[..4] == OptionFields(o)[..4]
  {
    OptionNamesAccepted();
    NamedTableRoundTrip(OptionFields(o), true, r);
    assert NormEntries(OptionFields(o))[..4] == OptionFields(o)[..4];
  }

  /**
    With the corrected escape, the `widgets` table reads back as one object
    per widget, in order.
  */
  lemma WidgetsTableRoundTrip(ws: seq<RustWidget>, showF64: real -> string, r: string)
    requires forall i :: 0 <= i < |ws| ==> PrintsNumbers(ws[i], showF64)
    requires Stop(r)
    ensures ReadValue(WidgetsTable(ws, Escape, showF64) + r)
         == Some((JArray(seq(|ws|, i requires 0 <= i < |ws| => JObject(WidgetFields(ws[i], showF64)))), r))
  {
    var items := seq(|ws|, i requires 0 <= i < |ws| => JObject(WidgetFields(ws[i], showF64)));
    var parts := WidgetTexts(ws, Escape, showF64);
    if ws == [] {
      assert WidgetsTable(ws, Escape, showF64) + r == "{}" + r;
      EmptyTable(r);
      assert items == [];
    } else {
      var fields := Positional(items);
      forall i, r' | 0 <= i < |parts| && Stop(r')
        ensures ReadField(parts[i] + r') == Some((fields[i], r'))
      {
        WidgetTableRoundTrip(ws[i], showF64, r');
        TableField(parts[i], items[i], r');
      }
      forall i | 0 <= i < |parts| ensures Lead(parts[i]) {
      }
      FieldsRoundTrip(parts, fields, "}", r);
      JoinHead(parts, ", ");
      BuildPositional(items);
      TableOf(Join(parts, ", ") + ("}" + r), fields, JArray(items), r);
      TableText(WidgetsTable(ws, Escape, showF64), parts, r);
    }
  }

  /** A table that reads back reads back as a positional field too. */
  lemma TableField(t: string, v: Json, r: string)
    requires t != [] && t[0] == '{' && ReadValue(t + r) == Some((v, r))
    ensures ReadField(t + r) == Some((Pos(v), r))
  {
  }

  // ---------------------------------------------------------------------
  // Where the written escape and the corrected one agree.

  /** No string in the value, key or element, holds a line break. */
  predicate NoBreaks(v: Json) {
    match v
    case JString(s) => !HasLineBreak(s)
    case JArray(xs) => forall i :: 0 <= i < |xs| ==> NoBreaks(xs[i])
    case JObject(es) => forall i :: 0 <= i < |es| ==> !HasLineBreak(es[i].0) && NoBreaks(es[i].1)
    case _ => true
  }

  lemma EscapesAgree(s: string)
    requires !HasLineBreak(s)
    ensures EscapeAsWritten(s) == Escape(s)
  {
    EscapeAsWrittenPerChar(s);
    EscapeAgrees(s);
  }

  /** Without line breaks the written escape is the corrected one, so a value's text is the same under both. */
  lemma {:induction false} ToLuaAgrees(v: Json)
    requires NoBreaks(v)
    ensures ToLua(v, EscapeAsWritten) == ToLua(v, Escape)
    decreases v
  {
    match v
    case JString(s) =>
      EscapesAgree(s);
    case JArray(xs) =>
      forall i | 0 <= i < |xs| ensures ToLua(xs[i], EscapeAsWritten) == ToLua(xs[i], Escape) {
        ToLuaAgrees(xs[i]);
      }
      assert ItemTexts(xs, EscapeAsWritten) == ItemTexts(xs, Escape);
    case JObject(es) =>
      forall i | 0 <= i < |es|
        ensures EntryText(es[i].0, ToLua(es[i].1, EscapeAsWritten), EscapeAsWritten)
             == EntryText(es[i].0, ToLua(es[i].1, Escape), Escape)
      {
        ToLuaAgrees(es[i].1);
        EscapesAgree(es[i].0);
      }
      assert EntryTexts(es, EscapeAsWritten) == EntryTexts(es, Escape);
    case _ =>
  }

  /** So the value's text as written reads back whenever no string in it holds a line break. */
  lemma ValueRoundTripAsWritten(v: Json, r: string)
    requires Wf(v) && NoBreaks(v) && Stop(r)
    ensures ReadValue(ToLua(v, EscapeAsWritten) + r) == Some((Norm(v), r))
  {
    ToLuaAgrees(v);
    ValueRoundTrip(v, r);
  }

  /** A string value with a line break, as written, is text the reader rejects. */
  lemma BrokenStringValue(s: string, r: string)
    requires HasLineBreak(s)
    ensures ReadValue(ToLua(JString(s), EscapeAsWritten) + r) == None
  {
    var t := ToLua(JString(s), EscapeAsWritten) + r;
    assert t[1..] == EscapeAsWritten(s) + "\"" + r;
    LineBreakUnreadable(s, r);
  }

  /** The concrete case: animation data holding the two-line string "a", newline, "b". */
  lemma TwoLineStringValue()
    ensures ReadValue(ToLua(JString("a\nb"), EscapeAsWritten)) == None
    ensures ReadValue(ToLua(JString("a\nb"), Escape)) == Some((JString("a\nb"), ""))
  {
    assert IsLineBreak("a\nb"[1]);
    BrokenStringValue("a\nb", "");
    assert ToLua(JString("a\nb"), EscapeAsWritten) + "" == ToLua(JString("a\nb"), EscapeAsWritten);
    ScalarRoundTrip(JString("a\nb"), "");
    assert ToLua(JString("a\nb"), Escape) + "" == ToLua(JString("a\nb"), Escape);
  }

  // ---------------------------------------------------------------------
  // The outcome of a run.

  /** Rust's `char::is_whitespace`: the Unicode White_Space characters. */
  predicate IsRustSpace(c: char) {
    ('\t' <= c <= '\r') || c == ' ' || c == '\U{0085}' || c == '\U{00A0}' || c == '\U{1680}'
    || ('\U{2000}' <= c <= '\U{200A}') || c == '\U{2028}' || c == '\U{2029}' || c == '\U{202F}'
    || c == '\U{205F}' || c == '\U{3000}'
  }

  /** `s.trim().is_empty()`. */
  predicate Blank(s: string) {
    forall i :: 0 <= i < |s| ==> IsRustSpace(s[i])
  }

  predicate IsNewline(c: char) {
    c == '\n'
  }

  /** A line without the carriage return of a `\r\n` ending. */
  function StripCr(p: string): string {
    if p != [] && p[|p| - 1] == '\r' then p[..|p| - 1] else p
  }

  function StripAll(ps: seq<string>): (qs: seq<string>)
    ensures |qs| == |ps| && forall i :: 0 <= i < |ps| ==> qs[i] == StripCr(ps[i])
  {
    seq(|ps|, i requires 0 <= i < |ps| => StripCr(ps[i]))
  }

  /**
    Rust's `str::lines`: the pieces between `\n`s, each line ended by `\r\n`
    losing its `\r`, and no empty line after a final line ending.
  */
  function RustLines(s: string): seq<string> {
    var ps := SplitBy(s, IsNewline);
    var last := ps[|ps| - 1];
    StripAll(ps[..|ps| - 1]) + (if last == "" then [] else [last])
  }

  /** `"-- Lua 输出: " + line` for each line. */
  function Commented(ls: seq<string>): (cs: seq<string>)
    ensures |cs| == |ls| && forall i :: 0 <= i < |ls| ==> cs[i] == "-- Lua 输出: " + ls[i]
  {
    seq(|ls|, i requires 0 <= i < |ls| => "-- Lua 输出: " + ls[i])
  }

  /**
    The result handed back: the plugin's output, preceded, when the run
    printed anything but white space, by the printed lines as Lua comments
    and a blank line.
  */
  function WithStdout(stdout: string, result: string): (r: string)
    ensures Blank(stdout) ==> r == result
    ensures |r| >= |result| && r[|r| - |result|..] == result
  {
    if Blank(stdout) then result else Join(Commented(RustLines(stdout)), "\n") + "\n\n" + result
  }

  lemma {:induction false} JoinSnoc(a: seq<string>, b: string, sep: string)
    requires a != []
    ensures Join(a + [b], sep) == Join(a, sep) + sep + b
  {
    if |a| > 1 {
      assert (a + [b])[1..] == a[1..] + [b];
      JoinSnoc(a[1..], b, sep);
    } else {
      assert a + [b] == [a[0], b];
    }
  }

  /** Without carriage returns, the lines joined by newlines are the printed text, up to a final line ending. */
  lemma LinesRebuild(s: string)
    requires NoCr(s)
    ensures Join(RustLines(s), "\n") + (if s != [] && s[|s| - 1] == '\n' then "\n" else "") == s
  {
    var ps := SplitBy(s, IsNewline);
    JoinSplitBy(s, IsNewline, '\n');
    NoCrInPieces(s);
    var init := ps[..|ps| - 1];
    var last := ps[|ps| - 1];
    assert StripAll(init) == init;
    assert ps == init + [last];
    assert forall j :: 0 <= j < |last| ==> !IsNewline(last[j]);
    DropEmptyLast(init, last, s);
  }

  /** Leaving out an empty last piece leaves out the final line ending. */
  lemma DropEmptyLast(init: seq<string>, last: string, s: string)
    requires Join(init + [last], "\n") == s
    requires forall j :: 0 <= j < |last| ==> last[j] != '\n'
    ensures Join(init + (if last == "" then [] else [last]), "\n") + (if s != [] && s[|s| - 1] == '\n' then "\n" else "") == s
  {
    if init == [] {
      assert init + [last] == [last];
      assert init + [] == [];
    } else {
      JoinSnoc(init, last, "\n");
      if last == "" {
        assert init + [] == init;
      }
    }
  }

  predicate NoCr(s: string) {
    forall i :: 0 <= i < |s| ==> s[i] != '\r'
  }

  lemma {:induction false} NoCrInPieces(s: string)
    requires NoCr(s)
    ensures forall k :: 0 <= k < |SplitBy(s, IsNewline)| ==> NoCr(SplitBy(s, IsNewline)[k])
  {
    if s != [] {
      NoCrInPieces(s[1..]);
      var rest := SplitBy(s[1..], IsNewline);
      var ps := SplitBy(s, IsNewline);
      if !IsNewline(s[0]) {
        assert ps == [[s[0]] + rest[0]] + rest[1..];
        assert NoCr(rest[0]);
        assert NoCr(ps[0]);
        assert forall k :: 1 <= k < |ps| ==> ps[k] == rest[k];
      } else {
        assert ps == [""] + rest;
      }
    }
  }

  /** Printed text that is not blank has at least one line, and every line comes out as a comment. */
  lemma StdoutCommented(stdout: string, result: string)
    requires !Blank(stdout)
    ensures RustLines(stdout) != []
    ensures WithStdout(stdout, result) == CodeText.Unlines(Commented(RustLines(stdout))) + "\n" + result
  {
    var ps := SplitBy(stdout, IsNewline);
    JoinSplitBy(stdout, IsNewline, '\n');
    CodeText.UnlinesJoin(Commented(RustLines(stdout)));
  }

  /** The error text of a run that did not succeed: its error output and its printed output, each when there is some. */
  function FailureMessage(stderr: string, stdout: string): string {
    "Lua 插件执行失败:\n"
    + (if stderr == "" then "" else "错误输出:\n" + stderr + "\n")
    + (if stdout == "" then "" else "标准输出:\n" + stdout + "\n")
  }

  /** The failure text shows the error output right after its heading, and ends with the printed output. */
  lemma FailureShowsOutputs(stderr: string, stdout: string)
    ensures var m := FailureMessage(stderr, stdout);
            var h := |"Lua 插件执行失败:\n"| + |"错误输出:\n"|;
            (stderr != "" ==> |m| >= h + |stderr| && m[h..h + |stderr|] == stderr)
            && (stdout != "" ==> |m| > |stdout| && m[|m| - |stdout| - 1..] == stdout + "\n")
            && (stderr == "" && stdout == "" ==> m == "Lua 插件执行失败:\n")
  {
  }

  /**
    The end of `execute_lua_plugin` once the interpreter has run: a failed
    run is an error carrying its outputs; a successful one returns the
    output file's text (an error when it cannot be read) with the printed
    lines in front.
  */
  function RunOutcome(success: bool, stderr: string, stdout: string, outputFile: Result<string>): (r: Result<string>)
    ensures r.Ok? <==> success && outputFile.Ok?
    ensures r.Ok? ==> r.value == WithStdout(stdout, outputFile.value)
    ensures !success ==> r == Err(FailureMessage(stderr, stdout))
    ensures success && outputFile.Err? ==> r == Err("读取输出文件失败: " + outputFile.error)
  {
    if !success then Err(FailureMessage(stderr, stdout))
    else match outputFile
      case Err(e) => Err("读取输出文件失败: " + e)
      case Ok(text) => Ok(WithStdout(stdout, text))
  }
}
