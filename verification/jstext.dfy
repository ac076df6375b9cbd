/**
  The JavaScript and Rust string operations the editor relies on, written out
  over `seq<char>`: `split`, `join`, `replace(/x/g, y)`, `trim`, `includes`,
  `lastIndexOf`, `repeat` and decimal number formatting.
*/
module JsText {
  import opened Wrappers

  /** `String.prototype.trim` strips WhiteSpace and LineTerminator code points (ECMA-262 sections 12.2 and 12.3). */
  predicate IsJsSpace(c: char) {
    c == '\t' || c == '\n' || c == '\U{000B}' || c == '\U{000C}' || c == '\r' || c == ' '
    || c == '\U{00A0}' || c == '\U{1680}' || ('\U{2000}' <= c <= '\U{200A}')
    || c == '\U{2028}' || c == '\U{2029}' || c == '\U{202F}' || c == '\U{205F}'
    || c == '\U{3000}' || c == '\U{FEFF}'
  }

  /** The path separators matched by the regular expression `/[/\\]/`. */
  predicate IsPathSep(c: char) {
    c == '/' || c == '\\'
  }

  function TrimStart(s: string): (r: string)
    ensures |r| <= |s| && r == s[|s| - |r|..]
    ensures r == [] || !IsJsSpace(r[0])
    ensures forall i :: 0 <= i < |s| - |r| ==> IsJsSpace(s[i])
  {
    if s != [] && IsJsSpace(s[0]) then TrimStart(s[1..]) else s
  }

  function TrimEnd(s: string): (r: string)
    ensures |r| <= |s| && r == s[..|r|]
    ensures r == [] || !IsJsSpace(r[|r| - 1])
    ensures forall i :: |r| <= i < |s| ==> IsJsSpace(s[i])
  {
    if s != [] && IsJsSpace(s[|s| - 1]) then TrimEnd(s[..|s| - 1]) else s
  }

  /** `s.trim()`: the longest slice of `s` that neither starts nor ends with white space. */
  function Trim(s: string): (r: string)
    ensures r == [] || (!IsJsSpace(r[0]) && !IsJsSpace(r[|r| - 1]))
    ensures r == [] <==> forall i :: 0 <= i < |s| ==> IsJsSpace(s[i])
    ensures exists i, j :: 0 <= i <= j <= |s| && r == s[i..j]
                           && (forall k :: 0 <= k < i ==> IsJsSpace(s[k]))
                           && (forall k :: j <= k < |s| ==> IsJsSpace(s[k]))
  {
    var t := TrimStart(s);
    assert t == [] ==> forall i :: 0 <= i < |s| ==> IsJsSpace(s[i]);
    var r := TrimEnd(t);
    var i := |s| - |t|;
    var j := i + |r|;
    assert r == s[i..j];
    forall k | j <= k < |s|
      ensures IsJsSpace(s[k])
    {
      assert s[k] == t[k - i];
    }
    r
  }

  /** A string with no white space at either end is its own trim. */
  lemma TrimKeeps(s: string)
    requires s == [] || (!IsJsSpace(s[0]) && !IsJsSpace(s[|s| - 1]))
    ensures Trim(s) == s
  {
    assert TrimStart(s) == s;
    assert TrimEnd(s) == s;
  }

  /** Trimming twice is trimming once. */
  lemma TrimIdempotent(s: string)
    ensures Trim(Trim(s)) == Trim(s)
  {
    TrimKeeps(Trim(s));
  }

  /** `s.replace(/from/g, to)` for a single-character pattern and replacement. */
  function ReplaceChar(s: string, from: char, to: char): (r: string)
    ensures |r| == |s|
    ensures forall i :: 0 <= i < |s| ==> r[i] == (if s[i] == from then to else s[i])
  {
    if s == [] then [] else [if s[0] == from then to else s[0]] + ReplaceChar(s[1..], from, to)
  }

  /** `s.includes(c)` for a single character. */
  predicate HasChar(s: string, c: char) {
    c in s
  }

  /** `s.includes(sub)`. */
  predicate Includes(s: string, sub: string) {
    exists i :: 0 <= i <= |s| - |sub| && OccursAt(s, sub, i)
  }

  predicate OccursAt(s: string, sub: string, i: int) {
    0 <= i <= |s| - |sub| && s[i..i + |sub|] == sub
  }

  predicate StartsWith(s: string, prefix: string) {
    |prefix| <= |s| && s[..|prefix|] == prefix
  }

  predicate EndsWith(s: string, suffix: string) {
    |suffix| <= |s| && s[|s| - |suffix|..] == suffix
  }

  /** `s.lastIndexOf(c)`: the last index holding `c`, or -1. */
  function LastIndexOf(s: string, c: char): (r: int)
    ensures -1 <= r < |s|
    ensures r >= 0 ==> s[r] == c
    ensures forall i :: r < i < |s| ==> s[i] != c
  {
    if s == [] then -1
    else if s[|s| - 1] == c then |s| - 1
    else LastIndexOf(s[..|s| - 1], c)
  }

  /**
    `s.split(sep)` where `sep` matches single characters: the pieces between
    separators, in order; there is always at least one piece.
  */
  function SplitBy(s: string, sep: char -> bool): (parts: seq<string>)
    ensures |parts| >= 1
    ensures forall i, j :: 0 <= i < |parts| && 0 <= j < |parts[i]| ==> !sep(parts[i][j])
  {
    if s == [] then [""]
    else
      var rest := SplitBy(s[1..], sep);
      if sep(s[0]) then [""] + rest else [[s[0]] + rest[0]] + rest[1..]
  }

  /** `parts.join(sep)`. */
  function Join(parts: seq<string>, sep: string): string {
    if parts == [] then ""
    else if |parts| == 1 then parts[0]
    else parts[0] + sep + Join(parts[1..], sep)
  }

  /** Splitting on a character and joining with that character gives the string back. */
  lemma JoinSplit(s: string, c: char)
    ensures Join(SplitBy(s, x => x == c), [c]) == s
  {
    JoinSplitBy(s, x => x == c, c);
  }

  /** The same for any test that holds of exactly that character. */
  lemma {:induction false} JoinSplitBy(s: string, sep: char -> bool, c: char)
    requires forall x :: sep(x) <==> x == c
    ensures Join(SplitBy(s, sep), [c]) == s
  {
    if s != [] {
      JoinSplitBy(s[1..], sep, c);
      var rest := SplitBy(s[1..], sep);
      if s[0] == c {
        assert SplitBy(s, sep) == [""] + rest;
      } else {
        var parts := SplitBy(s, sep);
        assert parts == [[s[0]] + rest[0]] + rest[1..];
        if |rest| == 1 {
          assert Join(parts, [c]) == [s[0]] + rest[0];
        } else {
          assert parts[1..] == rest[1..];
          assert Join(rest, [c]) == rest[0] + [c] + Join(rest[1..], [c]);
        }
      }
    }
  }

  /** `s.split(/[/\\]/).pop()`: the text after the last path separator. */
  function LastSegment(s: string): (r: string)
    ensures EndsWith(s, r)
    ensures forall i :: 0 <= i < |r| ==> !IsPathSep(r[i])
    ensures |r| < |s| ==> IsPathSep(s[|s| - |r| - 1])
  {
    var parts := SplitBy(s, IsPathSep);
    LastPieceIsSuffix(s);
    assert LastPieceFacts(s, parts);
    parts[|parts| - 1]
  }

  lemma {:induction false} LastPieceIsSuffix(s: string)
    ensures LastPieceFacts(s, SplitBy(s, IsPathSep))
  {
    if s != [] {
      LastPieceIsSuffix(s[1..]);
      var rest := SplitBy(s[1..], IsPathSep);
      if IsPathSep(s[0]) {
        LastPieceAfterSep(s, rest, SplitBy(s, IsPathSep));
      } else {
        LastPieceAfterChar(s, rest, SplitBy(s, IsPathSep));
      }
    }
  }

  /** Where the last of the pieces `parts` of `s` sits: at its end, after a separator unless it is all of `s`. */
  predicate LastPieceFacts(s: string, parts: seq<string>)
    requires |parts| >= 1
  {
    var last := parts[|parts| - 1];
    && EndsWith(s, last) && (|last| < |s| ==> IsPathSep(s[|s| - |last| - 1]))
    && (|parts| > 1 ==> |last| < |s|) && (|parts| == 1 ==> last == s)
  }

  lemma LastPieceAfterSep(s: string, rest: seq<string>, parts: seq<string>)
    requires s != [] && IsPathSep(s[0]) && |rest| >= 1 && LastPieceFacts(s[1..], rest)
    requires parts == [""] + rest
    ensures LastPieceFacts(s, parts)
  {
    var last := rest[|rest| - 1];
    assert parts[|parts| - 1] == last;
    assert s[1..][|s| - 1 - |last|..] == s[|s| - |last|..];
  }

  lemma LastPieceAfterChar(s: string, rest: seq<string>, parts: seq<string>)
    requires s != [] && |rest| >= 1 && LastPieceFacts(s[1..], rest)
    requires parts == [[s[0]] + rest[0]] + rest[1..]
    ensures LastPieceFacts(s, parts)
  {
    if |rest| == 1 {
      assert [s[0]] + rest[0] == s;
    } else {
      var last := rest[|rest| - 1];
      assert parts[|parts| - 1] == last;
      assert s[1..][|s| - 1 - |last|..] == s[|s| - |last|..];
    }
  }

  /** `s.repeat(n)`. */
  function Repeat(s: string, n: nat): (r: string)
    ensures |r| == n * |s|
  {
    if n == 0 then "" else s + Repeat(s, n - 1)
  }

  function DigitChar(d: int): char
    requires 0 <= d < 10
  {
    "0123456789"[d]
  }

  function NatToString(n: nat): (r: string)
    ensures |r| >= 1
    ensures forall i :: 0 <= i < |r| ==> '0' <= r[i] <= '9'
  {
    if n < 10 then [DigitChar(n)] else NatToString(n / 10) + [DigitChar(n % 10)]
  }

  /** Decimal text of an integer, as JavaScript `String(n)` and Rust `to_string` print it. */
  function IntToString(i: int): (r: string)
    ensures |r| >= 1
    ensures i >= 0 ==> forall k :: 0 <= k < |r| ==> '0' <= r[k] <= '9'
    ensures i < 0 ==> r[0] == '-'
  {
    if i < 0 then "-" + NatToString(-i) else NatToString(i)
  }

  /** The numeric value of a string of decimal digits. */
  function DigitsValue(s: string): int
    requires forall i :: 0 <= i < |s| ==> '0' <= s[i] <= '9'
  {
    if s == [] then 0 else 10 * DigitsValue(s[..|s| - 1]) + (s[|s| - 1] as int - '0' as int)
  }

  /** Reading the printed digits back gives the number. */
  lemma {:induction false} NatToStringValue(n: nat)
    ensures DigitsValue(NatToString(n)) == n
  {
    if n >= 10 {
      NatToStringValue(n / 10);
      var s := NatToString(n);
      assert s[..|s| - 1] == NatToString(n / 10);
    }
  }

  /** ASCII `toLowerCase`. */
  function LowerAscii(s: string): (r: string)
    ensures |r| == |s|
    ensures forall i :: 0 <= i < |s| ==> r[i] == (if 'A' <= s[i] <= 'Z' then (s[i] as int + 32) as char else s[i])
  {
    if s == [] then [] else [if 'A' <= s[0] <= 'Z' then (s[0] as int + 32) as char else s[0]] + LowerAscii(s[1..])
  }

  predicate AllDigits(s: string) {
    forall i :: 0 <= i < |s| ==> '0' <= s[i] <= '9'
  }

  /** Reads a decimal integer with an optional leading minus; `None` for any other text. */
  function ReadInt(s: string): Option<int> {
    if |s| > 1 && s[0] == '-' && AllDigits(s[1..]) then Some(-DigitsValue(s[1..]))
    else if s != [] && AllDigits(s) then Some(DigitsValue(s))
    else None
  }

  /** The decimal text of an integer reads back as that integer. */
  lemma IntToStringReads(i: int)
    ensures ReadInt(IntToString(i)) == Some(i)
  {
    if i < 0 {
      NegativeReads(i, NatToString(-i));
    } else {
      NonNegativeReads(i, NatToString(i));
    }
  }

  lemma NegativeReads(i: int, d: string)
    requires i < 0 && d == NatToString(-i)
    ensures ReadInt(IntToString(i)) == Some(i)
  {
    NatToStringValue(-i);
    MinusDigitsRead(d);
    assert IntToString(i) == "-" + d;
  }

  lemma NonNegativeReads(i: int, d: string)
    requires i >= 0 && d == NatToString(i)
    ensures ReadInt(IntToString(i)) == Some(i)
  {
    NatToStringValue(i);
    DigitsRead(d);
    assert IntToString(i) == d;
  }

  /** A run of digits reads as its value. */
  lemma DigitsRead(s: string)
    requires s != [] && AllDigits(s)
    ensures ReadInt(s) == Some(DigitsValue(s))
  {
    assert s[0] != '-';
  }

  /** A minus sign before a run of digits reads as the negated value. */
  lemma MinusDigitsRead(s: string)
    requires s != [] && AllDigits(s)
    ensures ReadInt("-" + s) == Some(-DigitsValue(s))
  {
    assert ("-" + s)[1..] == s;
  }
}
