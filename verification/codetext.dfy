/**
  Text helpers shared by the code generators: output assembled line by line,
  indentation, comma-separated entries, and the quote escaping of the
  TypeScript generators.
*/
module CodeText {
  import opened Wrappers
  import opened JsText

  /** Lines written one after another, each followed by a newline. */
  function Unlines(ls: seq<string>): (r: string)
    ensures ls == [] <==> r == []
    ensures ls != [] ==> r[|r| - 1] == '\n'
  {
    if ls == [] then [] else ls[0] + "\n" + Unlines(ls[1..])
  }

  /** Writing two runs of lines is writing their concatenation. */
  lemma {:induction false} UnlinesAppend(a: seq<string>, b: seq<string>)
    ensures Unlines(a + b) == Unlines(a) + Unlines(b)
  {
    if a != [] {
      UnlinesAppend(a[1..], b);
      assert (a + b)[0] == a[0] && (a + b)[1..] == a[1..] + b;
      calc {
        Unlines(a + b);
        a[0] + "\n" + Unlines(a[1..] + b);
        a[0] + "\n" + (Unlines(a[1..]) + Unlines(b));
        (a[0] + "\n" + Unlines(a[1..])) + Unlines(b);
        Unlines(a) + Unlines(b);
      }
    } else {
      assert a + b == b;
    }
  }

  /** The lines of a text are its newline-separated pieces: `Unlines` is `join('\n')` plus a final newline. */
  lemma {:induction false} UnlinesJoin(ls: seq<string>)
    requires ls != []
    ensures Unlines(ls) == Join(ls, "\n") + "\n"
  {
    if |ls| > 1 {
      UnlinesJoin(ls[1..]);
    }
  }

  /** `' '.repeat(n)`. */
  function Pad(n: nat): (r: string)
    ensures |r| == n && forall i :: 0 <= i < n ==> r[i] == ' '
  {
    if n == 0 then "" else " " + Pad(n - 1)
  }

  /** The last line of a non-empty block. */
  function Last(b: seq<string>): string
    requires b != []
  {
    b[|b| - 1]
  }

  /** The blocks one after another. */
  function Flatten(blocks: seq<seq<string>>): (ls: seq<string>) {
    if blocks == [] then [] else blocks[0] + Flatten(blocks[1..])
  }

  /**
    Entries written in order with `,` closing every entry but the last (the
    `index < list.length - 1 ? ',\n' : '\n'` pattern): the lines are those of
    the entries, the last line of each entry but the final one with a comma.
  */
  function Commas(blocks: seq<seq<string>>): (ls: seq<string>)
    requires forall k :: 0 <= k < |blocks| ==> blocks[k] != []
    ensures |ls| == |Flatten(blocks)|
    ensures blocks != [] ==> ls[|ls| - 1] == Last(blocks[|blocks| - 1])
    ensures blocks != [] ==> ls[..|blocks[0]| - 1] == blocks[0][..|blocks[0]| - 1]
    ensures |blocks| > 1 ==> ls[|blocks[0]| - 1] == Last(blocks[0]) + "," && ls[|blocks[0]|..] == Commas(blocks[1..])
  {
    if blocks == [] then []
    else if |blocks| == 1 then
      assert Flatten(blocks) == blocks[0] + Flatten([]);
      blocks[0]
    else
      var b := blocks[0];
      b[..|b| - 1] + [Last(b) + ","] + Commas(blocks[1..])
  }

  /** `s.replace(/'/g, "\\'")`: a backslash before every single quote. */
  function EscapeQuotes(s: string): (r: string)
    ensures |r| >= |s|
  {
    if s == [] then [] else (if s[0] == '\'' then "\\'" else [s[0]]) + EscapeQuotes(s[1..])
  }

  /** The escaped text has no quote without a backslash before it, so it cannot close a `'…'` literal early on a quote. */
  lemma {:induction false} EscapedQuotesGuarded(s: string)
    ensures var r := EscapeQuotes(s);
            forall i :: 0 <= i < |r| && r[i] == '\'' ==> i > 0 && r[i - 1] == '\\'
  {
    if s != [] {
      EscapedQuotesGuarded(s[1..]);
      var head: string := if s[0] == '\'' then "\\'" else [s[0]];
      var r := EscapeQuotes(s);
      assert r == head + EscapeQuotes(s[1..]);
      assert forall i :: |head| <= i < |r| ==> r[i] == EscapeQuotes(s[1..])[i - |head|];
    }
  }

  /** Reading the escaped text back, left to right: `\'` stands for `'`, every other character for itself. */
  function UnescapeQuotes(r: string): string
  {
    if r == [] then []
    else if |r| >= 2 && r[0] == '\\' && r[1] == '\'' then "'" + UnescapeQuotes(r[2..])
    else [r[0]] + UnescapeQuotes(r[1..])
  }

  /** The escaping loses nothing: reading it back gives the original text. */
  lemma {:induction false} EscapeQuotesRoundTrip(s: string)
    ensures UnescapeQuotes(EscapeQuotes(s)) == s
  {
    if s != [] {
      EscapeQuotesRoundTrip(s[1..]);
      var rest := EscapeQuotes(s[1..]);
      if s[0] == '\'' {
        assert EscapeQuotes(s) == "\\'" + rest;
        assert ("\\'" + rest)[2..] == rest;
      } else {
        assert EscapeQuotes(s) == [s[0]] + rest;
        assert ([s[0]] + rest)[1..] == rest;
        if s[0] == '\\' && |rest| >= 1 {
          assert rest[0] == (if s[1] == '\'' then '\\' else s[1]);
        }
      }
    }
  }

  /** A quoted property line: the value between single quotes, its quotes escaped. */
  function QuotedProp(pad: nat, key: string, value: string): string {
    Pad(pad) + "    " + key + ": '" + EscapeQuotes(value) + "',"
  }

  /** Reads a quoted property line back: the text between the quotes, unescaped, when the line has that shape. */
  function ReadProp(line: string, pad: nat, key: string): Option<string> {
    var pre := Pad(pad) + "    " + key + ": '";
    if |line| >= |pre| + 2 && line[..|pre|] == pre && line[|line| - 2..] == "',"
    then Some(UnescapeQuotes(line[|pre|..|line| - 2]))
    else None
  }

  /** A quoted property line reads back as the value it was written from. */
  lemma QuotedPropReadsBack(pad: nat, key: string, value: string)
    ensures ReadProp(QuotedProp(pad, key, value), pad, key) == Some(value)
  {
    var pre := Pad(pad) + "    " + key + ": '";
    var e := EscapeQuotes(value);
    var line := QuotedProp(pad, key, value);
    assert line == pre + e + "',";
    assert line[..|pre|] == pre;
    assert line[|line| - 2..] == "',";
    assert line[|pre|..|line| - 2] == e;
    EscapeQuotesRoundTrip(value);
  }

  /** The bracket that closes `c`. */
  function Matching(c: char): char {
    if c == '[' then ']' else if c == '{' then '}' else c
  }

  /** `close` ends, at column `col`, the bracket that `open` leaves open at its end. */
  predicate Pairs(open: string, close: string, col: nat) {
    |open| > 0 && |close| > col && close[col] == Matching(open[|open| - 1])
    && forall i :: 0 <= i < col ==> close[i] == ' '
  }
}
