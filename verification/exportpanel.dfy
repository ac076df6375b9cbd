/**
  The pure parts of `useExport`: the class name taken from the project path,
  the checks that run before an export, which resources an export copies and
  where to, the default path of the Lua file, the choice between the built-in
  generator and a custom plugin, the plugin-file wrapper around the generated
  panel, and deleting a plugin from the list.
*/
module ExportPanel {
  import opened Wrappers
  import opened Types
  import opened JsText
  import WidgetStore

  /** An entry of the export plugin list: id, display name, `builtin` or `custom`, and the file of a custom plugin. */
  datatype PluginEntry = PluginEntry(id: string, name: string, kind: string, path: Option<string>)

  /** The class name used when the project has no usable name. */
  const DefaultClass := "GeneratedUI"

  /** The two project-file extensions, compared without regard to ASCII case. */
  predicate ProjectExt(ext: string) {
    LowerAscii(ext) == ".uiproj" || LowerAscii(ext) == ".json"
  }

  /** `name.replace(/\.(uiproj|json)$/i, '')`: drop one trailing project extension. */
  function StripProjectExt(name: string): (r: string)
    ensures |r| <= |name| && name[..|r|] == r
    ensures |r| < |name| ==> ProjectExt(name[|r|..])
    ensures r == name <==> !(|name| >= 7 && ProjectExt(name[|name| - 7..])) && !(|name| >= 5 && ProjectExt(name[|name| - 5..]))
  {
    if |name| >= 7 && LowerAscii(name[|name| - 7..]) == ".uiproj" then name[..|name| - 7]
    else if |name| >= 5 && LowerAscii(name[|name| - 5..]) == ".json" then name[..|name| - 5]
    else
      assert |name| >= 7 ==> |LowerAscii(name[|name| - 7..])| != |".json"|;
      assert |name| >= 5 ==> |LowerAscii(name[|name| - 5..])| != |".uiproj"|;
      name
  }

  /**
    `getProjectBaseName`: the project file's name without its directory and
    without a trailing `.uiproj` or `.json`; `GeneratedUI` when there is no
    path or nothing is left.
  */
  function BaseName(path: Option<string>): (r: string)
    ensures r != []
    ensures forall i :: 0 <= i < |r| ==> !IsPathSep(r[i])
    ensures path.None? || path.value == "" ==> r == DefaultClass
    ensures path.Some? && path.value != "" && StripProjectExt(LastSegment(path.value)) != "" ==> r == StripProjectExt(LastSegment(path.value))
  {
    if path.None? || path.value == "" then DefaultClass
    else
      var base := StripProjectExt(LastSegment(path.value));
      if base == "" then DefaultClass else base
  }

  /** `LastSegment` is the longest suffix free of separators, so it is any such suffix that follows a separator. */
  lemma LastSegmentAfterSep(dir: string, s: char, name: string)
    requires IsPathSep(s) && forall i :: 0 <= i < |name| ==> !IsPathSep(name[i])
    ensures LastSegment(dir + [s] + name) == name
  {
    var p := dir + [s] + name;
    var r := LastSegment(p);
    assert p[|dir|] == s;
    assert forall k :: |dir| < k < |p| ==> !IsPathSep(p[k]) by {
      assert forall k :: |dir| < k < |p| ==> p[k] == name[k - |dir| - 1];
    }
    assert forall k :: |p| - |r| <= k < |p| ==> !IsPathSep(p[k]) by {
      assert forall k :: |p| - |r| <= k < |p| ==> p[k] == r[k - (|p| - |r|)];
    }
    assert p[|p| - |name|..] == name;
  }

  /** Appending a project extension to a name is undone by stripping it. */
  lemma StripAddedExt(name: string, ext: string)
    requires ProjectExt(ext)
    ensures StripProjectExt(name + ext) == name
  {
    var file := name + ext;
    var low := LowerAscii(ext);
    if |ext| == 7 {
      assert file[|file| - 7..] == ext;
      assert low == ".uiproj";
    } else {
      assert |low| == 5;
      assert file[|file| - 5..] == ext;
      assert |file| >= 7 ==> LowerAscii(file[|file| - 7..])[6] == low[4];
      assert low[4] == 'n';
      assert file[..|name|] == name;
    }
  }

  /** Saving `dir/name.uiproj` (any case of the extension, either separator) names the exported class `name`. */
  lemma BaseNameOfProjectFile(dir: string, s: char, name: string, ext: string)
    requires IsPathSep(s) && ProjectExt(ext) && name != []
    requires forall i :: 0 <= i < |name| ==> !IsPathSep(name[i])
    requires forall i :: 0 <= i < |ext| ==> !IsPathSep(ext[i])
    ensures BaseName(Some(dir + [s] + name + ext)) == name
  {
    var file := name + ext;
    assert dir + [s] + name + ext == dir + [s] + file;
    assert forall i :: 0 <= i < |file| ==> file[i] == if i < |name| then name[i] else ext[i - |name|];
    LastSegmentAfterSep(dir, s, file);
    StripAddedExt(name, ext);
  }

  /** The separator the source appends to a directory: a backslash if the directory holds one, else a slash. */
  function SepFor(dir: string): (c: char)
    ensures IsPathSep(c)
    ensures c == '\\' <==> '\\' in dir
  {
    if '\\' in dir then '\\' else '/'
  }

  /**
    The Lua file an export writes when no Lua path is set: next to the
    project file, in the text before its last separator (the whole path when
    it has none), named after the project.
  */
  function DefaultLuaPath(projectPath: string): (r: string)
    ensures var cut := Max(LastIndexOf(projectPath, '/') as real, LastIndexOf(projectPath, '\\') as real).Floor;
            var dir := if cut >= 0 then projectPath[..cut] else projectPath;
            r == dir + [SepFor(dir)] + BaseName(Some(projectPath)) + ".lua"
  {
    var cut := Max(LastIndexOf(projectPath, '/') as real, LastIndexOf(projectPath, '\\') as real).Floor;
    var dir := if cut >= 0 then projectPath[..cut] else projectPath;
    dir + [SepFor(dir)] + BaseName(Some(projectPath)) + ".lua"
  }

  /**
    The Lua file lands in the project's own directory: for `dir/file` with a
    separator-free file name, the path is `dir`, the separator `dir` uses,
    the base name and `.lua`.
  */
  lemma LuaBesideProject(dir: string, s: char, file: string)
    requires IsPathSep(s) && forall i :: 0 <= i < |file| ==> !IsPathSep(file[i])
    ensures DefaultLuaPath(dir + [s] + file) == dir + [SepFor(dir)] + BaseName(Some(dir + [s] + file)) + ".lua"
  {
    var p := dir + [s] + file;
    var a := LastIndexOf(p, '/');
    var b := LastIndexOf(p, '\\');
    assert p[|dir|] == s;
    assert forall i :: |dir| < i < |p| ==> p[i] == file[i - |dir| - 1];
    if s == '/' {
      assert a == |dir| && b < a;
    } else {
      assert b == |dir| && a < b;
    }
    assert p[..|dir|] == dir;
  }

  /**
    Where the Lua export writes: the configured path when set, else the
    default next to the project file, else nowhere yet (the source then asks
    with a save dialog).
  */
  function LuaTarget(luaPath: string, projectPath: Option<string>): (r: Option<string>)
    ensures luaPath != "" ==> r == Some(luaPath)
    ensures luaPath == "" && projectPath.Some? && projectPath.value != "" ==> r == Some(DefaultLuaPath(projectPath.value))
    ensures r.None? <==> luaPath == "" && (projectPath.None? || projectPath.value == "")
  {
    if luaPath != "" then Some(luaPath)
    else if projectPath.Some? && projectPath.value != "" then Some(DefaultLuaPath(projectPath.value))
    else None
  }

  // ---------------------------------------------------------------------
  // The duplicate-name check before an export.

  /** The distinct elements of `s`, in order of first appearance. */
  function Dedup<T(==,!new)>(s: seq<T>): (r: seq<T>)
    ensures forall x :: x in r <==> x in s
    ensures forall i, j :: 0 <= i < j < |r| ==> r[i] != r[j]
  {
    if s == [] then []
    else
      var r := Dedup(s[..|s| - 1]);
      assert forall x :: x in s <==> x in s[..|s| - 1] || x == s[|s| - 1];
      if s[|s| - 1] in r then r else r + [s[|s| - 1]]
  }

  /** A widget as the check sees it: its parent and its trimmed name. */
  datatype NameKey = NameKey(parent: Option<int>, name: string)

  function KeyOf(w: Widget): NameKey {
    NameKey(w.parentId, Trim(w.name))
  }

  function Keys(ws: seq<Widget>): (ks: seq<NameKey>)
    ensures |ks| == |ws| && forall i :: 0 <= i < |ws| ==> ks[i] == KeyOf(ws[i])
  {
    seq(|ws|, i requires 0 <= i < |ws| => KeyOf(ws[i]))
  }

  /** Key `k` counts towards name `n` in the group of parent `p`: same parent and the same non-empty name. */
  predicate Named(k: NameKey, p: Option<int>, n: string) {
    k.parent == p && n != "" && k.name == n
  }

  /** The parents in order of first appearance: the group order of the source's `Map`. */
  function Parents(ks: seq<NameKey>): (r: seq<Option<int>>)
    ensures |r| == |ks| && forall i :: 0 <= i < |ks| ==> r[i] == ks[i].parent
  {
    seq(|ks|, i requires 0 <= i < |ks| => ks[i].parent)
  }

  /** The non-empty names in the group of `p`, in list order. */
  function NamesUnder(ks: seq<NameKey>, p: Option<int>): (r: seq<string>)
    ensures forall i :: 0 <= i < |ks| && ks[i].parent == p && ks[i].name != "" ==> ks[i].name in r
  {
    if ks == [] then []
    else
      var prev := NamesUnder(ks[..|ks| - 1], p);
      var k := ks[|ks| - 1];
      assert forall i :: 0 <= i < |ks| - 1 ==> ks[..|ks| - 1][i] == ks[i];
      if k.parent == p && k.name != "" then prev + [k.name] else prev
  }

  /** How many widgets of the group of `p` carry name `n`. */
  function CountNamed(ks: seq<NameKey>, p: Option<int>, n: string): nat {
    if ks == [] then 0
    else CountNamed(ks[..|ks| - 1], p, n) + (if Named(ks[|ks| - 1], p, n) then 1 else 0)
  }

  /** Two different widgets under the same parent carry the same trimmed, non-empty name. */
  predicate Clash(ws: seq<Widget>, i: int, j: int)
    requires 0 <= i < |ws| && 0 <= j < |ws|
  {
    i != j && KeyOf(ws[i]).name != "" && KeyOf(ws[i]) == KeyOf(ws[j])
  }

  predicate HasClash(ws: seq<Widget>) {
    exists i, j :: 0 <= i < j < |ws| && Clash(ws, i, j)
  }

  /**
    The names every plain JavaScript object inherits from `Object.prototype`
    (section 20.1.3 of ECMA-262, with the accessors of its Annex B.2.2).
  */
  const Inherited: set<string> :=
    {"constructor", "hasOwnProperty", "isPrototypeOf", "propertyIsEnumerable",
     "toLocaleString", "toString", "valueOf", "__defineGetter__", "__defineSetter__",
     "__lookupGetter__", "__lookupSetter__", "__proto__"}

  /** Where the counts live: a plain `{}` as in `doExport`, or an object without a prototype (`Object.create(null)`). */
  datatype Counter = PlainObject | NullPrototype

  /**
    A name whose count never reads as a number above one. In a plain object
    `(nameCount[n] || 0) + 1` starts from the inherited member, which is
    truthy, and yields a string (so `> 1` compares `NaN`); for `__proto__`
    the assignment is dropped altogether.
  */
  predicate Shadowed(c: Counter, n: string) {
    c.PlainObject? && n in Inherited
  }

  /** A clash the counter can see: its name is not shadowed. */
  predicate CountedClash(c: Counter, ws: seq<Widget>, i: int, j: int)
    requires 0 <= i < |ws| && 0 <= j < |ws|
  {
    Clash(ws, i, j) && !Shadowed(c, KeyOf(ws[i]).name)
  }

  predicate HasCountedClash(c: Counter, ws: seq<Widget>) {
    exists i, j :: 0 <= i < j < |ws| && CountedClash(c, ws, i, j)
  }

  // The key order of `Object.keys` (the OrdinaryOwnPropertyKeys algorithm,
  // section 10.1.11.1 of ECMA-262): array indexes ascending, then the other
  // string keys in the order they were created.

  /** The value of a string of decimal digits. */
  function DigitsValue(s: string): nat {
    if s == [] then 0
    else
      var d := s[|s| - 1];
      DigitsValue(s[..|s| - 1]) * 10 + (if '0' <= d <= '9' then d as int - '0' as int else 0)
  }

  /** An array index: the canonical decimal form of a number below 2^32 - 1. */
  predicate IsIndexKey(s: string) {
    && |s| > 0
    && (forall k :: 0 <= k < |s| ==> '0' <= s[k] <= '9')
    && (s[0] != '0' || |s| == 1)
    && DigitsValue(s) < 0xFFFF_FFFF
  }

  /** Each key's value is at least that of the key before it. */
  predicate Ascending(s: seq<string>) {
    forall a :: 0 < a < |s| ==> DigitsValue(s[a - 1]) <= DigitsValue(s[a])
  }

  predicate AllIndexKeys(s: seq<string>) {
    forall k :: 0 <= k < |s| ==> IsIndexKey(s[k])
  }

  /** The array indexes of `s`, in order. */
  function IndexKeys(s: seq<string>): (r: seq<string>)
    ensures AllIndexKeys(r)
  {
    if s == [] then []
    else if IsIndexKey(s[|s| - 1]) then IndexKeys(s[..|s| - 1]) + [s[|s| - 1]]
    else IndexKeys(s[..|s| - 1])
  }

  /** The other keys of `s`, in order. */
  function OtherKeys(s: seq<string>): (r: seq<string>)
    ensures forall k :: 0 <= k < |r| ==> !IsIndexKey(r[k])
  {
    if s == [] then []
    else if IsIndexKey(s[|s| - 1]) then OtherKeys(s[..|s| - 1])
    else OtherKeys(s[..|s| - 1]) + [s[|s| - 1]]
  }

  /** Every key goes to exactly one of the two parts. */
  lemma {:induction false} SplitKeys(s: seq<string>)
    ensures multiset(IndexKeys(s)) + multiset(OtherKeys(s)) == multiset(s)
  {
    if s != [] {
      SplitKeys(s[..|s| - 1]);
      assert s == s[..|s| - 1] + [s[|s| - 1]];
    }
  }

  lemma {:induction false} OtherKeysAppend(a: seq<string>, b: seq<string>)
    ensures OtherKeys(a + b) == OtherKeys(a) + OtherKeys(b)
    decreases |b|
  {
    if b != [] {
      var b' := b[..|b| - 1];
      assert a + b == (a + b') + [b[|b| - 1]];
      assert (a + b)[..|a + b| - 1] == a + b';
      OtherKeysAppend(a, b');
    } else {
      assert a + b == a;
    }
  }

  lemma {:induction false} OtherKeysOfIndexes(s: seq<string>)
    requires AllIndexKeys(s)
    ensures OtherKeys(s) == []
  {
    if s != [] {
      OtherKeysOfIndexes(s[..|s| - 1]);
    }
  }

  /** Place a key into a list ascending by value. */
  function InsertKey(x: string, s: seq<string>): (r: seq<string>)
    requires Ascending(s)
    ensures multiset(r) == multiset(s) + multiset{x}
    ensures Ascending(r)
    ensures r != [] && (r[0] == x || (s != [] && r[0] == s[0]))
  {
    if s == [] || DigitsValue(x) <= DigitsValue(s[0]) then [x] + s
    else
      var t := InsertKey(x, s[1..]);
      assert s == [s[0]] + s[1..];
      [s[0]] + t
  }

  /** The keys sorted by value. */
  function SortKeys(s: seq<string>): (r: seq<string>)
    ensures multiset(r) == multiset(s) && Ascending(r)
  {
    if s == [] then []
    else
      assert s == [s[0]] + s[1..];
      InsertKey(s[0], SortKeys(s[1..]))
  }

  /** Sorting array indexes leaves only array indexes. */
  lemma SortedIndexes(s: seq<string>)
    requires AllIndexKeys(s)
    ensures AllIndexKeys(SortKeys(s))
  {
    var r := SortKeys(s);
    forall k | 0 <= k < |r|
      ensures IsIndexKey(r[k])
    {
      assert r[k] in multiset(r);
      assert r[k] in s;
    }
  }

  /** Array indexes sorted by value, followed by keys that are not array indexes, list the indexes first and in ascending order. */
  lemma IndexesFirst(ix: seq<string>, ot: seq<string>)
    requires AllIndexKeys(ix) && Ascending(ix)
    requires forall k :: 0 <= k < |ot| ==> !IsIndexKey(ot[k])
    ensures var r := ix + ot;
            forall a :: 0 < a < |r| && IsIndexKey(r[a]) ==> IsIndexKey(r[a - 1]) && DigitsValue(r[a - 1]) <= DigitsValue(r[a])
  {
    var r := ix + ot;
    forall a | 0 < a < |r| && IsIndexKey(r[a])
      ensures IsIndexKey(r[a - 1]) && DigitsValue(r[a - 1]) <= DigitsValue(r[a])
    {
      if a < |ix| {
        assert r[a - 1] == ix[a - 1] && r[a] == ix[a];
      }
    }
  }

  /**
    The keys of an object whose properties were created in the order `ns`:
    the array indexes first by value, then the other names as created.
  */
  function KeyOrder(ns: seq<string>): (r: seq<string>)
    ensures multiset(r) == multiset(ns)
    ensures forall n :: n in r <==> n in ns
    ensures forall a :: 0 < a < |r| && IsIndexKey(r[a]) ==> IsIndexKey(r[a - 1]) && DigitsValue(r[a - 1]) <= DigitsValue(r[a])
    ensures OtherKeys(r) == OtherKeys(ns)
  {
    var ix := SortKeys(IndexKeys(ns));
    var ot := OtherKeys(ns);
    SortedIndexes(IndexKeys(ns));
    SplitKeys(ns);
    OtherKeysAppend(ix, ot);
    OtherKeysOfIndexes(ix);
    OtherKeysAgain(ot);
    IndexesFirst(ix, ot);
    var r := ix + ot;
    assert multiset(r) == multiset(ns);
    assert forall n :: n in r <==> n in multiset(r);
    r
  }

  lemma {:induction false} OtherKeysAgain(s: seq<string>)
    requires forall k :: 0 <= k < |s| ==> !IsIndexKey(s[k])
    ensures OtherKeys(s) == s
  {
    if s != [] {
      OtherKeysAgain(s[..|s| - 1]);
      assert s == s[..|s| - 1] + [s[|s| - 1]];
    }
  }

  /** When no name is an array index, the keys come out in the order they were created. */
  lemma KeyOrderWithoutIndexes(ns: seq<string>)
    requires forall k :: 0 <= k < |ns| ==> !IsIndexKey(ns[k])
    ensures KeyOrder(ns) == ns
  {
    var r := KeyOrder(ns);
    forall k | 0 <= k < |r|
      ensures !IsIndexKey(r[k])
    {
      assert r[k] in ns;
      var j :| 0 <= j < |ns| && ns[j] == r[k];
    }
    OtherKeysAgain(ns);
    OtherKeysAgain(r);
  }


  /** Every key carrying the name adds one to its count. */
  lemma {:induction false} CountAtLeastOne(ks: seq<NameKey>, p: Option<int>, n: string, i: int)
    requires 0 <= i < |ks| && Named(ks[i], p, n)
    ensures CountNamed(ks, p, n) >= 1
  {
    var init := ks[..|ks| - 1];
    if i < |init| {
      assert init[i] == ks[i];
      CountAtLeastOne(init, p, n, i);
    }
  }

  /** Two keys carrying the name make a count of at least two. */
  lemma {:induction false} CountAtLeastTwo(ks: seq<NameKey>, p: Option<int>, n: string, i: int, j: int)
    requires 0 <= i < j < |ks| && Named(ks[i], p, n) && Named(ks[j], p, n)
    ensures CountNamed(ks, p, n) >= 2
  {
    var init := ks[..|ks| - 1];
    assert init[i] == ks[i];
    if j < |init| {
      assert init[j] == ks[j];
      CountAtLeastTwo(init, p, n, i, j);
    } else {
      CountAtLeastOne(init, p, n, i);
    }
  }

  /** A positive count points at a key carrying the name. */
  lemma {:induction false} OneNamed(ks: seq<NameKey>, p: Option<int>, n: string) returns (i: int)
    requires CountNamed(ks, p, n) >= 1
    ensures 0 <= i < |ks| && Named(ks[i], p, n)
  {
    var init := ks[..|ks| - 1];
    if CountNamed(init, p, n) >= 1 {
      i := OneNamed(init, p, n);
      assert init[i] == ks[i];
    } else {
      i := |ks| - 1;
    }
  }

  /** A count of two or more points at two keys carrying the name. */
  lemma {:induction false} TwoNamed(ks: seq<NameKey>, p: Option<int>, n: string) returns (i: int, j: int)
    requires CountNamed(ks, p, n) >= 2
    ensures 0 <= i < j < |ks| && Named(ks[i], p, n) && Named(ks[j], p, n)
  {
    var init := ks[..|ks| - 1];
    if CountNamed(init, p, n) >= 2 {
      i, j := TwoNamed(init, p, n);
      assert init[i] == ks[i] && init[j] == ks[j];
    } else {
      i := OneNamed(init, p, n);
      assert init[i] == ks[i];
      j := |ks| - 1;
    }
  }

  /** One duplicated name: the group (`None` for the root group), the name and how often it occurs. */
  datatype DupPair = DupPair(parent: Option<int>, name: string, count: nat)

  /** The names of `ns` that the counter `c` holds more than once under `p`. */
  function NamePairs(c: Counter, ks: seq<NameKey>, p: Option<int>, ns: seq<string>): (r: seq<DupPair>)
    ensures forall d :: d in r ==> d.parent == p && d.name in ns && !Shadowed(c, d.name) && d.count == CountNamed(ks, p, d.name) && d.count > 1
    ensures forall n :: n in ns && !Shadowed(c, n) && CountNamed(ks, p, n) > 1 ==> DupPair(p, n, CountNamed(ks, p, n)) in r
  {
    if ns == [] then []
    else
      var k := CountNamed(ks, p, ns[0]);
      (if k > 1 && !Shadowed(c, ns[0]) then [DupPair(p, ns[0], k)] else []) + NamePairs(c, ks, p, ns[1..])
  }

  /** The duplicated names of every group in `ps`, group after group, each group's names in key order. */
  function PairsFor(c: Counter, ks: seq<NameKey>, ps: seq<Option<int>>): (r: seq<DupPair>)
    ensures forall d :: d in r ==> d.parent in ps && !Shadowed(c, d.name) && d.count == CountNamed(ks, d.parent, d.name) && d.count > 1
    ensures forall p, n :: p in ps && n in NamesUnder(ks, p) && !Shadowed(c, n) && CountNamed(ks, p, n) > 1 ==> DupPair(p, n, CountNamed(ks, p, n)) in r
  {
    if ps == [] then []
    else NamePairs(c, ks, ps[0], KeyOrder(Dedup(NamesUnder(ks, ps[0])))) + PairsFor(c, ks, ps[1..])
  }

  /**
    `dupPairs` of `doExport`, the counts held in `c` (`PlainObject` in the
    source): group the widgets by parent in order of first appearance, count
    the trimmed non-empty names in each group, and list every name counted
    more than once, in the order `Object.keys` gives.
  */
  function DupPairs(c: Counter, ws: seq<Widget>): seq<DupPair> {
    var ks := Keys(ws);
    PairsFor(c, ks, Dedup(Parents(ks)))
  }

  /** A clash the counter sees is reported under its parent and name. */
  lemma ClashReported(c: Counter, ws: seq<Widget>, i: int, j: int)
    requires 0 <= i < j < |ws| && CountedClash(c, ws, i, j)
    ensures DupPair(KeyOf(ws[i]).parent, KeyOf(ws[i]).name, CountNamed(Keys(ws), KeyOf(ws[i]).parent, KeyOf(ws[i]).name)) in DupPairs(c, ws)
  {
    var ks := Keys(ws);
    var p := ks[i].parent;
    var n := ks[i].name;
    assert Named(ks[i], p, n) && Named(ks[j], p, n);
    CountAtLeastTwo(ks, p, n, i, j);
    var ps := Parents(ks);
    assert ps[i] == p;
    assert p in Dedup(ps);
    assert n in NamesUnder(ks, p);
  }

  /** Every reported name comes from two widgets whose clash the counter sees. */
  lemma ReportedClash(c: Counter, ws: seq<Widget>)
    requires DupPairs(c, ws) != []
    ensures HasCountedClash(c, ws)
  {
    var ks := Keys(ws);
    var d := DupPairs(c, ws)[0];
    assert d in PairsFor(c, ks, Dedup(Parents(ks)));
    var i, j := TwoNamed(ks, d.parent, d.name);
    assert ks[i] == KeyOf(ws[i]) && ks[j] == KeyOf(ws[j]);
    assert CountedClash(c, ws, i, j);
  }

  /**
    The check reports duplicates exactly when two widgets under one parent
    share a trimmed, non-empty name the counter does not shadow; with the
    source's plain object, a name `Object.prototype` carries is never reported.
  */
  lemma DupPairsExact(c: Counter, ws: seq<Widget>)
    ensures DupPairs(c, ws) == [] <==> !HasCountedClash(c, ws)
    ensures forall d :: d in DupPairs(PlainObject, ws) ==> d.name !in Inherited
  {
    if HasCountedClash(c, ws) {
      var i, j :| 0 <= i < j < |ws| && CountedClash(c, ws, i, j);
      ClashReported(c, ws, i, j);
    }
    if DupPairs(c, ws) != [] {
      ReportedClash(c, ws);
    }
  }

  /** Counted without a prototype, duplicates are reported exactly when two widgets under one parent share a trimmed, non-empty name. */
  lemma DupPairsCorrectedExact(ws: seq<Widget>)
    ensures DupPairs(NullPrototype, ws) == [] <==> !HasClash(ws)
  {
    DupPairsExact(NullPrototype, ws);
    if HasClash(ws) {
      var i, j :| 0 <= i < j < |ws| && Clash(ws, i, j);
      assert CountedClash(NullPrototype, ws, i, j);
    }
  }

  /** Two root widgets both named `toString` clash, yet the source's check lets them through. */
  lemma InheritedNameMissed()
    ensures var ws := [WidgetStore.NewWidget("panel", 1).(name := "toString"), WidgetStore.NewWidget("panel", 2).(name := "toString")];
            HasClash(ws) && DupPairs(PlainObject, ws) == [] && DupPairs(NullPrototype, ws) != []
  {
    var ws := [WidgetStore.NewWidget("panel", 1).(name := "toString"), WidgetStore.NewWidget("panel", 2).(name := "toString")];
    TrimKeeps("toString");
    assert KeyOf(ws[0]) == KeyOf(ws[1]) == NameKey(None, "toString");
    assert Clash(ws, 0, 1);
    assert !HasCountedClash(PlainObject, ws) by {
      forall i, j | 0 <= i < j < |ws|
        ensures !CountedClash(PlainObject, ws, i, j)
      {
        assert i == 0;
      }
    }
    DupPairsExact(PlainObject, ws);
    DupPairsCorrectedExact(ws);
  }


  /** The first five duplicated names, as the warning lists them. */
  function DupPreview(pairs: seq<DupPair>): (shown: seq<string>)
    ensures |shown| == if |pairs| < 5 then |pairs| else 5
    ensures forall k :: 0 <= k < |shown| ==> shown[k] == pairs[k].name
  {
    var n := if |pairs| < 5 then |pairs| else 5;
    seq(n, k requires 0 <= k < n => pairs[k].name)
  }

  /** The warning: how many names clash, the first five joined by `、`, and ` 等` exactly when more are left out. */
  function DupWarning(pairs: seq<DupPair>): (msg: string)
    ensures StartsWith(msg, "同一父节点下存在 " + IntToString(|pairs|) + " 组重名子控件：" + Join(DupPreview(pairs), "、"))
    ensures |pairs| > 5 ==> EndsWith(msg, " 等。请修改名称后再导出。")
    ensures |pairs| <= 5 ==> EndsWith(msg, Join(DupPreview(pairs), "、") + "。请修改名称后再导出。")
  {
    var shown := Join(DupPreview(pairs), "、");
    var head := "同一父节点下存在 " + IntToString(|pairs|) + " 组重名子控件：" + shown;
    var tail := if |pairs| > 5 then " 等。请修改名称后再导出。" else "。请修改名称后再导出。";
    var msg := head + tail;
    assert msg[..|head|] == head;
    assert msg[|msg| - |tail|..] == tail;
    assert |pairs| <= 5 ==> msg[|msg| - |shown + tail|..] == shown + tail;
    msg
  }

  /** What `doExport` does before writing anything. */
  datatype ExportStart = NoTarget | NoWidgets | Duplicates(pairs: seq<DupPair>, warning: string) | Proceed

  /**
    The guards of `doExport`, the duplicate counts held in `c`
    (`PlainObject` in the source): at least one of the two outputs must be
    on, there must be widgets, and no two widgets under one parent may share
    a trimmed, non-empty name the counter sees.
  */
  function StartExport(c: Counter, resourcesOn: bool, codeOn: bool, ws: seq<Widget>): (r: ExportStart)
    ensures !resourcesOn && !codeOn ==> r == NoTarget
    ensures (resourcesOn || codeOn) && ws == [] ==> r == NoWidgets
    ensures r.Proceed? <==> (resourcesOn || codeOn) && ws != [] && !HasCountedClash(c, ws)
    ensures c.NullPrototype? ==> (r.Proceed? <==> (resourcesOn || codeOn) && ws != [] && !HasClash(ws))
    ensures r.Duplicates? ==> r.pairs == DupPairs(c, ws) && r.pairs != [] && r.warning == DupWarning(r.pairs)
  {
    if !resourcesOn && !codeOn then NoTarget
    else if ws == [] then NoWidgets
    else
      DupPairsExact(c, ws);
      DupPairsCorrectedExact(ws);
      var pairs := DupPairs(c, ws);
      if pairs != [] then Duplicates(pairs, DupWarning(pairs)) else Proceed
  }


  // ---------------------------------------------------------------------
  // Which resources an export copies.

  /** The images the widgets use: every non-blank `image` value, untrimmed. */
  function UsedValues(ws: seq<Widget>): set<string> {
    set w | w in ws && w.image.Some? && Trim(w.image.value) != "" :: w.image.value
  }

  /** A resource is copied when a widget uses it and it has a non-blank local path. */
  predicate Copied(ws: seq<Widget>, r: ImageResource) {
    r.value in UsedValues(ws) && r.localPath.Some? && Trim(r.localPath.value) != ""
  }

  /** The resources to copy, in list order. */
  function ToCopy(ws: seq<Widget>, rs: seq<ImageResource>): (r: seq<ImageResource>)
    ensures |r| <= |rs|
    ensures forall x :: x in r <==> x in rs && Copied(ws, x)
  {
    if rs == [] then []
    else (if Copied(ws, rs[0]) then [rs[0]] else []) + ToCopy(ws, rs[1..])
  }

  /** The outcome of the resource half of `doExport` before any file is touched. */
  datatype ResourcePlan = NoDirectory | NoneUsed | NoneLocal(used: nat) | Copy(items: seq<ImageResource>, notExported: int)

  /**
    No directory is an error; no widget using an image means nothing to do;
    used images without local files cannot be copied; otherwise copy the
    usable ones and report how many used values were left out.
  */
  function PlanResources(dir: string, ws: seq<Widget>, rs: seq<ImageResource>): (r: ResourcePlan)
    ensures dir == "" <==> r.NoDirectory?
    ensures dir != "" && UsedValues(ws) == {} ==> r.NoneUsed?
    ensures r.NoneLocal? ==> r.used == |UsedValues(ws)| > 0 && forall x :: x in rs ==> !Copied(ws, x)
    ensures r.Copy? ==> r.items == ToCopy(ws, rs) && r.items != [] && r.notExported == |UsedValues(ws)| - |r.items|
  {
    var used := UsedValues(ws);
    if dir == "" then NoDirectory
    else if |used| == 0 then NoneUsed
    else
      var items := ToCopy(ws, rs);
      if items == [] then NoneLocal(|used|) else Copy(items, |used| - |items|)
  }

  /** Where one resource is copied: its file name under the export directory, or nothing when the local path ends in a separator. */
  function CopyTarget(dir: string, localPath: string): (r: Option<string>)
    ensures r.None? <==> LastSegment(localPath) == ""
    ensures r.Some? ==> r.value == dir + [SepFor(dir)] + LastSegment(localPath)
  {
    var name := LastSegment(localPath);
    if name == "" then None else Some(dir + [SepFor(dir)] + name)
  }

  /** A copied file keeps its name: the target's last segment is the source's. */
  lemma CopyKeepsName(dir: string, localPath: string)
    requires CopyTarget(dir, localPath).Some?
    ensures LastSegment(CopyTarget(dir, localPath).value) == LastSegment(localPath)
  {
    var name := LastSegment(localPath);
    LastSegmentAfterSep(dir, SepFor(dir), name);
  }

  // ---------------------------------------------------------------------
  // Choosing the generator.

  /** `plugins.find(p => p.id === id)`: the entry at the first index holding the id. */
  function FindPlugin(ps: seq<PluginEntry>, id: string): (r: Option<PluginEntry>)
    ensures r.None? <==> forall k :: 0 <= k < |ps| ==> ps[k].id != id
    ensures r.Some? ==> r.value == ps[PluginIndex(ps, id)] && r.value.id == id
  {
    var i := PluginIndex(ps, id);
    if i < 0 then None else Some(ps[i])
  }

  /** The selected plugin is run by the external interpreter: it exists, is custom and names a file. */
  predicate RunsExternally(ps: seq<PluginEntry>, selected: string) {
    var p := FindPlugin(ps, selected);
    p.Some? && p.value.kind == "custom" && p.value.path.Some? && p.value.path.value != ""
  }

  /** The generated code, and what the debug panel shows afterwards (`None`: untouched). */
  datatype Generated = Generated(code: string, debug: Option<string>)

  /** The debug text after a failed plugin run. */
  function PluginFailure(msg: string): string {
    "Lua 插件执行错误:\n" + msg + "\n\n请检查:\n1. 插件文件语法是否正确\n2. 插件是否返回一个函数\n3. 插件函数是否正确处理 widgets 和 options 参数"
  }

  /**
    `generateLuaWithPlugin`: nothing for no widgets; the external run of a
    custom plugin with a file, its output on success (clearing the debug
    panel) or the built-in output on failure (filling the debug panel); the
    built-in output (`builtin`, already defaulted to `''`) in every other case.
  */
  function GenerateWithPlugin(widgetCount: nat, ps: seq<PluginEntry>, selected: string, builtin: string, run: Result<string>): (g: Generated)
    ensures widgetCount == 0 ==> g == Generated("", None)
    ensures widgetCount > 0 && !RunsExternally(ps, selected) ==> g == Generated(builtin, None)
    ensures widgetCount > 0 && RunsExternally(ps, selected) && run.Ok? ==> g == Generated(run.value, Some(""))
    ensures widgetCount > 0 && RunsExternally(ps, selected) && run.Err? ==> g == Generated(builtin, Some(PluginFailure(run.error)))
  {
    if widgetCount == 0 then Generated("", None)
    else
      var p := FindPlugin(ps, selected);
      if p.None? then Generated(builtin, None)
      else if p.value.kind == "builtin" && p.value.id == "default" then Generated(builtin, None)
      else if p.value.kind == "custom" && p.value.path.Some? && p.value.path.value != "" then
        match run
        case Ok(out) => Generated(out, Some(""))
        case Err(msg) => Generated(builtin, Some(PluginFailure(msg)))
      else Generated(builtin, None)
  }

  /** Only a custom plugin with a file consults the interpreter: for every other choice the run's outcome is irrelevant. */
  lemma BuiltinIgnoresRun(widgetCount: nat, ps: seq<PluginEntry>, selected: string, builtin: string, run1: Result<string>, run2: Result<string>)
    requires !RunsExternally(ps, selected)
    ensures GenerateWithPlugin(widgetCount, ps, selected, builtin, run1) == GenerateWithPlugin(widgetCount, ps, selected, builtin, run2)
  {
  }

  // ---------------------------------------------------------------------
  // The plugin-file wrapper of `generatePluginLua`.

  /** The line that opens the generated panel. */
  const PanelStart := "Frame.Panel.ctor(self, {"

  /** How a line moves the source's brace counter: up if it holds `{`, down if it holds `}`, both if both. */
  function Delta(line: string): int {
    (if '{' in line then 1 else 0) - (if '}' in line then 1 else 0)
  }

  /** The counter after a run of lines. */
  function Balance(ls: seq<string>): int {
    if ls == [] then 0 else Balance(ls[..|ls| - 1]) + Delta(ls[|ls| - 1])
  }

  /** Line `i` closes the block opened at `start`: the counter is back to 0 on a line holding `}`. */
  predicate Closes(lines: seq<string>, start: int, i: int) {
    0 <= start <= i < |lines| && Balance(lines[start..i + 1]) == 0 && '}' in lines[i]
  }

  /** The first line holding the panel opener, or -1. */
  function StartLine(lines: seq<string>): (r: int)
    ensures -1 <= r < |lines|
    ensures r >= 0 ==> Includes(lines[r], PanelStart)
    ensures forall i :: 0 <= i < |lines| && (r < 0 || i < r) ==> !Includes(lines[i], PanelStart)
  {
    if lines == [] then -1
    else if Includes(lines[0], PanelStart) then 0
    else
      var r := StartLine(lines[1..]);
      if r < 0 then -1 else r + 1
  }

  /** The brace loop: the first line at or after `start` that closes the block, or -1. */
  method EndLine(lines: seq<string>, start: int) returns (e: int)
    requires 0 <= start < |lines|
    ensures -1 <= e < |lines|
    ensures e >= 0 ==> Closes(lines, start, e) && forall i :: start <= i < e ==> !Closes(lines, start, i)
    ensures e < 0 ==> forall i :: start <= i < |lines| ==> !Closes(lines, start, i)
  {
    var count := 0;
    var i := start;
    while i < |lines|
      invariant start <= i <= |lines|
      invariant count == Balance(lines[start..i])
      invariant forall k :: start <= k < i ==> !Closes(lines, start, k)
    {
      var line := lines[i];
      assert lines[start..i + 1][..i - start] == lines[start..i];
      if '{' in line {
        count := count + 1;
      }
      if '}' in line {
        count := count - 1;
      }
      if count == 0 && '}' in line {
        return i;
      }
      i := i + 1;
    }
    return -1;
  }

  /** Each line indented by four spaces and ended by a newline. */
  function Indented(ls: seq<string>): string {
    if ls == [] then "" else "    " + ls[0] + "\n" + Indented(ls[1..])
  }

  const PluginHead :=
    "-- UI 设计器生成的插件文件\n" + "-- 此插件包含 UI 布局定义\n\n" + "local Plugin = {}\n\n"
    + "function Plugin:OnLoad()\n" + "    -- 加载 UI 布局\n" + "    self:LoadUI()\n" + "end\n\n"
    + "function Plugin:LoadUI()\n" + "    -- 由设计器生成的 UI 代码\n"

  const PluginTail := "end\n\n" + "return Plugin\n"

  /**
    `generatePluginLua` after generation: nothing without widgets or without
    generated code; otherwise the plugin skeleton around the generated
    panel, which runs from the first line holding the panel opener to the
    first later line where the brace counter closes it, every line indented;
    when either end is missing the skeleton is empty.
  */
  method PluginLua(widgetCount: nat, uiLua: string) returns (lua: string)
    ensures widgetCount == 0 || uiLua == "" ==> lua == ""
    ensures widgetCount > 0 && uiLua != "" ==>
      var lines := SplitBy(uiLua, c => c == '\n');
      var s := StartLine(lines);
      || (lua == PluginHead + PluginTail
          && (s < 0 || forall i :: s <= i < |lines| ==> !Closes(lines, s, i)))
      || (exists e :: (s <= e < |lines| && Closes(lines, s, e) && (forall i :: s <= i < e ==> !Closes(lines, s, i))
                       && lua == PluginHead + Indented(lines[s..e + 1]) + PluginTail))
  {
    if widgetCount == 0 || uiLua == "" {
      return "";
    }
    var lines := SplitBy(uiLua, c => c == '\n');
    var s := StartLine(lines);
    if s < 0 {
      return PluginHead + PluginTail;
    }
    var e := EndLine(lines, s);
    if e < 0 {
      return PluginHead + PluginTail;
    }
    lua := PluginHead + Indented(lines[s..e + 1]) + PluginTail;
  }

  /** The copied block is balanced: its braces return the counter to 0 on its last line. */
  lemma CopiedBlockBalanced(lines: seq<string>, s: int, e: int)
    requires Closes(lines, s, e)
    ensures Balance(lines[s..e + 1]) == 0 && '}' in lines[e]
  {
  }

  // ---------------------------------------------------------------------
  // Deleting a plugin.

  /** The plugin list and the selected plugin id. */
  datatype Registry = Registry(plugins: seq<PluginEntry>, selected: string)

  datatype DeleteOutcome = NotFound | Protected | Cancelled | Deleted

  /** The first index of `id`, or -1. */
  function PluginIndex(ps: seq<PluginEntry>, id: string): (r: int)
    ensures -1 <= r < |ps|
    ensures r >= 0 ==> ps[r].id == id
    ensures forall k :: 0 <= k < |ps| && (r < 0 || k < r) ==> ps[k].id != id
  {
    if ps == [] then -1
    else if ps[0].id == id then 0
    else
      var r := PluginIndex(ps[1..], id);
      if r < 0 then -1 else r + 1
  }

  /**
    `deletePluginById`: an unknown id and a built-in or `default` plugin are
    refused; a declined confirmation changes nothing; a confirmed delete
    removes the first entry with the id and moves the selection to `default`
    if it named the deleted plugin.
  */
  function DeletePlugin(g: Registry, id: string, confirmed: bool): (r: (Registry, DeleteOutcome))
    ensures r.1 != Deleted ==> r.0 == g
    ensures r.1 == NotFound <==> PluginIndex(g.plugins, id) < 0
    ensures r.1 == Deleted <==> PluginIndex(g.plugins, id) >= 0 && g.plugins[PluginIndex(g.plugins, id)].kind != "builtin" && id != "default" && confirmed
    ensures r.1 == Deleted ==>
      var i := PluginIndex(g.plugins, id);
      r.0.plugins == g.plugins[..i] + g.plugins[i + 1..] && r.0.selected == (if g.selected == id then "default" else g.selected)
  {
    var i := PluginIndex(g.plugins, id);
    if i < 0 then (g, NotFound)
    else if g.plugins[i].kind == "builtin" || g.plugins[i].id == "default" then (g, Protected)
    else if !confirmed then (g, Cancelled)
    else (Registry(g.plugins[..i] + g.plugins[i + 1..], if g.selected == id then "default" else g.selected), Deleted)
  }

  /** No two entries share an id. */
  predicate UniquePluginIds(ps: seq<PluginEntry>) {
    forall i, j :: 0 <= i < j < |ps| ==> ps[i].id != ps[j].id
  }

  /**
    After a delete the built-in and `default` entries are all still there and
    the selection never names the deleted id; with unique ids the id is gone
    from the list.
  */
  lemma DeleteKeepsProtected(g: Registry, id: string, confirmed: bool)
    ensures var r := DeletePlugin(g, id, confirmed).0;
            && (forall p :: p in g.plugins && (p.kind == "builtin" || p.id == "default") ==> p in r.plugins)
            && (DeletePlugin(g, id, confirmed).1 == Deleted ==> r.selected != id)
            && (DeletePlugin(g, id, confirmed).1 == Deleted && UniquePluginIds(g.plugins) ==> forall p :: p in r.plugins ==> p.id != id)
  {
    var (r, out) := DeletePlugin(g, id, confirmed);
    if out == Deleted {
      var i := PluginIndex(g.plugins, id);
      forall p | p in g.plugins && (p.kind == "builtin" || p.id == "default") ensures p in r.plugins {
        var k :| 0 <= k < |g.plugins| && g.plugins[k] == p;
        if k < i {
          assert r.plugins[k] == p;
        } else {
          assert k != i;
          assert r.plugins[k - 1] == p;
        }
      }
      if UniquePluginIds(g.plugins) {
        forall p | p in r.plugins ensures p.id != id {
          var k :| 0 <= k < |r.plugins| && r.plugins[k] == p;
          if k < i {
            assert p == g.plugins[k];
          } else {
            assert p == g.plugins[k + 1];
          }
        }
      }
    }
  }
}
