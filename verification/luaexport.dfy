/**
  The built-in Lua generator (`lua-export`): the relative path from the code
  file to a copied image, and the Lua class text with one nested table per
  widget and an optional table of animations.

  The generated text is modelled as a list of lines. A widget's block opens
  with an `Open` line that carries, besides its indentation, the index of the
  widget it belongs to; the index is not printed, it only lets the lemmas
  name which widget each block belongs to.
*/
module LuaExport {
  import opened Wrappers
  import opened Types
  import opened JsText
  import opened CodeText
  import opened Forest
  import WidgetStore
  import Animations
  import ExportPanel

  // ---------------------------------------------------------------------
  // getRelativePath and convertImagePath.

  /** `normalize`: backslashes become slashes, and one trailing slash is dropped unless it is the whole path. */
  function Normalize(p: string): (n: string)
    ensures forall i :: 0 <= i < |n| ==> n[i] != '\\'
    ensures |n| <= |p| && n == ReplaceChar(p, '\\', '/')[..|n|]
  {
    var n := ReplaceChar(p, '\\', '/');
    if |n| > 1 && n[|n| - 1] == '/' then n[..|n| - 1] else n
  }

  /** `p.substring(0, p.lastIndexOf('/') + 1)`: the directory, with its trailing slash. */
  function DirOf(p: string): string {
    p[..LastIndexOf(p, '/') + 1]
  }

  /** `p.substring(p.lastIndexOf('/') + 1)`: the file name. */
  function FileOf(p: string): (f: string)
    ensures DirOf(p) + f == p
    ensures forall i :: 0 <= i < |f| ==> f[i] != '/'
  {
    p[LastIndexOf(p, '/') + 1..]
  }

  /** `dir.split('/').filter(p => p && p !== '.')`. */
  function Parts(dir: string): (ps: seq<string>)
    ensures forall k :: 0 <= k < |ps| ==> ps[k] != "" && ps[k] != "."
  {
    Keep(SplitBy(dir, c => c == '/'))
  }

  function Keep(ps: seq<string>): (r: seq<string>)
    ensures forall k :: 0 <= k < |r| ==> r[k] != "" && r[k] != "."
  {
    if ps == [] then []
    else (if ps[0] != "" && ps[0] != "." then [ps[0]] else []) + Keep(ps[1..])
  }

  /** Two directory names the common-prefix loop treats as equal. */
  predicate SameName(a: string, b: string) {
    LowerAscii(a) == LowerAscii(b)
  }

  /** The length of the longest common prefix of two part lists, names compared without regard to case. */
  function CommonLength(a: seq<string>, b: seq<string>): (c: nat)
    ensures c <= |a| && c <= |b|
    ensures forall k :: 0 <= k < c ==> SameName(a[k], b[k])
    ensures c < |a| && c < |b| ==> !SameName(a[c], b[c])
  {
    if a == [] || b == [] || !SameName(a[0], b[0]) then 0
    else 1 + CommonLength(a[1..], b[1..])
  }

  /** The two shapes of a result: the same directory, or climb `up` levels, descend through `down` and name the file. */
  datatype Relative = SameDir(file: string) | Climb(up: nat, down: seq<string>, file: string)

  /**
    The steps from the directory of `fromPath` to `toPath`. Climbing `up`
    levels from the source directory leaves the common prefix, which names
    the same directories as the target's (up to ASCII case); descending
    through `down` then reaches the target directory.
  */
  function Steps(fromPath: string, toPath: string): (r: Relative)
    ensures r.file == FileOf(Normalize(toPath))
    ensures r.SameDir? <==> DirOf(Normalize(fromPath)) == DirOf(Normalize(toPath))
    ensures r.Climb? ==>
              var fp := Parts(DirOf(Normalize(fromPath)));
              var tp := Parts(DirOf(Normalize(toPath)));
              && r.up <= |fp| && |r.down| <= |tp|
              && |fp| - r.up == |tp| - |r.down|
              && (forall k :: 0 <= k < |fp| - r.up ==> SameName(fp[k], tp[k]))
              && tp[|tp| - |r.down|..] == r.down
              && (r.up > 0 && r.down != [] ==> !SameName(fp[|fp| - r.up], r.down[0]))
  {
    var from := Normalize(fromPath);
    var to := Normalize(toPath);
    if DirOf(from) == DirOf(to) then SameDir(FileOf(to))
    else
      var fp := Parts(DirOf(from));
      var tp := Parts(DirOf(to));
      var common := CommonLength(fp, tp);
      Climb(|fp| - common, tp[common..], FileOf(to))
  }

  /** The text of a climbing result, before slashes turn into backslashes. */
  function ClimbSlashes(up: nat, down: seq<string>, f: string): string {
    Repeat("../", up) + (if down != [] then Join(down, "/") + "/" else "") + f
  }

  /**
    `getRelativePath`: the target unchanged when either path is empty; the
    bare file name in the same directory; otherwise one `..\` per level to
    climb, the directories to descend and the file name, with backslashes.
  */
  function RelativePath(fromPath: string, toPath: string): (r: string)
    ensures fromPath == "" || toPath == "" ==> r == toPath
  {
    if fromPath == "" || toPath == "" then toPath
    else Render(Steps(fromPath, toPath))
  }

  /** The text of the steps: the bare file name, or the climbing text with its slashes turned into backslashes. */
  function Render(s: Relative): string {
    match s
    case SameDir(f) => f
    case Climb(up, down, f) => ReplaceChar(ClimbSlashes(up, down, f), '/', '\\')
  }

  /** Whatever the shape, the result names the target's file last; a climbing result starts with its `..\` steps and has no slash left. */
  lemma RelativeShape(fromPath: string, toPath: string)
    requires fromPath != "" && toPath != ""
    ensures EndsWith(RelativePath(fromPath, toPath), FileOf(Normalize(toPath)))
    ensures Steps(fromPath, toPath).Climb? ==>
              var r := RelativePath(fromPath, toPath);
              StartsWith(r, Repeat("..\\", Steps(fromPath, toPath).up)) && forall i :: 0 <= i < |r| ==> r[i] != '/'
  {
    RenderShape(Steps(fromPath, toPath));
  }

  lemma RenderShape(s: Relative)
    requires forall i :: 0 <= i < |s.file| ==> s.file[i] != '/'
    ensures EndsWith(Render(s), s.file)
    ensures s.Climb? ==> StartsWith(Render(s), Repeat("..\\", s.up)) && forall i :: 0 <= i < |Render(s)| ==> Render(s)[i] != '/'
  {
    var f := s.file;
    if s.Climb? {
      var tail := (if s.down != [] then Join(s.down, "/") + "/" else "") + f;
      assert tail[|tail| - |f|..] == f;
      assert ClimbSlashes(s.up, s.down, f) == Repeat("../", s.up) + tail;
      ClimbText(s.up, tail, f);
    } else {
      assert f[|f| - |f|..] == f;
    }
  }

  /** The shape of a climbing result, after the slashes turned into backslashes. */
  lemma ClimbText(up: nat, tail: string, f: string)
    requires EndsWith(tail, f) && forall i :: 0 <= i < |f| ==> f[i] != '/'
    ensures var r := ReplaceChar(Repeat("../", up) + tail, '/', '\\');
            StartsWith(r, Repeat("..\\", up)) && EndsWith(r, f)
  {
    var text := Repeat("../", up) + tail;
    var r := ReplaceChar(text, '/', '\\');
    ReplaceRepeat(up);
    assert text[..3 * up] == Repeat("../", up);
    assert forall i :: 0 <= i < 3 * up ==> r[i] == ReplaceChar(Repeat("../", up), '/', '\\')[i];
    assert forall i :: 0 <= i < |f| ==> text[|text| - |f| + i] == f[i];
  }

  lemma {:induction false} ReplaceRepeat(n: nat)
    ensures ReplaceChar(Repeat("../", n), '/', '\\') == Repeat("..\\", n)
  {
    if n > 0 {
      ReplaceRepeat(n - 1);
      ReplaceAppend("../", Repeat("../", n - 1));
      ClimbStepReplaced();
    }
  }

  /** One climbing step, after the slash turned into a backslash. */
  lemma ClimbStepReplaced()
    ensures ReplaceChar("../", '/', '\\') == "..\\"
  {
    assert ReplaceChar("../", '/', '\\')[2] == '\\';
  }

  /** Replacing in a concatenation is replacing in each part. */
  lemma {:induction false} ReplaceAppend(x: string, y: string)
    ensures ReplaceChar(x + y, '/', '\\') == ReplaceChar(x, '/', '\\') + ReplaceChar(y, '/', '\\')
  {
    if x != [] {
      assert (x + y)[0] == x[0] && (x + y)[1..] == x[1..] + y;
      ReplaceAppend(x[1..], y);
    } else {
      assert x + y == y;
    }
  }

  /**
    The resource file `convertImagePath` computes: the resource directory and
    the image's file name, with the directory's own kind of separator put
    between them unless the directory already ends with one.
  */
  function ResourceFile(resourcePath: string, name: string): (f: string)
    ensures StartsWith(f, resourcePath) && EndsWith(f, name)
    ensures resourcePath != [] && IsPathSep(resourcePath[|resourcePath| - 1]) ==> f == resourcePath + name
    ensures !(resourcePath != [] && IsPathSep(resourcePath[|resourcePath| - 1])) ==>
              |f| == |resourcePath| + 1 + |name| && f[|resourcePath|] == ExportPanel.SepFor(resourcePath)
  {
    var ends := resourcePath != [] && IsPathSep(resourcePath[|resourcePath| - 1]);
    var f := resourcePath + (if ends then "" else [ExportPanel.SepFor(resourcePath)]) + name;
    assert f[..|resourcePath|] == resourcePath;
    assert f[|f| - |name|..] == name;
    f
  }

  /** `convertImagePath`: the image path relative to the code file, once copied into the resource directory. */
  function ConvertImagePath(imagePath: string, resourcePath: string, codePath: string): (r: string)
    ensures imagePath == "" || resourcePath == "" || codePath == "" ==> r == imagePath
  {
    if imagePath == "" || resourcePath == "" || codePath == "" then imagePath
    else RelativePath(codePath, ResourceFile(resourcePath, LastSegment(imagePath)))
  }

  /** The file name of the normalised resource file is the image's name. */
  lemma ResourceFileName(resourcePath: string, name: string)
    requires name != "" && forall i :: 0 <= i < |name| ==> !IsPathSep(name[i])
    ensures FileOf(Normalize(ResourceFile(resourcePath, name))) == name
  {
    var rf := ResourceFile(resourcePath, name);
    var m := ReplaceChar(rf, '\\', '/');
    assert IsPathSep(rf[|rf| - |name| - 1]);
    assert m[|m| - |name| - 1] == '/';
    assert forall i :: |m| - |name| <= i < |m| ==> m[i] == name[i - (|m| - |name|)];
    assert m[|m| - 1] != '/';
    assert Normalize(rf) == m;
    assert LastIndexOf(m, '/') == |m| - |name| - 1;
    assert m[|m| - |name|..] == name;
  }

  /** The converted path still ends with the image's file name. */
  lemma ConvertKeepsName(imagePath: string, resourcePath: string, codePath: string)
    requires imagePath != "" && resourcePath != "" && codePath != "" && LastSegment(imagePath) != ""
    ensures EndsWith(ConvertImagePath(imagePath, resourcePath, codePath), LastSegment(imagePath))
  {
    var name := LastSegment(imagePath);
    var rf := ResourceFile(resourcePath, name);
    ResourceFileName(resourcePath, name);
    RelativeShape(codePath, rf);
  }

  // ---------------------------------------------------------------------
  // The widget tables.

  /** The `Frame` class a widget becomes: `label` and `input` are `Text`, `button` is `Button`, the rest `Panel`. */
  function LuaType(kind: string): (t: string)
    ensures t == "Text" <==> kind == "label" || kind == "input"
    ensures t == "Button" <==> kind == "button"
    ensures t == "Panel" <==> kind != "label" && kind != "input" && kind != "button"
  {
    if kind == "button" then "Button"
    else if kind == "label" || kind == "input" then "Text"
    else "Panel"
  }

  /** The options the generator reads; an empty string stands for a missing option. */
  datatype LuaOptions = LuaOptions(fileName: string, resourcePath: string, codePath: string)

  /** `options.fileName || 'GeneratedUI'`. */
  function ClassName(o: LuaOptions): (c: string)
    ensures c != ""
    ensures o.fileName != "" ==> c == o.fileName
  {
    if o.fileName != "" then o.fileName else ExportPanel.DefaultClass
  }

  /** The keys of a widget table. */
  datatype Key = Name | Type | X | Y | W | H | Text | Image | Checked | SelectedIndex

  function KeyText(k: Key): string {
    match k
    case Name => "name"
    case Type => "type"
    case X => "x"
    case Y => "y"
    case W => "w"
    case H => "h"
    case Text => "text"
    case Image => "image"
    case Checked => "checked"
    case SelectedIndex => "selected_index"
  }

  /** One line of generated text. `Open` carries the index of its widget, which is not printed. */
  datatype Line =
    | Raw(text: string)
    | Open(pad: nat, at: nat)
    | Field(pad: nat, key: Key, value: string)
    | ChildNote(pad: nat)
    | Close(pad: nat)

  /** The printed form of a line. */
  function Show(l: Line): string {
    match l
    case Raw(t) => t
    case Open(p, _) => Pad(p) + "{"
    case Field(p, k, v) => Pad(p) + "    " + KeyText(k) + " = " + v + ","
    case ChildNote(p) => Pad(p) + "    -- children"
    case Close(p) => Pad(p) + "},"
  }

  function ShowAll(ls: seq<Line>): (r: seq<string>)
    ensures |r| == |ls| && forall i :: 0 <= i < |ls| ==> r[i] == Show(ls[i])
  {
    seq(|ls|, i requires 0 <= i < |ls| => Show(ls[i]))
  }

  /** A Lua long bracket `[[…]]`, which the generator writes without any escaping. */
  function Long(s: string): string {
    "[[" + s + "]]"
  }

  /** `w.selectedIndex || 0`. */
  function SelectedOrZero(w: Widget): int {
    if w.selectedIndex.Some? then w.selectedIndex.value else 0
  }

  /** The image path written for a widget: converted only when both the resource and the code path are set. */
  function ImageText(image: string, o: LuaOptions): string {
    if o.resourcePath != "" && o.codePath != "" then ConvertImagePath(image, o.resourcePath, o.codePath) else image
  }


  /** The value a field run gives key `k`, if any. */
  function ValueOf(ls: seq<Line>, k: Key): Option<string> {
    if ls == [] then None
    else if ls[0].Field? && ls[0].key == k then Some(ls[0].value)
    else ValueOf(ls[1..], k)
  }

  /** The value of a key in two runs is its value in the first, failing that in the second. */
  lemma {:induction false} ValueAppend(a: seq<Line>, b: seq<Line>, k: Key)
    ensures ValueOf(a + b, k) == if ValueOf(a, k).Some? then ValueOf(a, k) else ValueOf(b, k)
  {
    if a != [] {
      assert (a + b)[1..] == a[1..] + b;
      ValueAppend(a[1..], b, k);
    } else {
      assert a + b == b;
    }
  }

  /** Every line of the run is a field at column `pad`. */
  predicate FieldsAt(ls: seq<Line>, pad: nat) {
    forall i :: 0 <= i < |ls| ==> ls[i].Field? && ls[i].pad == pad
  }

  /** A run without key `k` gives it no value. */
  lemma {:induction false} ValueNone(b: seq<Line>, k: Key)
    requires forall i :: 0 <= i < |b| ==> !(b[i].Field? && b[i].key == k)
    ensures ValueOf(b, k) == None
  {
    if b != [] {
      ValueNone(b[1..], k);
    }
  }

  /** The six fields every widget table starts with. */
  function BaseFields(w: Widget, pad: nat): (ls: seq<Line>)
    ensures |ls| == 6 && FieldsAt(ls, pad)
    ensures forall i :: 0 <= i < 6 ==> ls[i].key in {Name, Type, X, Y, W, H}
  {
    [Field(pad, Name, "'" + w.name + "'"), Field(pad, Type, "'" + LuaType(w.kind) + "'"),
     Field(pad, X, IntToString(Round(w.x))), Field(pad, Y, IntToString(Round(w.y))),
     Field(pad, W, IntToString(Round(w.w))), Field(pad, H, IntToString(Round(w.h)))]
  }

  /** A field written only when `c` holds. */
  function OptField(c: bool, pad: nat, k: Key, v: string): (ls: seq<Line>)
    ensures FieldsAt(ls, pad)
    ensures ValueOf(ls, k) == if c then Some(v) else None
    ensures forall k' :: k' != k ==> ValueOf(ls, k') == None
  {
    if c then [Field(pad, k, v)] else []
  }

  function TextField(w: Widget, pad: nat): (ls: seq<Line>)
    ensures FieldsAt(ls, pad)
  {
    OptField(LuaType(w.kind) != "Panel" && w.text.Some? && w.text.value != "", pad, Text, Long(w.text.GetOr("")))
  }

  function ImageField(w: Widget, pad: nat, o: LuaOptions): (ls: seq<Line>)
    ensures FieldsAt(ls, pad)
  {
    OptField(w.image.Some? && w.image.value != "", pad, Image, Long(ImageText(w.image.GetOr(""), o)))
  }

  function CheckedField(w: Widget, pad: nat): (ls: seq<Line>)
    ensures FieldsAt(ls, pad)
  {
    OptField(w.kind == "checkbox", pad, Checked, if w.checked == Some(true) then "true" else "false")
  }

  function SelectedField(w: Widget, pad: nat): (ls: seq<Line>)
    ensures FieldsAt(ls, pad)
  {
    OptField(w.kind == "combobox", pad, SelectedIndex, IntToString(SelectedOrZero(w)))
  }

  /** The fields of one widget table, in the order the generator writes them. */
  function Fields(w: Widget, pad: nat, o: LuaOptions): (ls: seq<Line>)
    ensures |ls| >= 6 && ls[..6] == BaseFields(w, pad)
    ensures FieldsAt(ls, pad)
  {
    Assemble(BaseFields(w, pad), TextField(w, pad), ImageField(w, pad, o), CheckedField(w, pad), SelectedField(w, pad), pad)
  }

  /** The six base fields followed by the four optional pieces. */
  function Assemble(b: seq<Line>, t: seq<Line>, i: seq<Line>, c: seq<Line>, s: seq<Line>, pad: nat): (ls: seq<Line>)
    requires |b| == 6 && FieldsAt(b, pad) && FieldsAt(t, pad) && FieldsAt(i, pad) && FieldsAt(c, pad) && FieldsAt(s, pad)
    ensures |ls| >= 6 && ls[..6] == b && FieldsAt(ls, pad)
  {
    FieldsAtAppend(b, t, pad);
    FieldsAtAppend(b + t, i, pad);
    FieldsAtAppend(b + t + i, c, pad);
    FieldsAtAppend(b + t + i + c, s, pad);
    assert b + t + i + c + s == b + (t + i + c + s);
    PrefixKept(b, t + i + c + s);
    b + t + i + c + s
  }

  lemma FieldsAtAppend(a: seq<Line>, b: seq<Line>, pad: nat)
    requires FieldsAt(a, pad) && FieldsAt(b, pad)
    ensures FieldsAt(a + b, pad)
  {
    assert forall i :: |a| <= i < |a + b| ==> (a + b)[i] == b[i - |a|];
  }

  lemma PrefixKept(a: seq<Line>, b: seq<Line>)
    ensures (a + b)[..|a|] == a
  {
  }

  /** The value `Fields` gives an optional key is the one its own piece gives. */
  lemma FieldsValue(w: Widget, pad: nat, o: LuaOptions, k: Key)
    requires k in {Text, Image, Checked, SelectedIndex}
    ensures ValueOf(Fields(w, pad, o), k)
            == ValueOf(TextField(w, pad), k).Or(ValueOf(ImageField(w, pad, o), k)).Or(ValueOf(CheckedField(w, pad), k)).Or(ValueOf(SelectedField(w, pad), k))
  {
    BaseHasNoOptional(w, pad, k);
    AssembleValue(BaseFields(w, pad), TextField(w, pad), ImageField(w, pad, o), CheckedField(w, pad), SelectedField(w, pad), pad, k);
  }

  lemma BaseHasNoOptional(w: Widget, pad: nat, k: Key)
    requires k in {Text, Image, Checked, SelectedIndex}
    ensures ValueOf(BaseFields(w, pad), k) == None
  {
    ValueNone(BaseFields(w, pad), k);
  }

  /** The value of a key missing from the base fields is the first one the optional pieces give. */
  lemma AssembleValue(b: seq<Line>, t: seq<Line>, i: seq<Line>, c: seq<Line>, s: seq<Line>, pad: nat, k: Key)
    requires |b| == 6 && FieldsAt(b, pad) && FieldsAt(t, pad) && FieldsAt(i, pad) && FieldsAt(c, pad) && FieldsAt(s, pad)
    requires ValueOf(b, k) == None
    ensures ValueOf(Assemble(b, t, i, c, s, pad), k) == ValueOf(t, k).Or(ValueOf(i, k)).Or(ValueOf(c, k)).Or(ValueOf(s, k))
  {
    ValueAppend(b + t + i + c, s, k);
    ValueAppend(b + t + i, c, k);
    ValueAppend(b + t, i, k);
    ValueAppend(b, t, k);
  }

  /**
    Which optional fields a widget table holds: text only for non-`Panel`
    types with a non-empty text, the image when it is set (converted when both
    export paths are set), `checked` for check boxes and `selected_index`
    (0 when unset) for combo boxes.
  */
  lemma FieldsPresent(w: Widget, pad: nat, o: LuaOptions)
    ensures ValueOf(Fields(w, pad, o), Text)
            == if LuaType(w.kind) != "Panel" && w.text.Some? && w.text.value != "" then Some(Long(w.text.value)) else None
    ensures ValueOf(Fields(w, pad, o), Image)
            == if w.image.Some? && w.image.value != "" then Some(Long(ImageText(w.image.value, o))) else None
    ensures ValueOf(Fields(w, pad, o), Checked)
            == if w.kind == "checkbox" then Some(if w.checked == Some(true) then "true" else "false") else None
    ensures ValueOf(Fields(w, pad, o), SelectedIndex)
            == if w.kind == "combobox" then Some(IntToString(SelectedOrZero(w))) else None
  {
    FieldsValue(w, pad, o, Text);
    FieldsValue(w, pad, o, Image);
    FieldsValue(w, pad, o, Checked);
    FieldsValue(w, pad, o, SelectedIndex);
  }

  /** What a widget's table holds besides the nested tables: given the widget and the table's column, its field lines. */
  type TableFn = (Widget, nat) -> seq<Line>

  /** Every table the function writes is made of fields at the table's column. */
  ghost predicate TableOk(table: TableFn) {
    forall w, pad :: FieldsAt(table(w, pad), pad)
  }

  /** The generator's own fields under the given export options. */
  function FieldTable(o: LuaOptions): (table: TableFn)
    ensures TableOk(table)
  {
    (w: Widget, pad: nat) => Fields(w, pad, o)
  }

  /**
    `emitWidget(w, indent)`: the widget's table, then, when it has children,
    a `-- children` note and each child's table four columns deeper. The
    source recurses without bound; `fuel` bounds the depth.
  */
  function EmitOne(ws: seq<Widget>, j: nat, indent: nat, table: TableFn, fuel: nat): (ls: seq<Line>)
    requires j < |ws|
    decreases fuel, 1, 0
  {
    [Open(indent, j)] + table(ws[j], indent) + Kids(ws, j, indent, table, fuel) + [Close(indent)]
  }

  /** The `-- children` note and the children's tables, or nothing for a widget without children. */
  function Kids(ws: seq<Widget>, j: nat, indent: nat, table: TableFn, fuel: nat): (ls: seq<Line>)
    requires j < |ws|
    decreases fuel, 0, 0
  {
    var cs := Children(ws, ws[j].id);
    if fuel > 0 && cs != [] then [ChildNote(indent)] + EmitAll(ws, cs, indent + 4, table, fuel - 1) else []
  }

  /** The tables of the widgets `cs`, one after another. */
  function EmitAll(ws: seq<Widget>, cs: seq<nat>, indent: nat, table: TableFn, fuel: nat): (ls: seq<Line>)
    requires forall t :: 0 <= t < |cs| ==> cs[t] < |ws|
    decreases fuel, 2, |cs|
  {
    if cs == [] then [] else EmitOne(ws, cs[0], indent, table, fuel) + EmitAll(ws, cs[1..], indent, table, fuel)
  }

  /** The widgets whose tables the lines open, in order. */
  function Opens(ls: seq<Line>): (r: seq<nat>) {
    if ls == [] then []
    else (if ls[0].Open? then [ls[0].at] else []) + Opens(ls[1..])
  }

  lemma {:induction false} OpensAppend(a: seq<Line>, b: seq<Line>)
    ensures Opens(a + b) == Opens(a) + Opens(b)
  {
    if a != [] {
      OpensAppend(a[1..], b);
      assert (a + b)[1..] == a[1..] + b;
    } else {
      assert a + b == b;
    }
  }

  lemma {:induction false} OpensOfFields(ls: seq<Line>)
    requires forall i :: 0 <= i < |ls| ==> ls[i].Field?
    ensures Opens(ls) == []
  {
    if ls != [] {
      OpensOfFields(ls[1..]);
    }
  }

  /** A table block opens only its own widget and the blocks nested in it. */
  lemma OpensOfBlock(j: nat, indent: nat, fs: seq<Line>, kids: seq<Line>)
    requires forall i :: 0 <= i < |fs| ==> fs[i].Field?
    ensures Opens([Open(indent, j)] + fs + kids + [Close(indent)]) == [j] + Opens(kids)
  {
    OpensAppend([Open(indent, j)] + fs + kids, [Close(indent)]);
    OpensAppend([Open(indent, j)] + fs, kids);
    OpensAppend([Open(indent, j)], fs);
    OpensOfFields(fs);
    assert Opens([Close(indent)]) == [];
    assert Opens([Open(indent, j)]) == [j];
  }

  /** A widget's table opens for the widget itself and then, in the walk's order, for each of its descendants. */
  lemma {:induction false} EmitOneOrder(ws: seq<Widget>, j: nat, indent: nat, table: TableFn, fuel: nat)
    requires TableOk(table) && j < |ws|
    ensures Opens(EmitOne(ws, j, indent, table, fuel)) == [j] + Desc(ws, ws[j].id, fuel)
    decreases fuel, 1, 0
  {
    OpensOfBlock(j, indent, table(ws[j], indent), Kids(ws, j, indent, table, fuel));
    KidsOrder(ws, j, indent, table, fuel);
  }

  /** The nested tables open for the widget's descendants, in the walk's order. */
  lemma {:induction false} KidsOrder(ws: seq<Widget>, j: nat, indent: nat, table: TableFn, fuel: nat)
    requires TableOk(table) && j < |ws|
    ensures Opens(Kids(ws, j, indent, table, fuel)) == Desc(ws, ws[j].id, fuel)
    decreases fuel, 0, 0
  {
    var cs := Children(ws, ws[j].id);
    if fuel > 0 && cs != [] {
      var all := EmitAll(ws, cs, indent + 4, table, fuel - 1);
      EmitAllOrder(ws, cs, indent + 4, table, fuel - 1);
      NoteOpensNothing(ChildNote(indent), all);
    }
  }

  /** A line that opens no table adds nothing to the order in front of others. */
  lemma NoteOpensNothing(note: Line, ls: seq<Line>)
    requires !note.Open?
    ensures Opens([note] + ls) == Opens(ls)
  {
    assert ([note] + ls)[1..] == ls;
  }

  /** The tables of sibling widgets open in the depth-first pre-order of the walk. */
  lemma {:induction false} EmitAllOrder(ws: seq<Widget>, cs: seq<nat>, indent: nat, table: TableFn, fuel: nat)
    requires TableOk(table) && forall t :: 0 <= t < |cs| ==> cs[t] < |ws|
    ensures Opens(EmitAll(ws, cs, indent, table, fuel)) == DescAll(ws, cs, fuel)
    decreases fuel, 2, |cs|
  {
    if cs != [] {
      EmitOneOrder(ws, cs[0], indent, table, fuel);
      EmitAllOrder(ws, cs[1..], indent, table, fuel);
      EmitAllStep(ws, cs, indent, table, fuel, EmitOne(ws, cs[0], indent, table, fuel), EmitAll(ws, cs[1..], indent, table, fuel));
    }
  }

  lemma EmitAllStep(ws: seq<Widget>, cs: seq<nat>, indent: nat, table: TableFn, fuel: nat, one: seq<Line>, rest: seq<Line>)
    requires cs != [] && forall t :: 0 <= t < |cs| ==> cs[t] < |ws|
    requires one == EmitOne(ws, cs[0], indent, table, fuel) && rest == EmitAll(ws, cs[1..], indent, table, fuel)
    requires Opens(one) == [cs[0]] + Desc(ws, ws[cs[0]].id, fuel) && Opens(rest) == DescAll(ws, cs[1..], fuel)
    ensures Opens(EmitAll(ws, cs, indent, table, fuel)) == DescAll(ws, cs, fuel)
  {
    EmitAllCons(ws, cs, indent, table, fuel, one, rest);
    OpensAppend(one, rest);
  }

  /** A run of siblings is the first sibling's table followed by the rest, and so is the walk. */
  lemma EmitAllCons(ws: seq<Widget>, cs: seq<nat>, indent: nat, table: TableFn, fuel: nat, one: seq<Line>, rest: seq<Line>)
    requires cs != [] && forall t :: 0 <= t < |cs| ==> cs[t] < |ws|
    requires one == EmitOne(ws, cs[0], indent, table, fuel) && rest == EmitAll(ws, cs[1..], indent, table, fuel)
    ensures EmitAll(ws, cs, indent, table, fuel) == one + rest
    ensures DescAll(ws, cs, fuel) == [cs[0]] + Desc(ws, ws[cs[0]].id, fuel) + DescAll(ws, cs[1..], fuel)
  {
  }

  /** Every table line of a run of siblings is at least as deep as the run, and exactly that deep only for the siblings themselves. */
  lemma {:induction false} EmitAllPads(ws: seq<Widget>, cs: seq<nat>, indent: nat, table: TableFn, fuel: nat)
    requires TableOk(table) && forall t :: 0 <= t < |cs| ==> cs[t] < |ws|
    ensures forall l :: l in EmitAll(ws, cs, indent, table, fuel) && l.Open? ==>
              l.at < |ws| && l.pad >= indent && (l.pad == indent ==> l.at in cs) && (l.pad > indent ==> ws[l.at].parentId.Some?)
    decreases fuel, 2, |cs|
  {
    if cs != [] {
      EmitOnePads(ws, cs[0], indent, table, fuel);
      EmitAllPads(ws, cs[1..], indent, table, fuel);
    }
  }

  /** A widget's table opens at its own column for itself only, and deeper for widgets that have a parent. */
  lemma {:induction false} EmitOnePads(ws: seq<Widget>, j: nat, indent: nat, table: TableFn, fuel: nat)
    requires TableOk(table) && j < |ws|
    ensures forall l :: l in EmitOne(ws, j, indent, table, fuel) && l.Open? ==>
              l.at < |ws| && l.pad >= indent && (l.pad == indent ==> l.at == j) && (l.pad > indent ==> ws[l.at].parentId.Some?)
    decreases fuel, 1, 0
  {
    KidsPads(ws, j, indent, table, fuel);
    var fs := table(ws[j], indent);
    assert forall l :: l in fs ==> l.Field?;
  }

  lemma {:induction false} KidsPads(ws: seq<Widget>, j: nat, indent: nat, table: TableFn, fuel: nat)
    requires TableOk(table) && j < |ws|
    ensures forall l :: l in Kids(ws, j, indent, table, fuel) && l.Open? ==>
              l.at < |ws| && l.pad > indent && ws[l.at].parentId.Some?
    decreases fuel, 0, 0
  {
    var cs := Children(ws, ws[j].id);
    if fuel > 0 && cs != [] {
      EmitAllPads(ws, cs, indent + 4, table, fuel - 1);
      forall l | l in EmitAll(ws, cs, indent + 4, table, fuel - 1) && l.Open? && l.pad == indent + 4
        ensures ws[l.at].parentId.Some?
      {
        assert l.at in cs;
      }
    }
  }

  /** The widget tables of an export: every root at column 8, its children nested below it. */
  function WidgetLines(ws: seq<Widget>, o: LuaOptions): seq<Line> {
    EmitAll(ws, Roots(ws), 8, FieldTable(o), |ws|)
  }

  /**
    The tables open in the same order as the depth-first part of the editor's
    render order: each root, then its subtree.
  */
  lemma WidgetLinesOrder(ws: seq<Widget>, o: LuaOptions)
    ensures Opens(WidgetLines(ws, o)) == DescAll(ws, Roots(ws), |ws|)
    ensures Opens(WidgetLines(ws, o)) <= WidgetStore.RenderOrder(ws)
  {
    EmitAllOrder(ws, Roots(ws), 8, FieldTable(o), |ws|);
  }

  /** Only roots sit at column 8; a widget whose parent is not in the list gets no table at all. */
  lemma WidgetLinesRootsAtEight(ws: seq<Widget>, o: LuaOptions)
    ensures forall l :: l in WidgetLines(ws, o) && l.Open? ==> l.at < |ws| && (l.pad == 8 <==> ws[l.at].parentId.None?)
    ensures var d := DescAll(ws, Roots(ws), |ws|);
            forall t :: 0 <= t < |d| && ws[d[t]].parentId.Some? ==> exists u :: 0 <= u < t && ws[d[t]].parentId == Some(ws[d[u]].id)
  {
    var roots := Roots(ws);
    EmitAllPads(ws, roots, 8, FieldTable(o), |ws|);
    EmitAllOrder(ws, roots, 8, FieldTable(o), |ws|);
    DescAllParentsFirst(ws, roots, None, |ws|);
    forall l | l in WidgetLines(ws, o) && l.Open?
      ensures l.at < |ws|
    {
      OpenInOpens(WidgetLines(ws, o), l);
    }
  }

  /** An `Open` line's widget is among the opened widgets. */
  lemma {:induction false} OpenInOpens(ls: seq<Line>, l: Line)
    requires l in ls && l.Open?
    ensures l.at in Opens(ls)
  {
    if ls[0] != l {
      OpenInOpens(ls[1..], l);
    }
  }

  /** With unique ids and acyclic links, every widget below a root gets exactly one table. */
  lemma WidgetLinesComplete(ws: seq<Widget>, o: LuaOptions)
    requires UniqueIds(ws) && Acyclic(ws)
    ensures NoDup(Opens(WidgetLines(ws, o)))
    ensures forall j :: 0 <= j < |ws| ==>
              (j in Opens(WidgetLines(ws, o)) <==> ws[j].parentId.None? || exists r :: 0 <= r < |ws| && ws[r].parentId.None? && Above(ws, ws[r].id, ws[j].id))
  {
    EmitAllOrder(ws, Roots(ws), 8, FieldTable(o), |ws|);
    RootWalkComplete(ws);
  }

  // ---------------------------------------------------------------------
  // The animations table.

  /** The `params` block of an animation: only the fields that are set, and no block when none is. */
  function ParamLines(p: Option<AnimParams>, showNum: real -> string): (ls: seq<string>)
    ensures ls == [] <==> p.None? || (p.value.toX.None? && p.value.toY.None? && p.value.tweenType.None?)
    ensures ls != [] ==> ls[0] == "            params = {" && ls[|ls| - 1] == "            },"
    ensures ls != [] ==> |ls| == 2 + (if p.value.toX.Some? then 1 else 0) + (if p.value.toY.Some? then 1 else 0) + (if p.value.tweenType.Some? then 1 else 0)
  {
    var q := p.GetOr(AnimParams(None, None, None));
    if q.toX.None? && q.toY.None? && q.tweenType.None? then []
    else
      ["            params = {"]
      + (if q.toX.Some? then ["                toX = " + showNum(q.toX.value) + ","] else [])
      + (if q.toY.Some? then ["                toY = " + showNum(q.toY.value) + ","] else [])
      + (if q.tweenType.Some? then ["                tweenType = " + IntToString(q.tweenType.value) + ","] else [])
      + ["            },"]
  }

  /** One animation record: name, type, duration and delay (0 when unset), loop, and the parameters. */
  function AnimLines(a: Animations.Exported, showNum: real -> string): (ls: seq<string>)
    ensures |ls| >= 7 && ls[0] == "        {" && ls[|ls| - 1] == "        },"
    ensures ls[1] == "            name = " + Long(a.name) + "," && ls[2] == "            type = " + Long(a.kind) + ","
    ensures ls[5] == "            loop = " + (if a.loop == Some(true) then "true" else "false") + ","
    ensures ls[6..|ls| - 1] == ParamLines(a.params, showNum)
  {
    // `a.duration || 0` and `a.delay || 0`: an unset or zero value prints as 0.
    ["        {",
     "            name = " + Long(a.name) + ",",
     "            type = " + Long(a.kind) + ",",
     "            duration = " + showNum(a.duration.GetOr(0.0)) + ",",
     "            delay = " + showNum(a.delay.GetOr(0.0)) + ",",
     "            loop = " + (if a.loop == Some(true) then "true" else "false") + ","]
    + ParamLines(a.params, showNum) + ["        },"]
  }

  function AnimListLines(list: seq<Animations.Exported>, showNum: real -> string): seq<string> {
    if list == [] then [] else AnimLines(list[0], showNum) + AnimListLines(list[1..], showNum)
  }

  /** The entries of the animations table, one per widget id, in the order given. */
  function GroupLines(groups: seq<(int, seq<Animations.Exported>)>, showNum: real -> string): seq<string> {
    if groups == [] then []
    else ["    [" + IntToString(groups[0].0) + "] = {"] + AnimListLines(groups[0].1, showNum) + ["    },"]
         + GroupLines(groups[1..], showNum)
  }

  /** The `animations` table over the given groups, in the order given: nothing when there are none. */
  function AnimTable(className: string, groups: seq<(int, seq<Animations.Exported>)>, showNum: real -> string): (ls: seq<string>)
    ensures ls == [] <==> groups == []
    ensures groups != [] ==> |ls| >= 4 && ls[1] == className + ".animations = {" && ls[|ls| - 2..] == ["}", ""]
    ensures groups != [] ==> ls[2] == "    [" + IntToString(groups[0].0) + "] = {"
  {
    if groups == [] then []
    else ["-- 动画数据（由编辑器导出，按控件 id 分组）", className + ".animations = {"] + GroupLines(groups, showNum) + ["}", ""]
  }

  /**
    The trailing `animations` table of `getAnimationsForExport()`: nothing
    without animations, else one entry per key in `Object.keys` order
    (`Animations.ExportedGroups`), the first being the first of
    `Animations.KeyIds`.
  */
  function AnimBlock(className: string, anims: seq<Animation>, showNum: real -> string): (ls: seq<string>)
    ensures ls == [] <==> anims == []
    ensures anims != [] ==> |ls| >= 4 && ls[1] == className + ".animations = {" && ls[|ls| - 2..] == ["}", ""]
    ensures anims != [] ==> ls[2] == "    [" + IntToString(Animations.KeyIds(anims)[0]) + "] = {"
  {
    AnimTable(className, Animations.ExportedGroups(anims), showNum)
  }

  // ---------------------------------------------------------------------
  // The whole file.

  function Header(c: string): seq<string> {
    ["-- 由 Vue UI 设计器自动生成",
     "-- 你可以根据需要改名 / 增加逻辑",
     "",
     "---@class " + c + ":Frame.Panel",
     "---@field new fun():" + c,
     c + " = Class('" + c + "', Frame.Panel)",
     "",
     "function " + c + ":ctor()",
     "    Frame.Panel.ctor(self, {",
     "        parent = Frame.GameUI,",
     "        x = 0,",
     "        y = 0,",
     "        w = 1920,",
     "        h = 1080,",
     "        image = Const.Texture.blank,",
     "        -- 以下子控件由设计器生成"]
  }

  const Footer: seq<string> := ["    })", "end", ""]

  /** The lines of `exportFunction` for a non-empty widget list. */
  function ExportLines(ws: seq<Widget>, o: LuaOptions, anims: seq<Animation>, showNum: real -> string): (ls: seq<string>)
    ensures |ls| >= |Header(ClassName(o))| + |WidgetLines(ws, o)| + |Footer|
    ensures ls[..|Header(ClassName(o))|] == Header(ClassName(o))
  {
    var c := ClassName(o);
    var h, b := Header(c), ShowAll(WidgetLines(ws, o));
    var r := h + b + Footer + AnimBlock(c, anims, showNum);
    assert |b| == |WidgetLines(ws, o)|;
    assert r[..|h|] == h;
    r
  }

  /**
    `exportFunction`: nothing for an empty widget list, else the class text.
    `anims` is the animation list whose `getAnimationsForExport()` is passed
    in, and `showNum` prints a JavaScript number.
  */
  function Export(ws: seq<Widget>, o: LuaOptions, anims: seq<Animation>, showNum: real -> string): (r: string)
    ensures r == "" <==> ws == []
    ensures ws != [] ==> r == Unlines(ExportLines(ws, o, anims, showNum))
  {
    if ws == [] then "" else Unlines(ExportLines(ws, o, anims, showNum))
  }

  /** The text is the header, the widget tables, the closing lines and the animations table, in that order. */
  lemma ExportSections(ws: seq<Widget>, o: LuaOptions, anims: seq<Animation>, showNum: real -> string)
    requires ws != []
    ensures var c := ClassName(o);
            Export(ws, o, anims, showNum)
            == Unlines(Header(c)) + Unlines(ShowAll(WidgetLines(ws, o))) + Unlines(Footer) + Unlines(AnimBlock(c, anims, showNum))
  {
    var c := ClassName(o);
    var h := Header(c);
    var b := ShowAll(WidgetLines(ws, o));
    var a := AnimBlock(c, anims, showNum);
    UnlinesAppend(h + b + Footer, a);
    UnlinesAppend(h + b, Footer);
    UnlinesAppend(h, b);
  }
}
