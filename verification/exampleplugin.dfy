/**
  The example custom export plugin (`example-plugin`): a flat `widgets` array
  with one object per widget in list order, numbers as they are, the parent
  id or `null`, then an optional `animations` object and an empty class.
*/
module ExamplePlugin {
  import opened Wrappers
  import opened Types
  import opened JsText
  import opened CodeText
  import Animations
  import ExportPanel

  /** `widget.text` / `widget.image` as a condition: set and not empty. */
  predicate Truthy(s: Option<string>) {
    s.Some? && s.value != ""
  }

  /** `widget.parentId ?? 'null'`. */
  function ParentText(p: Option<int>): string {
    if p.Some? then IntToString(p.value) else "null"
  }

  /** The object of one widget, without the comma its caller may add. */
  function Entry(w: Widget, showNum: real -> string): (e: seq<string>)
    ensures |e| == 10 + (if Truthy(w.text) then 1 else 0) + (if Truthy(w.image) then 1 else 0)
    ensures e[0] == "  {" && e[|e| - 1] == "  }"
    ensures e[|e| - 2] == "    parentId: " + ParentText(w.parentId) + ","
  {
    ["  {",
     "    id: " + IntToString(w.id) + ",",
     "    name: '" + w.name + "',",
     "    type: '" + w.kind + "',",
     "    x: " + showNum(w.x) + ",",
     "    y: " + showNum(w.y) + ",",
     "    w: " + showNum(w.w) + ",",
     "    h: " + showNum(w.h) + ","]
    + (if Truthy(w.text) then [QuotedProp(0, "text", w.text.value)] else [])
    + (if Truthy(w.image) then [QuotedProp(0, "image", w.image.value)] else [])
    + ["    parentId: " + ParentText(w.parentId) + ",", "  }"]
  }

  /** Reads a `parentId` line back: `Some(None)` for `null`, `Some(Some(id))` for a number, `None` for anything else. */
  function ReadParent(line: string): Option<Option<int>> {
    var pre := "    parentId: ";
    if |line| >= |pre| + 1 && line[..|pre|] == pre && line[|line| - 1] == ',' then
      var mid := line[|pre|..|line| - 1];
      if mid == "null" then Some(None)
      else if ReadInt(mid).Some? then Some(Some(ReadInt(mid).value))
      else None
    else None
  }

  /**
    A widget's object gives back what it was written from: the parent id
    (or its absence), and the text and image when they are written.
  */
  lemma EntryReadsBack(w: Widget, showNum: real -> string)
    ensures var e := Entry(w, showNum);
            ReadParent(e[|e| - 2]) == Some(w.parentId)
    ensures var e := Entry(w, showNum);
            Truthy(w.text) ==> ReadProp(e[8], 0, "text") == Some(w.text.value)
    ensures var e := Entry(w, showNum);
            Truthy(w.image) ==> ReadProp(e[|e| - 3], 0, "image") == Some(w.image.value)
  {
    var e := Entry(w, showNum);
    var line := e[|e| - 2];
    var pre := "    parentId: ";
    assert line[..|pre|] == pre;
    assert line[|pre|..|line| - 1] == ParentText(w.parentId);
    if w.parentId.Some? {
      IntToStringReads(w.parentId.value);
      var t := IntToString(w.parentId.value);
      assert t[0] == '-' || '0' <= t[0] <= '9';
      assert t != "null";
    }
    QuotedPropReadsBack(0, "text", w.text.GetOr(""));
    QuotedPropReadsBack(0, "image", w.image.GetOr(""));
  }

  function Entries(ws: seq<Widget>, showNum: real -> string): (bs: seq<seq<string>>)
    ensures |bs| == |ws| && forall k :: 0 <= k < |ws| ==> bs[k] == Entry(ws[k], showNum)
  {
    seq(|ws|, k requires 0 <= k < |ws| => Entry(ws[k], showNum))
  }

  /** How many of the lines are exactly `s`. */
  function CountLine(ls: seq<string>, s: string): nat {
    if ls == [] then 0 else (if ls[0] == s then 1 else 0) + CountLine(ls[1..], s)
  }

  lemma {:induction false} CountLineAppend(a: seq<string>, b: seq<string>, s: string)
    ensures CountLine(a + b, s) == CountLine(a, s) + CountLine(b, s)
  {
    if a != [] {
      CountLineAppend(a[1..], b, s);
      assert (a + b)[1..] == a[1..] + b;
    } else {
      assert a + b == b;
    }
  }

  lemma {:induction false} CountLineNone(ls: seq<string>, s: string)
    requires forall i :: 0 <= i < |ls| ==> ls[i] != s
    ensures CountLine(ls, s) == 0
  {
    if ls != [] {
      CountLineNone(ls[1..], s);
    }
  }

  /** Only the first line of a widget's object is `  {`. */
  lemma EntryOpensOnce(w: Widget, showNum: real -> string)
    ensures var e := Entry(w, showNum);
            CountLine(e[..|e| - 1], "  {") == 1
  {
    var e := Entry(w, showNum);
    forall i | 1 <= i < |e|
      ensures e[i] != "  {"
    {
      assert |e[i]| >= 3 && e[i][2] != '{';
    }
    assert e[..|e| - 1] == [e[0]] + e[1..|e| - 1];
    CountLineNone(e[1..|e| - 1], "  {");
    CountLineAppend([e[0]], e[1..|e| - 1], "  {");
  }

  /**
    The `widgets` array has one object per widget of the list, children and
    widgets whose parent is missing included, in list order.
  */
  lemma WidgetObjects(ws: seq<Widget>, showNum: real -> string)
    ensures CountLine(Commas(Entries(ws, showNum)), "  {") == |ws|
  {
    var bs := Entries(ws, showNum);
    forall k | 0 <= k < |bs|
      ensures bs[k] != [] && CountLine(bs[k][..|bs[k]| - 1], "  {") == 1 && Last(bs[k]) != "  {" && Last(bs[k]) + "," != "  {"
    {
      EntryOpensOnce(ws[k], showNum);
      assert Last(bs[k]) == "  }";
    }
    CommasCount(bs, "  {");
  }

  /** Blocks that each hold the line once before their last line, and whose last line cannot become it, hold it once each after `Commas`. */
  lemma {:induction false} CommasCount(bs: seq<seq<string>>, s: string)
    requires forall k :: 0 <= k < |bs| ==>
               bs[k] != [] && CountLine(bs[k][..|bs[k]| - 1], s) == 1 && Last(bs[k]) != s && Last(bs[k]) + "," != s
    ensures CountLine(Commas(bs), s) == |bs|
  {
    if bs != [] {
      var b := bs[0];
      var ls := Commas(bs);
      if |bs| == 1 {
        assert ls == b;
        assert b == b[..|b| - 1] + [Last(b)];
        CountLineAppend(b[..|b| - 1], [Last(b)], s);
      } else {
        CommasCount(bs[1..], s);
        assert ls == b[..|b| - 1] + [Last(b) + ","] + Commas(bs[1..]);
        CountLineAppend(b[..|b| - 1] + [Last(b) + ","], Commas(bs[1..]), s);
        CountLineAppend(b[..|b| - 1], [Last(b) + ","], s);
      }
    }
  }

  /** One animation object; the example writes no parameters. */
  function AnimEntry(a: Animations.Exported, showNum: real -> string): (e: seq<string>)
    ensures |e| == 7 && e[0] == "    {" && e[6] == "    }"
  {
    ["    {",
     "      name: '" + a.name + "',",
     "      type: '" + a.kind + "',",
     "      duration: " + showNum(a.duration.GetOr(0.0)) + ",",
     "      delay: " + showNum(a.delay.GetOr(0.0)) + ",",
     "      loop: " + (if a.loop == Some(true) then "true" else "false") + ",",
     "    }"]
  }

  function AnimEntries(list: seq<Animations.Exported>, showNum: real -> string): (bs: seq<seq<string>>)
    ensures |bs| == |list| && forall k :: 0 <= k < |bs| ==> bs[k] == AnimEntry(list[k], showNum)
  {
    seq(|list|, k requires 0 <= k < |list| => AnimEntry(list[k], showNum))
  }

  /** A widget's animation list as the example writes it: opened with `[`, closed with `}`. */
  function GroupAsWritten(wid: int, list: seq<Animations.Exported>, showNum: real -> string): (ls: seq<string>)
    ensures |ls| >= 2 && ls[0] == "  " + IntToString(wid) + ": [" && ls[|ls| - 1] == "  }"
  {
    ["  " + IntToString(wid) + ": ["] + Commas(AnimEntries(list, showNum)) + ["  }"]
  }

  /** The example's animation list is not closed by the bracket that opens it. */
  lemma GroupAsWrittenMismatch(wid: int, list: seq<Animations.Exported>, showNum: real -> string)
    ensures var g := GroupAsWritten(wid, list, showNum);
            !Pairs(g[0], g[|g| - 1], 2)
  {
    var g := GroupAsWritten(wid, list, showNum);
    assert g[0][|g[0]| - 1] == '[';
    assert g[|g| - 1][2] == '}';
  }

  /** A widget's animation list, closed with the matching `]`. */
  function Group(wid: int, list: seq<Animations.Exported>, showNum: real -> string): (ls: seq<string>)
    ensures |ls| >= 2 && ls[0] == "  " + IntToString(wid) + ": [" && ls[|ls| - 1] == "  ]"
    ensures ls[1..|ls| - 1] == Commas(AnimEntries(list, showNum))
  {
    ["  " + IntToString(wid) + ": ["] + Commas(AnimEntries(list, showNum)) + ["  ]"]
  }

  /** Each animation list, and each animation object in it, is closed at its own column by the bracket that opens it. */
  lemma GroupBracketsMatch(wid: int, list: seq<Animations.Exported>, showNum: real -> string)
    ensures var g := Group(wid, list, showNum);
            Pairs(g[0], g[|g| - 1], 2)
    ensures forall k :: 0 <= k < |list| ==> Pairs(AnimEntry(list[k], showNum)[0], AnimEntry(list[k], showNum)[6], 4)
  {
    var g := Group(wid, list, showNum);
    assert g[0][|g[0]| - 1] == '[';
    assert g[|g| - 1][2] == ']';
  }

  /** The lists as the example writes them, in the order their widget ids are visited. */
  function GroupBlocksAsWritten(groups: seq<(int, seq<Animations.Exported>)>, showNum: real -> string): (bs: seq<seq<string>>)
    ensures |bs| == |groups| && forall k :: 0 <= k < |bs| ==> bs[k] == GroupAsWritten(groups[k].0, groups[k].1, showNum)
  {
    seq(|groups|, k requires 0 <= k < |groups| => GroupAsWritten(groups[k].0, groups[k].1, showNum))
  }

  /** The corrected lists, in the order their widget ids are visited. */
  function GroupBlocks(groups: seq<(int, seq<Animations.Exported>)>, showNum: real -> string): (bs: seq<seq<string>>)
    ensures |bs| == |groups| && forall k :: 0 <= k < |bs| ==> bs[k] == Group(groups[k].0, groups[k].1, showNum)
  {
    seq(|groups|, k requires 0 <= k < |groups| => Group(groups[k].0, groups[k].1, showNum))
  }

  /** The object declaration around its entries. */
  function AnimObject(body: seq<string>): (ls: seq<string>)
    ensures |ls| == |body| + 4 && ls[..2] == ["// 动画数据", "const animations = {"] && ls[|ls| - 2..] == ["};", ""]
    ensures body != [] ==> ls[2] == body[0]
  {
    var r := ["// 动画数据", "const animations = {"] + body + ["};", ""];
    assert r[..2] == ["// 动画数据", "const animations = {"];
    r
  }

  /** The `animations` object as the example writes it: nothing without animations, else one list per key in `Object.keys` order, every list ending in `}`. */
  function AnimBlock(anims: seq<Animation>, showNum: real -> string): (ls: seq<string>)
    ensures ls == [] <==> anims == []
    ensures anims != [] ==> |ls| >= 5 && ls[|ls| - 2..] == ["};", ""] && ls[|ls| - 3] == "  }"
    ensures anims != [] ==> ls[2] == "  " + IntToString(Animations.KeyIds(anims)[0]) + ": ["
  {
    if anims == [] then []
    else
      var gs := Animations.ExportedGroups(anims);
      var bs := GroupBlocksAsWritten(gs, showNum);
      assert bs[0][0] == "  " + IntToString(gs[0].0) + ": [";
      ObjectOf(bs)
  }

  /** The `animations` object with every list closed by `]`. */
  function AnimBlockCorrected(anims: seq<Animation>, showNum: real -> string): (ls: seq<string>)
    ensures ls == [] <==> anims == []
    ensures anims != [] ==> |ls| >= 5 && ls[|ls| - 2..] == ["};", ""] && ls[|ls| - 3] == "  ]"
    ensures anims != [] ==> ls[2] == "  " + IntToString(Animations.KeyIds(anims)[0]) + ": ["
  {
    if anims == [] then []
    else
      var gs := Animations.ExportedGroups(anims);
      var bs := GroupBlocks(gs, showNum);
      assert bs[0][0] == "  " + IntToString(gs[0].0) + ": [";
      ObjectOf(bs)
  }

  /** The object around one or more lists: it opens with the first list's first line and ends with the last list's closer. */
  function ObjectOf(bs: seq<seq<string>>): (ls: seq<string>)
    requires bs != [] && forall k :: 0 <= k < |bs| ==> |bs[k]| >= 2
    ensures |ls| >= 5 && ls[|ls| - 2..] == ["};", ""]
    ensures ls[2] == bs[0][0] && ls[|ls| - 3] == Last(bs[|bs| - 1])
  {
    var body := Commas(bs);
    assert body[0] == bs[0][0];
    AnimObject(body)
  }

  /**
    With one animated widget, the object the example writes opens that
    widget's list with `[` and closes it with `}`; the corrected object closes
    it with the matching `]`.
  */
  lemma {:induction false} OneGroupObject(anims: seq<Animation>, wid: int, showNum: real -> string)
    requires anims != []
    requires forall k :: 0 <= k < |anims| ==> anims[k].widgetId == wid
    ensures var a := AnimBlock(anims, showNum);
            !Pairs(a[2], a[|a| - 3], 2)
    ensures var b := AnimBlockCorrected(anims, showNum);
            Pairs(b[2], b[|b| - 3], 2)
  {
    Animations.OneWidgetKey(anims, wid);
    var list := Animations.ForWidget(anims, wid);
    GroupAsWrittenMismatch(wid, list, showNum);
    GroupBracketsMatch(wid, list, showNum);
  }

  /** The opening comment lines: the class name and the canvas size. */
  function Head(c: string, s: Settings, showNum: real -> string): seq<string> {
    ["// 由 UI 设计器自动生成",
     "// 类名: " + c,
     "// 画布尺寸: " + showNum(s.canvasWidth) + "x" + showNum(s.canvasHeight),
     "",
     "// 控件列表",
     "const widgets = ["]
  }

  function Tail(c: string): seq<string> {
    ["// 导出类",
     "export class " + c + " {",
     "  constructor() {",
     "    // 初始化代码",
     "  }",
     "}"]
  }

  /** `options.fileName || 'GeneratedUI'`. */
  function ClassName(fileName: string): (c: string)
    ensures c != "" && (fileName != "" ==> c == fileName)
  {
    if fileName != "" then fileName else ExportPanel.DefaultClass
  }

  /** The listing around a given animations object. */
  function ExportLines(ws: seq<Widget>, fileName: string, s: Settings, anim: seq<string>, showNum: real -> string): seq<string> {
    var c := ClassName(fileName);
    Head(c, s, showNum) + Commas(Entries(ws, showNum)) + ["];", ""] + anim + Tail(c)
  }

  /** `exportFunction` as the example writes it: nothing for an empty widget list, else the listing. */
  function Export(ws: seq<Widget>, fileName: string, s: Settings, anims: seq<Animation>, showNum: real -> string): (r: string)
    ensures r == "" <==> ws == []
  {
    if ws == [] then "" else Unlines(ExportLines(ws, fileName, s, AnimBlock(anims, showNum), showNum))
  }

  /** `exportFunction` with every animation list closed by `]`; without animations it is the example's listing. */
  function ExportCorrected(ws: seq<Widget>, fileName: string, s: Settings, anims: seq<Animation>, showNum: real -> string): (r: string)
    ensures r == "" <==> ws == []
    ensures anims == [] ==> r == Export(ws, fileName, s, anims, showNum)
  {
    if ws == [] then "" else Unlines(ExportLines(ws, fileName, s, AnimBlockCorrected(anims, showNum), showNum))
  }

  lemma LinesSections(ws: seq<Widget>, fileName: string, s: Settings, anim: seq<string>, showNum: real -> string)
    ensures var c := ClassName(fileName);
            Unlines(ExportLines(ws, fileName, s, anim, showNum))
            == Unlines(Head(c, s, showNum)) + Unlines(Commas(Entries(ws, showNum))) + Unlines(["];", ""])
               + Unlines(anim) + Unlines(Tail(c))
  {
    var c := ClassName(fileName);
    var h := Head(c, s, showNum);
    var b := Commas(Entries(ws, showNum));
    UnlinesAppend(h + b + ["];", ""] + anim, Tail(c));
    UnlinesAppend(h + b + ["];", ""], anim);
    UnlinesAppend(h + b, ["];", ""]);
    UnlinesAppend(h, b);
  }

  /** The example's listing is the comment head, the widgets array, the animations object and the class, in that order. */
  lemma ExportSections(ws: seq<Widget>, fileName: string, s: Settings, anims: seq<Animation>, showNum: real -> string)
    requires ws != []
    ensures var c := ClassName(fileName);
            Export(ws, fileName, s, anims, showNum)
            == Unlines(Head(c, s, showNum)) + Unlines(Commas(Entries(ws, showNum))) + Unlines(["];", ""])
               + Unlines(AnimBlock(anims, showNum)) + Unlines(Tail(c))
  {
    LinesSections(ws, fileName, s, AnimBlock(anims, showNum), showNum);
  }

  /** The corrected listing has the same sections, with the corrected animations object. */
  lemma ExportCorrectedSections(ws: seq<Widget>, fileName: string, s: Settings, anims: seq<Animation>, showNum: real -> string)
    requires ws != []
    ensures var c := ClassName(fileName);
            ExportCorrected(ws, fileName, s, anims, showNum)
            == Unlines(Head(c, s, showNum)) + Unlines(Commas(Entries(ws, showNum))) + Unlines(["];", ""])
               + Unlines(AnimBlockCorrected(anims, showNum)) + Unlines(Tail(c))
  {
    LinesSections(ws, fileName, s, AnimBlockCorrected(anims, showNum), showNum);
  }
}
