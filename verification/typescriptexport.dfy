/**
  The built-in TypeScript generator (`typescript-export`): a class whose
  `init` builds a nested array of widget configurations, one object per
  widget reachable from a root, followed by an optional `animations` record.

  As in the Lua generator, the widget part is a list of lines whose `Open`
  lines carry the index of their widget (not printed), so the lemmas can say
  which widget each object belongs to.
*/
module TypeScriptExport {
  import opened Wrappers
  import opened Types
  import opened JsText
  import opened CodeText
  import opened Forest
  import Animations
  import ExportPanel

  /** One line of the configuration array; `Close` ends an object, with a comma unless it is the last of its array. */
  datatype Line =
    | Raw(text: string)
    | Open(pad: nat, at: nat)
    | Close(pad: nat, last: bool)

  function Show(l: Line): string {
    match l
    case Raw(t) => t
    case Open(p, _) => Pad(p) + "{"
    case Close(p, last) => Pad(p) + "}" + (if last then "" else ",")
  }

  function ShowAll(ls: seq<Line>): (r: seq<string>)
    ensures |r| == |ls| && forall i :: 0 <= i < |ls| ==> r[i] == Show(ls[i])
  {
    seq(|ls|, i requires 0 <= i < |ls| => Show(ls[i]))
  }

  function Raws(ss: seq<string>): (ls: seq<Line>)
    ensures |ls| == |ss| && forall i :: 0 <= i < |ss| ==> ls[i] == Raw(ss[i])
  {
    seq(|ss|, i requires 0 <= i < |ss| => Raw(ss[i]))
  }

  // ---------------------------------------------------------------------
  // One widget object.

  /** `w.text && w.text.trim()`: a text that is set and not blank. */
  predicate ShowsText(t: Option<string>) {
    t.Some? && Trim(t.value) != ""
  }

  /** `w.image`: an image that is set and not empty. */
  predicate ShowsImage(i: Option<string>) {
    i.Some? && i.value != ""
  }

  /**
    The plain properties of a widget object: id, name and type as they are
    (the name is not escaped), the geometry rounded, then the text and the
    image when they are shown.
  */
  function Props(w: Widget, pad: nat): (ps: seq<string>)
    ensures |ps| == 7 + (if ShowsText(w.text) then 1 else 0) + (if ShowsImage(w.image) then 1 else 0)
  {
    var p := Pad(pad) + "    ";
    [p + "id: " + IntToString(w.id) + ",",
     p + "name: '" + w.name + "',",
     p + "type: '" + w.kind + "',",
     p + "x: " + IntToString(Round(w.x)) + ",",
     p + "y: " + IntToString(Round(w.y)) + ",",
     p + "w: " + IntToString(Round(w.w)) + ",",
     p + "h: " + IntToString(Round(w.h)) + ","]
    + (if ShowsText(w.text) then [QuotedProp(pad, "text", w.text.value)] else [])
    + (if ShowsImage(w.image) then [QuotedProp(pad, "image", w.image.value)] else [])
  }

  /** The text line, when there is one, holds the widget's text, and the image line its image. */
  lemma PropsReadBack(w: Widget, pad: nat)
    ensures var ps := Props(w, pad);
            ShowsText(w.text) ==> ReadProp(ps[7], pad, "text") == Some(w.text.value)
    ensures var ps := Props(w, pad);
            ShowsImage(w.image) ==> ReadProp(ps[|ps| - 1], pad, "image") == Some(w.image.value)
  {
    QuotedPropReadsBack(pad, "text", w.text.GetOr(""));
    QuotedPropReadsBack(pad, "image", w.image.GetOr(""));
  }

  /**
    `generateWidgetConfig(w, indent)`: the object's lines, with a `children`
    array eight columns deeper when the widget has children; `last` says
    whether the caller ends the object without a comma. The source recurses
    without bound; `fuel` bounds the depth.
  */
  function ConfigOne(ws: seq<Widget>, j: nat, indent: nat, last: bool, fuel: nat): (ls: seq<Line>)
    requires j < |ws|
    decreases fuel, 1, 0
  {
    [Open(indent, j)] + Raws(Props(ws[j], indent)) + ConfigKids(ws, j, indent, fuel) + [Close(indent, last)]
  }

  /** The `children: [ … ],` array of a widget, or nothing when it has no children. */
  function ConfigKids(ws: seq<Widget>, j: nat, indent: nat, fuel: nat): (ls: seq<Line>)
    requires j < |ws|
    decreases fuel, 0, 0
  {
    var cs := Children(ws, ws[j].id);
    if fuel > 0 && cs != [] then ChildArray(indent, ConfigList(ws, cs, indent + 8, fuel - 1)) else []
  }

  function ChildArray(indent: nat, inner: seq<Line>): seq<Line> {
    [Raw(Pad(indent) + "    children: [")] + inner + [Raw(Pad(indent) + "    ],")]
  }

  /** The objects of the widgets `cs`, separated by commas. */
  function ConfigList(ws: seq<Widget>, cs: seq<nat>, indent: nat, fuel: nat): (ls: seq<Line>)
    requires forall t :: 0 <= t < |cs| ==> cs[t] < |ws|
    decreases fuel, 2, |cs|
  {
    if cs == [] then [] else ConfigOne(ws, cs[0], indent, |cs| == 1, fuel) + ConfigList(ws, cs[1..], indent, fuel)
  }

  // ---------------------------------------------------------------------
  // Which objects the array holds, and in which order.

  /** The widgets whose objects the lines open, in order. */
  function Opens(ls: seq<Line>): seq<nat> {
    if ls == [] then []
    else (if ls[0].Open? then [ls[0].at] else []) + Opens(ls[1..])
  }

  lemma {:induction false} OpensAppend(a: seq<Line>, b: seq<Line>)
    ensures Opens(a + b) == Opens(a) + Opens(b)
  {
    if a != [] {
      OpensAppend(a[1..], b);
      assert (a + b)[1..] == a[1..] + b;
    } else {
      assert a + b == b;
    }
  }

  lemma {:induction false} OpensOfRaws(ls: seq<Line>)
    requires forall i :: 0 <= i < |ls| ==> ls[i].Raw?
    ensures Opens(ls) == []
  {
    if ls != [] {
      OpensOfRaws(ls[1..]);
    }
  }

  /** An object opens only for its own widget and the objects nested in it. */
  lemma OpensOfObject(j: nat, indent: nat, last: bool, ps: seq<Line>, kids: seq<Line>)
    requires forall i :: 0 <= i < |ps| ==> ps[i].Raw?
    ensures Opens([Open(indent, j)] + ps + kids + [Close(indent, last)]) == [j] + Opens(kids)
  {
    OpensAppend([Open(indent, j)] + ps + kids, [Close(indent, last)]);
    OpensAppend([Open(indent, j)] + ps, kids);
    OpensAppend([Open(indent, j)], ps);
    OpensOfRaws(ps);
    assert Opens([Close(indent, last)]) == [];
    assert Opens([Open(indent, j)]) == [j];
  }

  /** A bracketed array opens only the objects inside it. */
  lemma OpensOfArray(open: string, inner: seq<Line>, close: string)
    ensures Opens([Raw(open)] + inner + [Raw(close)]) == Opens(inner)
  {
    OpensAppend([Raw(open)] + inner, [Raw(close)]);
    OpensAppend([Raw(open)], inner);
    assert Opens([Raw(open)]) == [];
    assert Opens([Raw(close)]) == [];
  }

  lemma OpensOfChildArray(indent: nat, inner: seq<Line>)
    ensures Opens(ChildArray(indent, inner)) == Opens(inner)
  {
    OpensOfArray(Pad(indent) + "    children: [", inner, Pad(indent) + "    ],");
  }

  /** A widget's object opens for the widget and then, in the walk's order, for its descendants. */
  lemma {:induction false} ConfigOneOrder(ws: seq<Widget>, j: nat, indent: nat, last: bool, fuel: nat)
    requires j < |ws|
    ensures Opens(ConfigOne(ws, j, indent, last, fuel)) == [j] + Desc(ws, ws[j].id, fuel)
    decreases fuel, 1, 0
  {
    OpensOfObject(j, indent, last, Raws(Props(ws[j], indent)), ConfigKids(ws, j, indent, fuel));
    ConfigKidsOrder(ws, j, indent, fuel);
  }

  lemma {:induction false} ConfigKidsOrder(ws: seq<Widget>, j: nat, indent: nat, fuel: nat)
    requires j < |ws|
    ensures Opens(ConfigKids(ws, j, indent, fuel)) == Desc(ws, ws[j].id, fuel)
    decreases fuel, 0, 0
  {
    var cs := Children(ws, ws[j].id);
    if fuel > 0 && cs != [] {
      var inner := ConfigList(ws, cs, indent + 8, fuel - 1);
      ConfigListOrder(ws, cs, indent + 8, fuel - 1);
      KidsFromList(ws, j, cs, indent, fuel, inner);
    } else {
      NoKids(ws, j, indent, fuel);
    }
  }

  /** Without fuel or children there is no array and no descendant. */
  lemma NoKids(ws: seq<Widget>, j: nat, indent: nat, fuel: nat)
    requires j < |ws| && (fuel == 0 || Children(ws, ws[j].id) == [])
    ensures Opens(ConfigKids(ws, j, indent, fuel)) == Desc(ws, ws[j].id, fuel) == []
  {
  }

  /** The children's array opens what the list inside it opens. */
  lemma KidsFromList(ws: seq<Widget>, j: nat, cs: seq<nat>, indent: nat, fuel: nat, inner: seq<Line>)
    requires j < |ws| && fuel > 0 && cs == Children(ws, ws[j].id) && cs != []
    requires inner == ConfigList(ws, cs, indent + 8, fuel - 1) && Opens(inner) == DescAll(ws, cs, fuel - 1)
    ensures Opens(ConfigKids(ws, j, indent, fuel)) == Desc(ws, ws[j].id, fuel)
  {
    OpensOfChildArray(indent, inner);
  }

  /** Sibling objects open in the depth-first pre-order of the walk. */
  lemma {:induction false} ConfigListOrder(ws: seq<Widget>, cs: seq<nat>, indent: nat, fuel: nat)
    requires forall t :: 0 <= t < |cs| ==> cs[t] < |ws|
    ensures Opens(ConfigList(ws, cs, indent, fuel)) == DescAll(ws, cs, fuel)
    decreases fuel, 2, |cs|
  {
    if cs != [] {
      var one, rest := ConfigOne(ws, cs[0], indent, |cs| == 1, fuel), ConfigList(ws, cs[1..], indent, fuel);
      assert ConfigList(ws, cs, indent, fuel) == one + rest;
      ConfigOneOrder(ws, cs[0], indent, |cs| == 1, fuel);
      ConfigListOrder(ws, cs[1..], indent, fuel);
      OpensAppend(one, rest);
    }
  }

  // ---------------------------------------------------------------------
  // Commas between objects.

  /** The `last` flags of the object ends at column `pad`, in order. */
  function Lasts(ls: seq<Line>, pad: nat): seq<bool> {
    if ls == [] then []
    else (if ls[0].Close? && ls[0].pad == pad then [ls[0].last] else []) + Lasts(ls[1..], pad)
  }

  lemma {:induction false} LastsAppend(a: seq<Line>, b: seq<Line>, pad: nat)
    ensures Lasts(a + b, pad) == Lasts(a, pad) + Lasts(b, pad)
  {
    if a != [] {
      LastsAppend(a[1..], b, pad);
      assert (a + b)[1..] == a[1..] + b;
    } else {
      assert a + b == b;
    }
  }

  /** Lines with no object end at column `pad` contribute no flag. */
  lemma {:induction false} LastsNone(ls: seq<Line>, pad: nat)
    requires forall i :: 0 <= i < |ls| ==> !(ls[i].Close? && ls[i].pad == pad)
    ensures Lasts(ls, pad) == []
  {
    if ls != [] {
      LastsNone(ls[1..], pad);
    }
  }

  /** Every object end of a run of siblings is at least as deep as the run. */
  lemma {:induction false} ConfigListDepth(ws: seq<Widget>, cs: seq<nat>, indent: nat, fuel: nat)
    requires forall t :: 0 <= t < |cs| ==> cs[t] < |ws|
    ensures forall l :: l in ConfigList(ws, cs, indent, fuel) && l.Close? ==> l.pad >= indent
    decreases fuel, 2, |cs|
  {
    if cs != [] {
      ConfigOneDepth(ws, cs[0], indent, |cs| == 1, fuel);
      ConfigListDepth(ws, cs[1..], indent, fuel);
    }
  }

  lemma {:induction false} ConfigOneDepth(ws: seq<Widget>, j: nat, indent: nat, last: bool, fuel: nat)
    requires j < |ws|
    ensures forall l :: l in ConfigOne(ws, j, indent, last, fuel) && l.Close? ==> l.pad >= indent
    decreases fuel, 1, 0
  {
    ConfigKidsDepth(ws, j, indent, fuel);
    assert forall l :: l in Raws(Props(ws[j], indent)) ==> l.Raw?;
  }

  /** The objects nested in a widget's object end deeper than it does. */
  lemma {:induction false} ConfigKidsDepth(ws: seq<Widget>, j: nat, indent: nat, fuel: nat)
    requires j < |ws|
    ensures forall l :: l in ConfigKids(ws, j, indent, fuel) && l.Close? ==> l.pad > indent
    decreases fuel, 0, 0
  {
    var cs := Children(ws, ws[j].id);
    if fuel > 0 && cs != [] {
      ConfigListDepth(ws, cs, indent + 8, fuel - 1);
    }
  }

  /**
    Every object of an array but the last ends with a comma, and the last
    without one (the `index < length - 1 ? ',\n' : '\n'` pattern): the ends
    at the array's own column carry the flags false, …, false, true.
  */
  lemma {:induction false} ConfigListCommas(ws: seq<Widget>, cs: seq<nat>, indent: nat, fuel: nat)
    requires forall t :: 0 <= t < |cs| ==> cs[t] < |ws|
    ensures Lasts(ConfigList(ws, cs, indent, fuel), indent) == LastFlags(|cs|)
    decreases |cs|
  {
    if cs != [] {
      var one, rest := ConfigOne(ws, cs[0], indent, |cs| == 1, fuel), ConfigList(ws, cs[1..], indent, fuel);
      assert ConfigList(ws, cs, indent, fuel) == one + rest;
      ConfigListCommas(ws, cs[1..], indent, fuel);
      ConfigOneLasts(ws, cs[0], indent, |cs| == 1, fuel);
      LastsAppend(one, rest, indent);
      LastFlagsCons(|cs|);
    }
  }

  /** `n` flags, only the last of them set. */
  function LastFlags(n: nat): (fs: seq<bool>)
    ensures |fs| == n && forall i :: 0 <= i < n ==> (fs[i] <==> i == n - 1)
  {
    seq(n, i => i == n - 1)
  }

  lemma LastFlagsCons(n: nat)
    requires n >= 1
    ensures LastFlags(n) == [n == 1] + LastFlags(n - 1)
  {
    assert forall i :: 0 <= i < n ==> LastFlags(n)[i] == ([n == 1] + LastFlags(n - 1))[i];
  }

  /** A widget's object has exactly one end at its own column, the one with its own flag. */
  lemma ConfigOneLasts(ws: seq<Widget>, j: nat, indent: nat, last: bool, fuel: nat)
    requires j < |ws|
    ensures Lasts(ConfigOne(ws, j, indent, last, fuel), indent) == [last]
  {
    var ps := Raws(Props(ws[j], indent));
    var kids := ConfigKids(ws, j, indent, fuel);
    ConfigKidsDepth(ws, j, indent, fuel);
    LastsNone(kids, indent);
    LastsNone(ps, indent);
    LastsAppend([Open(indent, j)] + ps + kids, [Close(indent, last)], indent);
    LastsAppend([Open(indent, j)] + ps, kids, indent);
    LastsAppend([Open(indent, j)], ps, indent);
    assert Lasts([Open(indent, j)], indent) == [];
    assert Lasts([Close(indent, last)], indent) == [last];
  }

  /** The configuration array of an export: the roots at column 12, each followed by its subtree. */
  function ConfigLines(ws: seq<Widget>): seq<Line> {
    ConfigList(ws, Roots(ws), 12, |ws|)
  }

  /**
    The objects appear in the depth-first part of the editor's render order,
    and with unique ids and acyclic links every root and every widget below a
    root appears exactly once.
  */
  lemma ConfigLinesComplete(ws: seq<Widget>)
    ensures Opens(ConfigLines(ws)) == DescAll(ws, Roots(ws), |ws|)
    ensures UniqueIds(ws) && Acyclic(ws) ==> NoDup(Opens(ConfigLines(ws)))
    ensures UniqueIds(ws) && Acyclic(ws) ==> forall j :: 0 <= j < |ws| ==>
              (j in Opens(ConfigLines(ws)) <==> ws[j].parentId.None? || exists r :: 0 <= r < |ws| && ws[r].parentId.None? && Above(ws, ws[r].id, ws[j].id))
  {
    ConfigListOrder(ws, Roots(ws), 12, |ws|);
    if UniqueIds(ws) && Acyclic(ws) {
      RootWalkComplete(ws);
    }
  }

  // ---------------------------------------------------------------------
  // The animations record.

  /** `p.toX !== undefined || …`: the `params` block, holding the fields that are set; none when no field is. */
  function ParamLines(p: Option<AnimParams>, showNum: real -> string): (ls: seq<string>)
    ensures ls == [] <==> p.None? || (p.value.toX.None? && p.value.toY.None? && p.value.tweenType.None?)
    ensures ls != [] ==> ls[0] == "                params: {" && ls[|ls| - 1] == "                },"
    ensures ls != [] ==> |ls| == 2 + (if p.value.toX.Some? then 1 else 0) + (if p.value.toY.Some? then 1 else 0) + (if p.value.tweenType.Some? then 1 else 0)
  {
    var q := p.GetOr(AnimParams(None, None, None));
    if q.toX.None? && q.toY.None? && q.tweenType.None? then []
    else
      ["                params: {"]
      + (if q.toX.Some? then ["                    toX: " + showNum(q.toX.value) + ","] else [])
      + (if q.toY.Some? then ["                    toY: " + showNum(q.toY.value) + ","] else [])
      + (if q.tweenType.Some? then ["                    tweenType: " + IntToString(q.tweenType.value) + ","] else [])
      + ["                },"]
  }

  /** One animation object: name and type unescaped, duration and delay 0 when unset, the loop flag, the parameters. */
  function AnimEntry(a: Animations.Exported, showNum: real -> string): (ls: seq<string>)
    ensures |ls| >= 7 && ls[0] == "            {" && ls[|ls| - 1] == "            }"
    ensures ls[6..|ls| - 1] == ParamLines(a.params, showNum)
  {
    ["            {",
     "                name: '" + a.name + "',",
     "                type: '" + a.kind + "',",
     "                duration: " + showNum(a.duration.GetOr(0.0)) + ",",
     "                delay: " + showNum(a.delay.GetOr(0.0)) + ",",
     "                loop: " + (if a.loop == Some(true) then "true" else "false") + ","]
    + ParamLines(a.params, showNum) + ["            }"]
  }

  function AnimEntries(list: seq<Animations.Exported>, showNum: real -> string): (bs: seq<seq<string>>)
    ensures |bs| == |list| && forall k :: 0 <= k < |bs| ==> bs[k] == AnimEntry(list[k], showNum)
  {
    seq(|list|, k requires 0 <= k < |list| => AnimEntry(list[k], showNum))
  }

  /** The list of one widget's animations as the source writes it: opened with `[`, closed with `}`. */
  function GroupAsWritten(wid: int, list: seq<Animations.Exported>, showNum: real -> string): (ls: seq<string>)
    ensures |ls| >= 2 && ls[0] == "        " + IntToString(wid) + ": [" && ls[|ls| - 1] == "        }"
  {
    ["        " + IntToString(wid) + ": ["] + Commas(AnimEntries(list, showNum)) + ["        }"]
  }

  /** The source's list of a widget's animations is not closed by the bracket that opens it. */
  lemma GroupAsWrittenMismatch(wid: int, list: seq<Animations.Exported>, showNum: real -> string)
    ensures var g := GroupAsWritten(wid, list, showNum);
            !Pairs(g[0], g[|g| - 1], 8)
  {
    var g := GroupAsWritten(wid, list, showNum);
    assert g[0][|g[0]| - 1] == '[';
    assert g[|g| - 1][8] == '}';
  }

  /** The list of one widget's animations, closed with the `]` that matches its opening. */
  function Group(wid: int, list: seq<Animations.Exported>, showNum: real -> string): (ls: seq<string>)
    ensures |ls| >= 2 && ls[0] == "        " + IntToString(wid) + ": [" && ls[|ls| - 1] == "        ]"
    ensures |ls| == 2 + |Flatten(AnimEntries(list, showNum))|
    ensures ls[1..|ls| - 1] == Commas(AnimEntries(list, showNum))
  {
    ["        " + IntToString(wid) + ": ["] + Commas(AnimEntries(list, showNum)) + ["        ]"]
  }

  /** Each widget's list is closed at its own column by the bracket that opens it. */
  lemma GroupBracketsMatch(wid: int, list: seq<Animations.Exported>, showNum: real -> string)
    ensures var g := Group(wid, list, showNum);
            Pairs(g[0], g[|g| - 1], 8)
  {
    var g := Group(wid, list, showNum);
    assert g[0][|g[0]| - 1] == '[';
    assert g[|g| - 1][8] == ']';
  }

  /** Every animation object is closed at its own column by the brace that opens it. */
  lemma EntryBracesMatch(a: Animations.Exported, showNum: real -> string)
    ensures var e := AnimEntry(a, showNum);
            Pairs(e[0], e[|e| - 1], 12)
  {
    var e := AnimEntry(a, showNum);
    assert e[0][|e[0]| - 1] == '{';
    assert e[|e| - 1][12] == '}';
  }

  /** The groups as the source writes them, in the order their widget ids are visited. */
  function GroupBlocksAsWritten(groups: seq<(int, seq<Animations.Exported>)>, showNum: real -> string): (bs: seq<seq<string>>)
    ensures |bs| == |groups| && forall k :: 0 <= k < |bs| ==> bs[k] == GroupAsWritten(groups[k].0, groups[k].1, showNum)
  {
    seq(|groups|, k requires 0 <= k < |groups| => GroupAsWritten(groups[k].0, groups[k].1, showNum))
  }

  /** The corrected groups, in the order their widget ids are visited. */
  function GroupBlocks(groups: seq<(int, seq<Animations.Exported>)>, showNum: real -> string): (bs: seq<seq<string>>)
    ensures |bs| == |groups| && forall k :: 0 <= k < |bs| ==> bs[k] == Group(groups[k].0, groups[k].1, showNum)
  {
    seq(|groups|, k requires 0 <= k < |groups| => Group(groups[k].0, groups[k].1, showNum))
  }

  const AnimHeader: seq<string> :=
    ["    // 动画数据（由编辑器导出，按控件 id 分组）",
     "    public animations: Record<number, Array<{",
     "        name: string;",
     "        type: string;",
     "        duration: number;",
     "        delay: number;",
     "        loop: boolean;",
     "        params?: {",
     "            toX?: number;",
     "            toY?: number;",
     "            tweenType?: number;",
     "        };",
     "    }>> = {"]

  /**
    The `animations` record as the source writes it: nothing when there are no
    groups, else the declaration, the groups separated by commas, and `};`.
  */
  function AnimBlock(anims: seq<Animation>, showNum: real -> string): (ls: seq<string>)
    ensures ls == [] <==> anims == []
    ensures anims != [] ==> |ls| >= |AnimHeader| + 3 && ls[..|AnimHeader|] == AnimHeader && ls[|ls| - 2..] == ["    };", ""]
    ensures anims != [] ==> ls[|ls| - 3] == "        }"
    ensures anims != [] ==> ls[|AnimHeader|] == "        " + IntToString(Animations.KeyIds(anims)[0]) + ": ["
  {
    if anims == [] then [] else AnimRecord(Commas(GroupBlocksAsWritten(Animations.ExportedGroups(anims), showNum)))
  }

  /** The `animations` record with every list closed by `]`. */
  function AnimBlockCorrected(anims: seq<Animation>, showNum: real -> string): (ls: seq<string>)
    ensures ls == [] <==> anims == []
    ensures anims != [] ==> |ls| >= |AnimHeader| + 3 && ls[..|AnimHeader|] == AnimHeader && ls[|ls| - 2..] == ["    };", ""]
    ensures anims != [] ==> ls[|ls| - 3] == "        ]"
    ensures anims != [] ==> ls[|AnimHeader|] == "        " + IntToString(Animations.KeyIds(anims)[0]) + ": ["
  {
    if anims == [] then [] else AnimRecord(Commas(GroupBlocks(Animations.ExportedGroups(anims), showNum)))
  }

  /**
    With one animated widget, the record the source writes opens that widget's
    list with `[` and closes it with `}`; the corrected record closes it with
    the matching `]`.
  */
  lemma {:induction false} OneGroupRecord(anims: seq<Animation>, wid: int, showNum: real -> string)
    requires anims != []
    requires forall k :: 0 <= k < |anims| ==> anims[k].widgetId == wid
    ensures var a := AnimBlock(anims, showNum);
            !Pairs(a[|AnimHeader|], a[|a| - 3], 8)
    ensures var b := AnimBlockCorrected(anims, showNum);
            Pairs(b[|AnimHeader|], b[|b| - 3], 8)
  {
    Animations.OneWidgetKey(anims, wid);
    var list := Animations.ForWidget(anims, wid);
    GroupAsWrittenMismatch(wid, list, showNum);
    GroupBracketsMatch(wid, list, showNum);
  }

  /** The declaration of the record around its entries. */
  function AnimRecord(body: seq<string>): (ls: seq<string>)
    ensures |ls| == |AnimHeader| + |body| + 2 && ls[..|AnimHeader|] == AnimHeader && ls[|ls| - 2..] == ["    };", ""]
    ensures body != [] ==> ls[|AnimHeader|] == body[0]
  {
    var r := AnimHeader + body + ["    };", ""];
    assert r[..|AnimHeader|] == AnimHeader;
    r
  }

  // ---------------------------------------------------------------------
  // The whole file.

  function Head(c: string): seq<string> {
    ["/**",
     " * 由 Vue UI 设计器自动生成",
     " * 你可以根据需要修改此文件",
     " */",
     "",
     "import { Panel, Button, Text } from './ui-framework';",
     "",
     "interface WidgetConfig {",
     "    id: number;",
     "    name: string;",
     "    type: string;",
     "    x: number;",
     "    y: number;",
     "    w: number;",
     "    h: number;",
     "    text?: string;",
     "    image?: string;",
     "    children?: WidgetConfig[];",
     "}",
     "",
     "export class " + c + " extends Panel {",
     "    private widgets: Map<number, any> = new Map();",
     "",
     "    constructor() {",
     "        super({",
     "            x: 0,",
     "            y: 0,",
     "            w: 1920,",
     "            h: 1080,",
     "        });",
     "        this.init();",
     "    }",
     "",
     "    private init(): void {",
     "        const configs: WidgetConfig[] = ["]
  }

  const Middle: seq<string> :=
    ["        ];",
     "",
     "        this.createWidgets(configs, this);",
     "    }",
     "",
     "    private createWidgets(configs: WidgetConfig[], parent: any): void {",
     "        for (const config of configs) {",
     "            let widget: any;",
     "            switch (config.type) {",
     "                case 'button':",
     "                    widget = new Button(config);",
     "                    break;",
     "                case 'text':",
     "                case 'label':",
     "                    widget = new Text(config);",
     "                    break;",
     "                default:",
     "                    widget = new Panel(config);",
     "            }",
     "            this.widgets.set(config.id, widget);",
     "            parent.addChild(widget);",
     "            if (config.children) {",
     "                this.createWidgets(config.children, widget);",
     "            }",
     "        }",
     "    }",
     ""]

  const Tail: seq<string> :=
    ["    public getWidget(id: number): any {",
     "        return this.widgets.get(id);",
     "    }",
     "}"]

  /** `options.fileName || 'GeneratedUI'`. */
  function ClassName(fileName: string): (c: string)
    ensures c != "" && (fileName != "" ==> c == fileName)
  {
    if fileName != "" then fileName else ExportPanel.DefaultClass
  }

  /** The file around a given animations record. */
  function ExportLines(ws: seq<Widget>, fileName: string, anim: seq<string>): seq<string> {
    Head(ClassName(fileName)) + ShowAll(ConfigLines(ws)) + Middle + anim + Tail
  }

  /**
    `exportFunction` as the source writes it: nothing for an empty widget list,
    else the class text. `anims` is the animation list whose
    `getAnimationsForExport()` is passed in, and `showNum` prints a JavaScript
    number.
  */
  function Export(ws: seq<Widget>, fileName: string, anims: seq<Animation>, showNum: real -> string): (r: string)
    ensures r == "" <==> ws == []
  {
    if ws == [] then "" else Unlines(ExportLines(ws, fileName, AnimBlock(anims, showNum)))
  }

  /** `exportFunction` with every animation list closed by `]`; without animations it is the source's text. */
  function ExportCorrected(ws: seq<Widget>, fileName: string, anims: seq<Animation>, showNum: real -> string): (r: string)
    ensures r == "" <==> ws == []
    ensures anims == [] ==> r == Export(ws, fileName, anims, showNum)
  {
    if ws == [] then "" else Unlines(ExportLines(ws, fileName, AnimBlockCorrected(anims, showNum)))
  }

  lemma LinesSections(ws: seq<Widget>, fileName: string, anim: seq<string>)
    ensures Unlines(ExportLines(ws, fileName, anim))
            == Unlines(Head(ClassName(fileName))) + Unlines(ShowAll(ConfigLines(ws))) + Unlines(Middle)
               + Unlines(anim) + Unlines(Tail)
  {
    var h := Head(ClassName(fileName));
    var b := ShowAll(ConfigLines(ws));
    UnlinesAppend(h + b + Middle + anim, Tail);
    UnlinesAppend(h + b + Middle, anim);
    UnlinesAppend(h + b, Middle);
    UnlinesAppend(h, b);
  }

  /** The source's text is the class head, the configuration array, the fixed middle, the animations record and the tail, in that order. */
  lemma ExportSections(ws: seq<Widget>, fileName: string, anims: seq<Animation>, showNum: real -> string)
    requires ws != []
    ensures Export(ws, fileName, anims, showNum)
            == Unlines(Head(ClassName(fileName))) + Unlines(ShowAll(ConfigLines(ws))) + Unlines(Middle)
               + Unlines(AnimBlock(anims, showNum)) + Unlines(Tail)
  {
    LinesSections(ws, fileName, AnimBlock(anims, showNum));
  }

  /** The corrected text has the same sections, with the corrected animations record. */
  lemma ExportCorrectedSections(ws: seq<Widget>, fileName: string, anims: seq<Animation>, showNum: real -> string)
    requires ws != []
    ensures ExportCorrected(ws, fileName, anims, showNum)
            == Unlines(Head(ClassName(fileName))) + Unlines(ShowAll(ConfigLines(ws))) + Unlines(Middle)
               + Unlines(AnimBlockCorrected(anims, showNum)) + Unlines(Tail)
  {
    LinesSections(ws, fileName, AnimBlockCorrected(anims, showNum));
  }
}
