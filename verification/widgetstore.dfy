/**
  The widget list, the id counter and the selection, with the edits of
  `useWidgets`: add, subtree translate, cascading delete, clear, the render
  order, and the derived "selected widget" and "parent candidates".
*/
module WidgetStore {
  import opened Wrappers
  import opened Types
  import opened Forest
  import opened JsText

  /** The editor's widget state: the list, the next id to hand out, and the selected ids in order. */
  datatype Doc = Doc(widgets: seq<Widget>, nextId: int, selected: seq<int>)

  /** Ids are unique and all below the counter, so the next id handed out is fresh. */
  predicate Wf(d: Doc) {
    UniqueIds(d.widgets) && forall i :: 0 <= i < |d.widgets| ==> d.widgets[i].id < d.nextId
  }

  /**
    `ws.reduce((m, w) => Math.max(m, w.id || 0), 0)`: the largest id, or 0 when
    the list is empty or every id is negative.
  */
  function MaxId(ws: seq<Widget>): (m: int)
    ensures m >= 0
    ensures forall i :: 0 <= i < |ws| ==> ws[i].id <= m
    ensures m == 0 || exists i :: 0 <= i < |ws| && ws[i].id == m
  {
    if ws == [] then 0
    else
      var m := MaxId(ws[..|ws| - 1]);
      var last := ws[|ws| - 1].id;
      if m < last then last else m
  }

  /** The text a new widget starts with. */
  function DefaultText(kind: string): (t: string)
    ensures kind == "text" ==> t == "文本"
    ensures kind == "button" ==> t == "按钮"
    ensures kind != "text" && kind != "button" ==> t == ""
  {
    if kind == "text" then "文本" else if kind == "button" then "按钮" else ""
  }

  /** The widget `addWidget(kind)` creates with id `id`. */
  function NewWidget(kind: string, id: int): Widget {
    Widget(id, kind + "_" + IntToString(id), kind, None,
      960.0, 540.0, 100.0, 100.0,
      true, true, false,
      Some(DefaultText(kind)),
      Some(""), Some(14.0), Some(0.0), Some("top_left"),
      Some(""), Some(""), Some(""), Some(false), Some(false), Some(0),
      None)
  }

  /** `addWidget`: append a fresh root widget with the next id and select only it. */
  function AddWidget(d: Doc, kind: string): (r: Doc)
    ensures r.nextId == d.nextId + 1
    ensures |r.widgets| == |d.widgets| + 1 && r.widgets[..|d.widgets|] == d.widgets
    ensures var w := r.widgets[|d.widgets|];
            && w.id == d.nextId && w.kind == kind && w.parentId.None?
            && w.name == kind + "_" + IntToString(d.nextId)
            && (w.x, w.y, w.w, w.h) == (960.0, 540.0, 100.0, 100.0)
            && w.enable && w.visible && !w.locked
            && w.text == Some(DefaultText(kind))
    ensures r.selected == [d.nextId]
  {
    Doc(d.widgets + [NewWidget(kind, d.nextId)], d.nextId + 1, [d.nextId])
  }

  /** Adding keeps ids unique and below the counter. */
  lemma AddWidgetWf(d: Doc, kind: string)
    requires Wf(d)
    ensures Wf(AddWidget(d, kind))
  {
    var ws := AddWidget(d, kind).widgets;
    assert forall i :: 0 <= i < |d.widgets| ==> ws[i] == d.widgets[i];
  }

  /** `clearAll`. */
  function ClearAll(d: Doc): (r: Doc)
    ensures r.widgets == [] && r.selected == [] && r.nextId == 1
    ensures Wf(r)
  {
    Doc([], 1, [])
  }

  /** `selectedWidget`: the widget whose id is the first selected id, if any. */
  function SelectedWidget(d: Doc): (r: Option<Widget>)
    ensures r.Some? <==> d.selected != [] && d.selected[0] in Ids(d.widgets)
    ensures r.Some? ==> r.value.id == d.selected[0] && r.value in d.widgets
    ensures r.Some? ==> forall j :: 0 <= j < |d.widgets| && d.widgets[j].id == r.value.id ==> d.widgets[j] == r.value || exists i :: 0 <= i < j && d.widgets[i] == r.value
  {
    if d.selected == [] then None else Find(d.widgets, d.selected[0])
  }

  /** `ws.filter(w => !dead.has(w.id))`. */
  function Keep(ws: seq<Widget>, dead: set<int>): (r: seq<Widget>)
    ensures |r| <= |ws|
    ensures forall w :: w in r <==> w in ws && w.id !in dead
  {
    if ws == [] then [] else (if ws[0].id in dead then [] else [ws[0]]) + Keep(ws[1..], dead)
  }

  /** Filtering keeps the survivors in their original order. */
  lemma {:induction false} KeepConcat(a: seq<Widget>, b: seq<Widget>, dead: set<int>)
    ensures Keep(a + b, dead) == Keep(a, dead) + Keep(b, dead)
  {
    if a != [] {
      var head := if a[0].id in dead then [] else [a[0]];
      assert (a + b)[0] == a[0];
      assert (a + b)[1..] == a[1..] + b;
      assert Keep(a + b, dead) == head + Keep(a[1..] + b, dead);
      assert Keep(a, dead) == head + Keep(a[1..], dead);
      KeepConcat(a[1..], b, dead);
      assert head + (Keep(a[1..], dead) + Keep(b, dead)) == (head + Keep(a[1..], dead)) + Keep(b, dead);
    } else {
      assert a + b == b;
    }
  }

  /** `parentCandidates`: every widget except the selected one. */
  function ParentCandidates(d: Doc): (r: seq<Widget>)
    ensures SelectedWidget(d).None? ==> r == d.widgets
    ensures SelectedWidget(d).Some? ==> forall w :: w in r <==> w in d.widgets && w.id != d.selected[0]
  {
    var s := SelectedWidget(d);
    if s.None? then d.widgets else Keep(d.widgets, {s.value.id})
  }

  function Translate(w: Widget, dx: real, dy: real): Widget {
    w.(x := w.x + dx, y := w.y + dy)
  }

  /** How often `j` occurs in `s`. */
  function Occurrences(s: seq<nat>, j: nat): nat {
    if s == [] then 0 else (if s[0] == j then 1 else 0) + Occurrences(s[1..], j)
  }

  /** Translate the widget at each listed index, once per occurrence in the list. */
  function ShiftAt(ws: seq<Widget>, at: seq<nat>, dx: real, dy: real): (r: seq<Widget>)
    requires forall t :: 0 <= t < |at| ==> at[t] < |ws|
    ensures |r| == |ws|
    ensures forall j :: 0 <= j < |ws| ==> r[j] == ws[j].(x := r[j].x, y := r[j].y)
    decreases |at|
  {
    if at == [] then ws
    else ShiftAt(ws[at[0] := Translate(ws[at[0]], dx, dy)], at[1..], dx, dy)
  }

  /** `n` copies of `d` added up. */
  function Times(n: nat, d: real): real {
    if n == 0 then 0.0 else d + Times(n - 1, d)
  }

  /** A widget listed `n` times ends up translated `n` times by the offset. */
  lemma {:induction false} ShiftAtCounts(ws: seq<Widget>, at: seq<nat>, dx: real, dy: real, j: nat)
    requires forall t :: 0 <= t < |at| ==> at[t] < |ws|
    requires j < |ws|
    ensures ShiftAt(ws, at, dx, dy)[j] == Translate(ws[j], Times(Occurrences(at, j), dx), Times(Occurrences(at, j), dy))
    decreases |at|
  {
    if at != [] {
      var ws' := ws[at[0] := Translate(ws[at[0]], dx, dy)];
      ShiftAtCounts(ws', at[1..], dx, dy, j);
    }
  }

  /** `move(child.id)` finds the first widget with the child's id. */
  function FirstOfEach(ws: seq<Widget>, cs: seq<nat>): (r: seq<nat>)
    requires forall t :: 0 <= t < |cs| ==> cs[t] < |ws|
    ensures |r| == |cs|
    ensures forall t :: 0 <= t < |r| ==> r[t] == IndexOf(ws, ws[cs[t]].id) && r[t] < |ws|
  {
    if cs == [] then [] else [IndexOf(ws, ws[cs[0]].id) as nat] + FirstOfEach(ws, cs[1..])
  }

  /** The indices the recursive `move` visits from `rootId`, in visiting order; empty if the root is missing. */
  function MoveVisits(ws: seq<Widget>, rootId: int): (v: seq<nat>)
    ensures forall t :: 0 <= t < |v| ==> v[t] < |ws|
  {
    var r := IndexOf(ws, rootId);
    if r < 0 then [] else [r as nat] + FirstOfEach(ws, Desc(ws, rootId, |ws|))
  }

  /** `moveWidgetWithChildren(rootId, dx, dy)`. */
  function MoveWidgetWithChildren(ws: seq<Widget>, rootId: int, dx: real, dy: real): (r: seq<Widget>)
    ensures |r| == |ws|
    ensures forall j :: 0 <= j < |ws| ==> r[j] == ws[j].(x := r[j].x, y := r[j].y)
    ensures rootId !in Ids(ws) ==> r == ws
  {
    ShiftAt(ws, MoveVisits(ws, rootId), dx, dy)
  }

  /** `rootId` is `x` itself or one of its ancestors. */
  ghost predicate InSubtree(ws: seq<Widget>, x: int, rootId: int) {
    x == rootId || Above(ws, rootId, x)
  }

  lemma NoDupCount(s: seq<nat>, j: nat)
    requires NoDup(s)
    ensures Occurrences(s, j) == if j in s then 1 else 0
  {
    if s != [] {
      NoDupCount(s[1..], j);
    }
  }

  /**
    With unique ids and acyclic links, the move translates exactly the root
    and its transitive descendants, each once, and nothing else.
  */
  lemma MoveTranslatesSubtree(ws: seq<Widget>, rootId: int, dx: real, dy: real)
    requires UniqueIds(ws) && Acyclic(ws)
    ensures forall j :: 0 <= j < |ws| ==>
      MoveWidgetWithChildren(ws, rootId, dx, dy)[j]
        == if rootId in Ids(ws) && InSubtree(ws, ws[j].id, rootId) then Translate(ws[j], dx, dy) else ws[j]
  {
    var v := MoveVisits(ws, rootId);
    if IndexOf(ws, rootId) >= 0 {
      forall j: nat | j < |ws|
        ensures MoveWidgetWithChildren(ws, rootId, dx, dy)[j]
          == if InSubtree(ws, ws[j].id, rootId) then Translate(ws[j], dx, dy) else ws[j]
      {
        MoveVisitsCount(ws, rootId, j);
        ShiftAtCounts(ws, v, dx, dy, j);
      }
    } else {
      assert Find(ws, rootId).None?;
    }
  }

  /** Under the same conditions the move visits each widget of the subtree exactly once. */
  lemma MoveVisitsCount(ws: seq<Widget>, rootId: int, j: nat)
    requires UniqueIds(ws) && Acyclic(ws) && j < |ws| && IndexOf(ws, rootId) >= 0
    ensures Occurrences(MoveVisits(ws, rootId), j) == if InSubtree(ws, ws[j].id, rootId) then 1 else 0
  {
    var d := Desc(ws, rootId, |ws|);
    assert Occurrences(MoveVisits(ws, rootId), j) == if ws[j].id == rootId || j in d then 1 else 0 by {
      MoveVisitsShape(ws, rootId);
      SubtreeCount(ws, rootId, j);
    }
    assert j in d <==> Above(ws, rootId, ws[j].id) by {
      DescDeepEnough(ws, rootId, |ws|, j);
    }
  }

  lemma SubtreeCount(ws: seq<Widget>, rootId: int, j: nat)
    requires UniqueIds(ws) && j < |ws| && IndexOf(ws, rootId) >= 0
    requires NoDup([IndexOf(ws, rootId) as nat] + Desc(ws, rootId, |ws|))
    ensures Occurrences([IndexOf(ws, rootId) as nat] + Desc(ws, rootId, |ws|), j)
      == if ws[j].id == rootId || j in Desc(ws, rootId, |ws|) then 1 else 0
  {
    var r: nat := IndexOf(ws, rootId);
    var d := Desc(ws, rootId, |ws|);
    NoDupCount([r] + d, j);
    IndexOfUnique(ws, j);
    SubtreeIndices(ws, rootId, r, d, j);
  }

  /** The root's index or a descendant's index: exactly the widgets of the subtree. */
  lemma SubtreeIndices(ws: seq<Widget>, rootId: int, r: nat, d: seq<nat>, j: nat)
    requires j < |ws| && r == IndexOf(ws, rootId) && IndexOf(ws, ws[j].id) == j
    ensures j in [r] + d <==> ws[j].id == rootId || j in d
  {
    assert j in [r] + d <==> j == r || j in d;
  }

  /** The move visits the root, then its descendants, each once. */
  lemma MoveVisitsShape(ws: seq<Widget>, rootId: int)
    requires UniqueIds(ws) && Acyclic(ws) && IndexOf(ws, rootId) >= 0
    ensures MoveVisits(ws, rootId) == [IndexOf(ws, rootId) as nat] + Desc(ws, rootId, |ws|)
    ensures NoDup(MoveVisits(ws, rootId))
  {
    var r: nat := IndexOf(ws, rootId);
    var d := Desc(ws, rootId, |ws|);
    FirstOfEachUnique(ws, d);
    RootNotBelowItself(ws, rootId, r);
    DescNoDup(ws, rootId, |ws|);
    NoDupConcat([r], d);
  }

  /** With unique ids, looking an index's id up again gives the same index. */
  lemma FirstOfEachUnique(ws: seq<Widget>, d: seq<nat>)
    requires UniqueIds(ws) && forall t :: 0 <= t < |d| ==> d[t] < |ws|
    ensures FirstOfEach(ws, d) == d
  {
    forall t | 0 <= t < |d| ensures IndexOf(ws, ws[d[t]].id) == d[t] {
      IndexOfUnique(ws, d[t]);
    }
  }

  /** In an acyclic list a widget is not among its own descendants. */
  lemma RootNotBelowItself(ws: seq<Widget>, rootId: int, r: nat)
    requires UniqueIds(ws) && Acyclic(ws) && r < |ws| && ws[r].id == rootId
    ensures r !in Desc(ws, rootId, |ws|)
  {
    DescDeepEnough(ws, rootId, |ws|, r);
    forall k: nat | k >= 1 ensures Lift(ws, rootId, k) != Some(rootId) {
      NoCycle(ws, rootId, k);
    }
  }

  /** Moving keeps ids and the counter, so it keeps the store well formed. */
  lemma MoveWf(d: Doc, rootId: int, dx: real, dy: real)
    requires Wf(d)
    ensures Wf(d.(widgets := MoveWidgetWithChildren(d.widgets, rootId, dx, dy)))
  {
  }

  /** The ids one `deleteRecursive(id)` call adds: `id` and the ids of its descendants. */
  function SubtreeIds(ws: seq<Widget>, id: int): set<int> {
    {id} + set c | c in Desc(ws, id, |ws|) :: ws[c].id
  }

  /** The `toDelete` set built by `deleteSelected`: the selected ids and the ids below each of them. */
  function Closure(ws: seq<Widget>, sel: seq<int>): (dead: set<int>)
    ensures forall s :: s in sel ==> s in dead
  {
    if sel == [] then {} else SubtreeIds(ws, sel[0]) + Closure(ws, sel[1..])
  }

  /** `deleteSelected`: drop the selected widgets and everything below them, and clear the selection. */
  function DeleteSelected(d: Doc): (r: Doc)
    ensures r.selected == [] && r.nextId == d.nextId
    ensures forall w :: w in r.widgets ==> w in d.widgets && w.id !in d.selected
    ensures |r.widgets| <= |d.widgets|
  {
    Doc(Keep(d.widgets, Closure(d.widgets, d.selected)), d.nextId, [])
  }

  /** `x` is selected or has a selected ancestor. */
  ghost predicate Covered(ws: seq<Widget>, sel: seq<int>, x: int) {
    x in sel || exists k: nat :: k >= 1 && Lift(ws, x, k).Some? && Lift(ws, x, k).value in sel
  }

  /** With unique ids and acyclic links, a listed widget's id is in the closure exactly when the widget is covered. */
  lemma {:induction false} ClosureExactly(ws: seq<Widget>, sel: seq<int>, j: nat)
    requires UniqueIds(ws) && Acyclic(ws) && j < |ws|
    ensures ws[j].id in Closure(ws, sel) <==> Covered(ws, sel, ws[j].id)
    decreases |sel|
  {
    if sel != [] {
      ClosureExactly(ws, sel[1..], j);
      SubtreeIdsExactly(ws, sel[0], j);
      CoveredCons(ws, sel, ws[j].id);
    }
  }

  /** One `deleteRecursive(s)` call adds exactly `s` and the ids below it. */
  lemma SubtreeIdsExactly(ws: seq<Widget>, s: int, j: nat)
    requires UniqueIds(ws) && Acyclic(ws) && j < |ws|
    ensures ws[j].id in SubtreeIds(ws, s) <==> ws[j].id == s || Above(ws, s, ws[j].id)
  {
    DescDeepEnough(ws, s, |ws|, j);
    var d := Desc(ws, s, |ws|);
    if ws[j].id in set c | c in d :: ws[c].id {
      var c :| c in d && ws[c].id == ws[j].id;
      assert c == j;
    }
  }

  /** Dying because of the first selected id, or because of the rest. */
  lemma CoveredCons(ws: seq<Widget>, sel: seq<int>, x: int)
    requires sel != []
    ensures Covered(ws, sel, x) <==>
      (x == sel[0] || Above(ws, sel[0], x) || Covered(ws, sel[1..], x))
  {
    assert sel == [sel[0]] + sel[1..];
    if Covered(ws, sel, x) {
      CoveredConsSplit(ws, sel, x);
    }
    if Covered(ws, sel[1..], x) {
      CoveredConsTail(ws, sel, x);
    }
    if Above(ws, sel[0], x) {
      var k: nat :| k >= 1 && Lift(ws, x, k) == Some(sel[0]);
      assert Lift(ws, x, k).value in sel;
    }
  }

  lemma CoveredConsSplit(ws: seq<Widget>, sel: seq<int>, x: int)
    requires sel != [] && Covered(ws, sel, x)
    ensures x == sel[0] || Above(ws, sel[0], x) || Covered(ws, sel[1..], x)
  {
    assert sel == [sel[0]] + sel[1..];
    if x != sel[0] && x !in sel[1..] {
      var k: nat :| k >= 1 && Lift(ws, x, k).Some? && Lift(ws, x, k).value in sel;
      if Lift(ws, x, k).value != sel[0] {
        assert Lift(ws, x, k).value in sel[1..];
        assert Covered(ws, sel[1..], x);
      } else {
        assert Lift(ws, x, k) == Some(sel[0]);
      }
    }
  }

  lemma CoveredConsTail(ws: seq<Widget>, sel: seq<int>, x: int)
    requires sel != [] && Covered(ws, sel[1..], x)
    ensures Covered(ws, sel, x)
  {
    assert sel == [sel[0]] + sel[1..];
    if x !in sel[1..] {
      var k: nat :| k >= 1 && Lift(ws, x, k).Some? && Lift(ws, x, k).value in sel[1..];
      assert Lift(ws, x, k).value in sel;
    }
  }

  /** With unique ids and acyclic links, delete removes exactly the selected widgets and their descendants. */
  lemma DeleteRemovesExactly(d: Doc)
    requires UniqueIds(d.widgets) && Acyclic(d.widgets)
    ensures forall w :: w in DeleteSelected(d).widgets <==> w in d.widgets && !Covered(d.widgets, d.selected, w.id)
  {
    forall j | 0 <= j < |d.widgets| {
      ClosureExactly(d.widgets, d.selected, j);
    }
  }

  /** A widget whose parent dies dies too. */
  lemma CoveredUp(ws: seq<Widget>, sel: seq<int>, j: nat)
    requires UniqueIds(ws) && j < |ws| && ws[j].parentId.Some?
    ensures Covered(ws, sel, ws[j].parentId.value) ==> Covered(ws, sel, ws[j].id)
  {
    var p := ws[j].parentId.value;
    var x := ws[j].id;
    IndexOfUnique(ws, j);
    assert Lift(ws, x, 1) == Some(p);
    if p in sel {
      assert Lift(ws, x, 1).value in sel;
    }
    forall k: nat | k >= 1 && Lift(ws, p, k).Some? && Lift(ws, p, k).value in sel
      ensures Covered(ws, sel, x)
    {
      LiftAdd(ws, x, 1, k);
      assert Lift(ws, x, k + 1) == Lift(ws, p, k);
    }
  }

  /** After a delete, no survivor names a removed widget as its parent. */
  lemma DeleteLeavesNoDanglingParent(d: Doc)
    requires UniqueIds(d.widgets) && Acyclic(d.widgets)
    ensures var r := DeleteSelected(d).widgets;
            forall w :: w in r && w.parentId.Some? && w.parentId.value in Ids(d.widgets) ==> w.parentId.value in Ids(r)
  {
    var ws := d.widgets;
    var r := DeleteSelected(d).widgets;
    DeleteRemovesExactly(d);
    forall w | w in r && w.parentId.Some? && w.parentId.value in Ids(ws)
      ensures w.parentId.value in Ids(r)
    {
      var j :| 0 <= j < |ws| && ws[j] == w;
      var p := w.parentId.value;
      var q :| 0 <= q < |ws| && ws[q].id == p;
      CoveredUp(ws, d.selected, j);
      assert ws[q] in r;
    }
  }

  /** Deleting keeps the store well formed. */
  lemma DeleteWf(d: Doc)
    requires Wf(d)
    ensures Wf(DeleteSelected(d))
  {
    KeepUnique(d.widgets, Closure(d.widgets, d.selected));
  }

  lemma {:induction false} KeepUnique(ws: seq<Widget>, dead: set<int>)
    requires UniqueIds(ws)
    ensures UniqueIds(Keep(ws, dead))
  {
    if ws != [] {
      KeepUnique(ws[1..], dead);
      var tail := Keep(ws[1..], dead);
      forall i | 0 <= i < |tail| ensures tail[i].id != ws[0].id {
        assert tail[i] in ws[1..];
      }
    }
  }

  /** The indices `>= from` of widgets with a parent that the depth-first pass did not reach. */
  function Leftover(ws: seq<Widget>, seen: seq<nat>, from: nat): (r: seq<nat>)
    requires from <= |ws|
    ensures forall t :: 0 <= t < |r| ==> from <= r[t] < |ws| && ws[r[t]].parentId.Some? && r[t] !in seen
    ensures forall j :: from <= j < |ws| && ws[j].parentId.Some? && j !in seen ==> j in r
    ensures Increasing(r)
    decreases |ws| - from
  {
    if from == |ws| then []
    else if ws[from].parentId.Some? && from !in seen then [from] + Leftover(ws, seen, from + 1)
    else Leftover(ws, seen, from + 1)
  }

  /** `renderWidgets`, as indices: each root followed depth-first by its subtree, then every widget not yet listed that has a parent, in list order. */
  function RenderOrder(ws: seq<Widget>): (r: seq<nat>)
    ensures forall t :: 0 <= t < |r| ==> r[t] < |ws|
  {
    var dfs := DescAll(ws, Roots(ws), |ws|);
    dfs + Leftover(ws, dfs, 0)
  }

  /**
    `renderWidgets`: with unique ids and acyclic links the rendered list is a
    permutation of the widgets, and throughout its depth-first part (the
    widgets reached from a root) every widget comes after its parent.
  */
  function RenderWidgets(ws: seq<Widget>): (r: seq<Widget>)
    ensures |r| == |RenderOrder(ws)|
    ensures forall t :: 0 <= t < |r| ==> r[t] == ws[RenderOrder(ws)[t]]
    ensures UniqueIds(ws) && Acyclic(ws) ==> multiset(r) == multiset(ws)
    ensures forall t :: 0 <= t < |DescAll(ws, Roots(ws), |ws|)| && t < |r| && r[t].parentId.Some? ==>
              exists u :: 0 <= u < t && r[t].parentId == Some(r[u].id)
  {
    var o := RenderOrder(ws);
    var r := seq(|o|, t requires 0 <= t < |o| => ws[o[t]]);
    RenderedPermutes(ws, r);
    RenderedParentsFirst(ws, r);
    r
  }

  /** Read in render order, the depth-first part lists every widget after its parent. */
  lemma RenderedParentsFirst(ws: seq<Widget>, r: seq<Widget>)
    requires |r| == |RenderOrder(ws)| && forall t :: 0 <= t < |r| ==> r[t] == ws[RenderOrder(ws)[t]]
    ensures forall t :: 0 <= t < |DescAll(ws, Roots(ws), |ws|)| && t < |r| && r[t].parentId.Some? ==>
              exists u :: 0 <= u < t && r[t].parentId == Some(r[u].id)
  {
    var o := RenderOrder(ws);
    var dfs := DescAll(ws, Roots(ws), |ws|);
    RenderParentsFirst(ws);
    forall t | 0 <= t < |dfs| && t < |r| && r[t].parentId.Some?
      ensures exists u :: 0 <= u < t && r[t].parentId == Some(r[u].id)
    {
      assert o[t] == dfs[t];
      var u :| 0 <= u < t && ws[dfs[t]].parentId == Some(ws[dfs[u]].id);
      assert o[u] == dfs[u];
      assert r[u] == ws[dfs[u]];
    }
  }

  /** Two sequences without repeats that hold the same elements are permutations of each other. */
  lemma DistinctSameMultiset(a: seq<Widget>, b: seq<Widget>)
    requires forall i, j :: 0 <= i < j < |a| ==> a[i] != a[j]
    requires forall i, j :: 0 <= i < j < |b| ==> b[i] != b[j]
    requires forall x :: x in a <==> x in b
    ensures multiset(a) == multiset(b)
  {
    forall x
      ensures multiset(a)[x] == multiset(b)[x]
    {
      DistinctCount(a, x);
      DistinctCount(b, x);
    }
  }

  lemma {:induction false} DistinctCount(a: seq<Widget>, x: Widget)
    requires forall i, j :: 0 <= i < j < |a| ==> a[i] != a[j]
    ensures multiset(a)[x] == if x in a then 1 else 0
  {
    if a != [] {
      assert a == [a[0]] + a[1..];
      DistinctCount(a[1..], x);
    }
  }

  /** The list read in render order is, with unique ids and acyclic links, a permutation of the widgets. */
  lemma RenderedPermutes(ws: seq<Widget>, r: seq<Widget>)
    requires |r| == |RenderOrder(ws)| && forall t :: 0 <= t < |r| ==> r[t] == ws[RenderOrder(ws)[t]]
    ensures UniqueIds(ws) && Acyclic(ws) ==> multiset(r) == multiset(ws)
  {
    if UniqueIds(ws) && Acyclic(ws) {
      var o := RenderOrder(ws);
      RenderIsPermutation(ws);
      forall i, j | 0 <= i < j < |r|
        ensures r[i] != r[j]
      {
        assert o[i] != o[j];
        assert r[i].id != r[j].id by {
          if o[i] < o[j] { assert ws[o[i]].id != ws[o[j]].id; } else { assert ws[o[j]].id != ws[o[i]].id; }
        }
      }
      forall x
        ensures x in r <==> x in ws
      {
        if x in ws {
          var j :| 0 <= j < |ws| && ws[j] == x;
          assert j in o;
          var t :| 0 <= t < |o| && o[t] == j;
          assert r[t] == x;
        }
        if x in r {
          var t :| 0 <= t < |r| && r[t] == x;
          assert ws[o[t]] == x;
        }
      }
      DistinctSameMultiset(r, ws);
    }
  }

  /** In the depth-first part of the render order, a widget comes after its parent. */
  lemma RenderParentsFirst(ws: seq<Widget>)
    ensures ParentsFirst(ws, DescAll(ws, Roots(ws), |ws|), None)
  {
    DescAllParentsFirst(ws, Roots(ws), None, |ws|);
  }

  /** With unique ids and acyclic links, the render order lists every widget exactly once. */
  lemma RenderIsPermutation(ws: seq<Widget>)
    requires UniqueIds(ws) && Acyclic(ws)
    ensures NoDup(RenderOrder(ws))
    ensures forall j :: 0 <= j < |ws| ==> j in RenderOrder(ws)
  {
    var roots := Roots(ws);
    var dfs := DescAll(ws, roots, |ws|);
    DescAllNoDup(ws, roots, None, |ws|);
    NoDupConcat(dfs, Leftover(ws, dfs, 0));
    forall j | 0 <= j < |ws| ensures j in RenderOrder(ws) {
      if ws[j].parentId.None? {
        DescAllMembers(ws, roots, |ws|, j);
        assert roots[IndexIn(roots, j)] == j;
      }
    }
  }
}
