/**
  The hierarchy panel (`useHierarchyTree`; the JavaScript version has the
  same bodies without type annotations): expand/collapse flags, the flattened
  pre-order listing, the bounded ancestor check, reparenting by drag and drop,
  rename and "make root".
*/
module HierarchyTree {
  import opened Wrappers
  import opened Types
  import opened Forest
  import opened WidgetStore
  import opened History
  import opened JsText
  import opened Selection

  /** `treeExpanded`: an explicit flag per id; an id without a flag counts as expanded. */
  type Flags = map<int, bool>

  /** `isTreeNodeExpanded`. */
  predicate IsExpanded(fl: Flags, id: int) {
    !(id in fl && !fl[id])
  }

  /** `toggleTreeNode`: a missing or `true` flag becomes `false`, and `false` becomes `true`. */
  function Toggle(fl: Flags, id: int): (r: Flags)
    ensures IsExpanded(r, id) == !IsExpanded(fl, id)
    ensures id in r
    ensures forall x :: x != id ==> (x in r <==> x in fl) && (x in fl ==> r[x] == fl[x])
  {
    fl[id := id in fl && !fl[id]]
  }

  /** Toggling twice gives every id back its expansion state. */
  lemma ToggleTwice(fl: Flags, id: int, x: int)
    ensures IsExpanded(Toggle(Toggle(fl, id), id), x) == IsExpanded(fl, x)
  {
  }

  /** A widget is listed at the top level when it has no parent or its parent id belongs to no widget. */
  predicate IsTreeRoot(ws: seq<Widget>, w: Widget) {
    w.parentId.None? || w.parentId.value !in Ids(ws)
  }

  /** The indices of the top-level widgets, in list order, from `from` on. */
  function TreeRootsFrom(ws: seq<Widget>, from: nat): (cs: seq<nat>)
    requires from <= |ws|
    ensures forall t :: 0 <= t < |cs| ==> from <= cs[t] < |ws|
    ensures forall j :: from <= j < |ws| ==> (j in cs <==> IsTreeRoot(ws, ws[j]))
    ensures Increasing(cs)
    decreases |ws| - from
  {
    if from == |ws| then []
    else if IsTreeRoot(ws, ws[from]) then [from] + TreeRootsFrom(ws, from + 1)
    else TreeRootsFrom(ws, from + 1)
  }

  function TreeRoots(ws: seq<Widget>): (cs: seq<nat>)
    ensures forall t :: 0 <= t < |cs| ==> cs[t] < |ws|
    ensures forall j :: 0 <= j < |ws| ==> (j in cs <==> IsTreeRoot(ws, ws[j]))
  {
    TreeRootsFrom(ws, 0)
  }

  /**
    The children the tree hangs under the widget at `k`. The id map keeps the
    last widget with each id, so only that one receives children.
  */
  function TreeChildren(ws: seq<Widget>, k: nat): (cs: seq<nat>)
    requires k < |ws|
    ensures forall t :: 0 <= t < |cs| ==> cs[t] < |ws| && ws[cs[t]].parentId == Some(ws[k].id)
  {
    if Shadowed(ws, k) then [] else Children(ws, ws[k].id)
  }

  /** With unique ids no widget is shadowed, so the tree's children are all the widgets naming it as parent. */
  lemma TreeChildrenUnique(ws: seq<Widget>, k: nat)
    requires UniqueIds(ws) && k < |ws|
    ensures TreeChildren(ws, k) == Children(ws, ws[k].id)
  {
  }

  /** A later widget carries the same id, so the id map holds that one instead. */
  predicate Shadowed(ws: seq<Widget>, k: nat)
    requires k < |ws|
  {
    exists j :: k < j < |ws| && ws[j].id == ws[k].id
  }

  /** One line of the flattened tree: the widget's index, its depth and whether it has children. */
  datatype Row = Row(index: nat, depth: nat, hasChildren: bool)

  /**
    `visit`: the row for the widget at `k`, then, when it has children and is
    expanded, the rows of its children one level deeper. `fuel` bounds the
    nesting depth.
  */
  function Visit(ws: seq<Widget>, fl: Flags, k: nat, depth: nat, fuel: nat): (rows: seq<Row>)
    requires k < |ws|
    ensures rows != [] && rows[0] == Row(k, depth, TreeChildren(ws, k) != [])
    ensures !IsExpanded(fl, ws[k].id) ==> rows == [rows[0]]
    ensures forall t :: 0 <= t < |rows| ==> rows[t].index < |ws| && rows[t].depth >= depth
    ensures forall t :: 1 <= t < |rows| ==> rows[t].depth > depth
    decreases fuel, 1, 0
  {
    var cs := TreeChildren(ws, k);
    var has := cs != [];
    [Row(k, depth, has)] + (if has && IsExpanded(fl, ws[k].id) && fuel > 0 then VisitAll(ws, fl, cs, depth + 1, fuel - 1) else [])
  }

  /** The rows of several siblings, one block after another. */
  function VisitAll(ws: seq<Widget>, fl: Flags, cs: seq<nat>, depth: nat, fuel: nat): (rows: seq<Row>)
    requires forall t :: 0 <= t < |cs| ==> cs[t] < |ws|
    ensures forall t :: 0 <= t < |rows| ==> rows[t].index < |ws| && rows[t].depth >= depth
    decreases fuel, 2, |cs|
  {
    if cs == [] then [] else Visit(ws, fl, cs[0], depth, fuel) + VisitAll(ws, fl, cs[1..], depth, fuel)
  }

  /** `widgetTreeFlat`: every top-level widget's block at depth 0. */
  function TreeFlat(ws: seq<Widget>, fl: Flags): (rows: seq<Row>)
    ensures forall t :: 0 <= t < |rows| ==> rows[t].index < |ws|
  {
    VisitAll(ws, fl, TreeRoots(ws), 0, |ws|)
  }

  /** The indices of the rows at exactly depth `d`. */
  function AtDepth(rows: seq<Row>, d: nat): seq<nat> {
    if rows == [] then [] else (if rows[0].depth == d then [rows[0].index] else []) + AtDepth(rows[1..], d)
  }

  /** The rows at depth 0 are exactly the top-level widgets, in list order. */
  lemma TopLevelRows(ws: seq<Widget>, fl: Flags)
    ensures AtDepth(TreeFlat(ws, fl), 0) == TreeRoots(ws)
  {
    TopLevelBlocks(ws, fl, TreeRoots(ws), |ws|);
  }

  lemma {:induction false} TopLevelBlocks(ws: seq<Widget>, fl: Flags, cs: seq<nat>, fuel: nat)
    requires forall t :: 0 <= t < |cs| ==> cs[t] < |ws|
    ensures AtDepth(VisitAll(ws, fl, cs, 0, fuel), 0) == cs
  {
    if cs != [] {
      var v := Visit(ws, fl, cs[0], 0, fuel);
      var rest := VisitAll(ws, fl, cs[1..], 0, fuel);
      assert VisitAll(ws, fl, cs, 0, fuel) == v + rest;
      calc {
        AtDepth(v + rest, 0);
        { AtDepthConcat(v, rest, 0); }
        AtDepth(v, 0) + AtDepth(rest, 0);
        { BlockAtDepth(ws, fl, cs[0], fuel); TopLevelBlocks(ws, fl, cs[1..], fuel); }
        [cs[0]] + cs[1..];
      }
      assert cs == [cs[0]] + cs[1..];
    }
  }

  /** A top-level block has exactly one row at depth 0, its own. */
  lemma BlockAtDepth(ws: seq<Widget>, fl: Flags, k: nat, fuel: nat)
    requires k < |ws|
    ensures AtDepth(Visit(ws, fl, k, 0, fuel), 0) == [k]
  {
    var v := Visit(ws, fl, k, 0, fuel);
    AtDepthConcat([v[0]], v[1..], 0);
    assert [v[0]] + v[1..] == v;
    AtDepthNone(v[1..], 0);
  }

  lemma {:induction false} AtDepthConcat(a: seq<Row>, b: seq<Row>, d: nat)
    ensures AtDepth(a + b, d) == AtDepth(a, d) + AtDepth(b, d)
  {
    if a != [] {
      var x := if a[0].depth == d then [a[0].index] else [];
      assert (a + b)[0] == a[0];
      assert (a + b)[1..] == a[1..] + b;
      AtDepthConcat(a[1..], b, d);
      assert AtDepth(a + b, d) == x + (AtDepth(a[1..], d) + AtDepth(b, d));
      assert AtDepth(a, d) == x + AtDepth(a[1..], d);
      assert (x + AtDepth(a[1..], d)) + AtDepth(b, d) == x + (AtDepth(a[1..], d) + AtDepth(b, d));
    } else {
      assert a + b == b;
    }
  }

  lemma {:induction false} AtDepthNone(rows: seq<Row>, d: nat)
    requires forall t :: 0 <= t < |rows| ==> rows[t].depth > d
    ensures AtDepth(rows, d) == []
  {
    if rows != [] {
      AtDepthNone(rows[1..], d);
    }
  }

  /** The indices the rows list, in order. */
  function Indices(rows: seq<Row>): (r: seq<nat>)
    ensures |r| == |rows|
    ensures forall t :: 0 <= t < |rows| ==> r[t] == rows[t].index
  {
    if rows == [] then [] else [rows[0].index] + Indices(rows[1..])
  }

  lemma IndicesConcat(a: seq<Row>, b: seq<Row>)
    ensures Indices(a + b) == Indices(a) + Indices(b)
  {
  }

  /**
    With unique ids and nothing collapsed, a widget's block lists the widget
    and then its descendants in the same depth-first order as the render walk.
  */
  lemma {:induction false} ExpandedVisitIsWalk(ws: seq<Widget>, fl: Flags, k: nat, depth: nat, fuel: nat)
    requires UniqueIds(ws) && k < |ws|
    requires forall x :: IsExpanded(fl, x)
    ensures Indices(Visit(ws, fl, k, depth, fuel)) == [k] + Desc(ws, ws[k].id, fuel)
    decreases fuel, 1, 0
  {
    var cs := TreeChildren(ws, k);
    TreeChildrenUnique(ws, k);
    var head := Row(k, depth, cs != []);
    if cs != [] && fuel > 0 {
      var sub := VisitAll(ws, fl, cs, depth + 1, fuel - 1);
      assert Visit(ws, fl, k, depth, fuel) == [head] + sub;
      ExpandedVisitAllIsWalk(ws, fl, cs, depth + 1, fuel - 1);
      IndicesConcat([head], sub);
      assert Indices([head]) == [k];
      assert Indices(sub) == DescAll(ws, cs, fuel - 1);
      assert Desc(ws, ws[k].id, fuel) == DescAll(ws, cs, fuel - 1);
    } else {
      assert Visit(ws, fl, k, depth, fuel) == [head];
      assert Indices([head]) == [k];
      assert Desc(ws, ws[k].id, fuel) == [];
    }
  }

  lemma {:induction false} ExpandedVisitAllIsWalk(ws: seq<Widget>, fl: Flags, cs: seq<nat>, depth: nat, fuel: nat)
    requires UniqueIds(ws)
    requires forall t :: 0 <= t < |cs| ==> cs[t] < |ws|
    requires forall x :: IsExpanded(fl, x)
    ensures Indices(VisitAll(ws, fl, cs, depth, fuel)) == DescAll(ws, cs, fuel)
    decreases fuel, 2, |cs|
  {
    if cs != [] {
      ExpandedVisitIsWalk(ws, fl, cs[0], depth, fuel);
      ExpandedVisitAllIsWalk(ws, fl, cs[1..], depth, fuel);
      IndicesConcat(Visit(ws, fl, cs[0], depth, fuel), VisitAll(ws, fl, cs[1..], depth, fuel));
    }
  }

  /** With nothing collapsed and unique ids, the listing is the depth-first walk from the top-level widgets. */
  lemma ExpandedTreeIsWalk(ws: seq<Widget>, fl: Flags)
    requires UniqueIds(ws)
    requires forall x :: IsExpanded(fl, x)
    ensures Indices(TreeFlat(ws, fl)) == DescAll(ws, TreeRoots(ws), |ws|)
  {
    ExpandedVisitAllIsWalk(ws, fl, TreeRoots(ws), 0, |ws|);
  }

  /** Going up `row.depth - base` parent steps from the row's widget reaches `a`. */
  predicate ClimbsTo(ws: seq<Widget>, row: Row, base: nat, a: int) {
    row.index < |ws| && base <= row.depth && Lift(ws, ws[row.index].id, row.depth - base) == Some(a)
  }

  /** One level up: from a child `c` of `k`, the climb goes one step further and reaches `k`. */
  lemma ClimbStep(ws: seq<Widget>, row: Row, base: nat, c: nat, k: nat)
    requires UniqueIds(ws) && c < |ws| && k < |ws|
    requires ClimbsTo(ws, row, base + 1, ws[c].id)
    requires ws[c].parentId == Some(ws[k].id)
    ensures ClimbsTo(ws, row, base, ws[k].id)
  {
    IndexOfUnique(ws, c);
    LiftStep(ws, ws[row.index].id, row.depth - base, ws[c].id);
  }

  /**
    With unique ids, a row's depth counts parent steps: going up that many
    steps from a row of `k`'s block (relative to `k`'s depth) reaches `k`.
  */
  lemma {:induction false} VisitDepth(ws: seq<Widget>, fl: Flags, k: nat, depth: nat, fuel: nat, t: nat)
    requires UniqueIds(ws) && k < |ws|
    requires t < |Visit(ws, fl, k, depth, fuel)|
    ensures ClimbsTo(ws, Visit(ws, fl, k, depth, fuel)[t], depth, ws[k].id)
    decreases fuel, 1, 0
  {
    var rows := Visit(ws, fl, k, depth, fuel);
    if t > 0 {
      var cs := TreeChildren(ws, k);
      var sub := VisitAll(ws, fl, cs, depth + 1, fuel - 1);
      assert rows == [rows[0]] + sub;
      assert rows[t] == sub[t - 1];
      ChildRowsDepth(ws, fl, k, depth, fuel, t - 1);
    } else {
      assert rows[t] == Row(k, depth, TreeChildren(ws, k) != []);
      assert Lift(ws, ws[k].id, 0) == Some(ws[k].id);
    }
  }

  /** The rows under `k`'s own row climb to `k`: they climb to one of its children, one step below it. */
  lemma {:induction false} ChildRowsDepth(ws: seq<Widget>, fl: Flags, k: nat, depth: nat, fuel: nat, u: nat)
    requires UniqueIds(ws) && k < |ws| && fuel > 0
    requires u < |VisitAll(ws, fl, TreeChildren(ws, k), depth + 1, fuel - 1)|
    ensures ClimbsTo(ws, VisitAll(ws, fl, TreeChildren(ws, k), depth + 1, fuel - 1)[u], depth, ws[k].id)
    decreases fuel, 0, 0
  {
    var c := VisitAllDepth(ws, fl, TreeChildren(ws, k), depth + 1, fuel - 1, u);
    ClimbStep(ws, VisitAll(ws, fl, TreeChildren(ws, k), depth + 1, fuel - 1)[u], depth, c, k);
  }

  /** One more parent step from where `n - 1` steps led. */
  lemma LiftStep(ws: seq<Widget>, x: int, n: nat, m: int)
    requires n >= 1 && Lift(ws, x, n - 1) == Some(m)
    ensures Lift(ws, x, n) == ParentOf(ws, m)
  {
  }

  /** The same over a run of sibling blocks; `c` is the sibling whose block holds row `t`. */
  lemma {:induction false} VisitAllDepth(ws: seq<Widget>, fl: Flags, cs: seq<nat>, depth: nat, fuel: nat, t: nat) returns (c: nat)
    requires UniqueIds(ws)
    requires forall u :: 0 <= u < |cs| ==> cs[u] < |ws|
    requires t < |VisitAll(ws, fl, cs, depth, fuel)|
    ensures c in cs
    ensures ClimbsTo(ws, VisitAll(ws, fl, cs, depth, fuel)[t], depth, ws[c].id)
    decreases fuel, 2, |cs|
  {
    var v := Visit(ws, fl, cs[0], depth, fuel);
    var rest := VisitAll(ws, fl, cs[1..], depth, fuel);
    if t < |v| {
      VisitDepth(ws, fl, cs[0], depth, fuel, t);
      c := cs[0];
    } else {
      c := VisitAllDepth(ws, fl, cs[1..], depth, fuel, t - |v|);
      assert (v + rest)[t] == rest[t - |v|];
    }
  }

  /** With unique ids, climbing a row's depth in parent steps from its widget reaches a top-level widget. */
  lemma FlatDepth(ws: seq<Widget>, fl: Flags, t: nat)
    requires UniqueIds(ws) && t < |TreeFlat(ws, fl)|
    ensures exists j :: 0 <= j < |ws| && IsTreeRoot(ws, ws[j]) && ClimbsTo(ws, TreeFlat(ws, fl)[t], 0, ws[j].id)
  {
    var c := VisitAllDepth(ws, fl, TreeRoots(ws), 0, |ws|, t);
    assert IsTreeRoot(ws, ws[c]);
  }

  /** `selectFromTree`: a ctrl-click toggles the id, a plain click selects only it. */
  function SelectFromTree(sel: seq<int>, id: int, ctrl: bool): (r: seq<int>)
    ensures !ctrl ==> r == [id]
    ensures ctrl ==> Distinct(r) && forall x :: x in r <==> if x == id then id !in sel else x in sel
  {
    if ctrl then ToggleId(sel, id) else [id]
  }

  /** How many parent steps `isDescendantOf` takes at most. */
  const SafetyLimit := 1000

  /**
    `isDescendantOf`: walk up from `d` through the widgets' parent links,
    answering `true` as soon as a parent is `a`, and giving up after
    `SafetyLimit` steps or when the chain leaves the list.
  */
  method IsDescendantOf(ws: seq<Widget>, a: int, d: int) returns (r: bool)
    ensures r <==> Under(ws, d, a, SafetyLimit)
  {
    var current := Find(ws, d);
    var guard := 0;
    while current.Some? && current.value.parentId.Some? && guard < SafetyLimit
      invariant 0 <= guard <= SafetyLimit
      invariant Lift(ws, d, guard).Some?
      invariant current == Find(ws, Lift(ws, d, guard).value)
      invariant forall k :: 1 <= k <= guard ==> Lift(ws, d, k) != Some(a)
      decreases SafetyLimit - guard
    {
      var p := current.value.parentId.value;
      assert Lift(ws, d, guard + 1) == Some(p);
      if p == a {
        return true;
      }
      current := Find(ws, p);
      guard := guard + 1;
    }
    if guard < SafetyLimit {
      assert Lift(ws, d, guard + 1).None?;
      forall k | guard < k <= SafetyLimit
        ensures Lift(ws, d, k) != Some(a)
      {
        LiftNoneStays(ws, d, guard + 1, k);
      }
    }
    return false;
  }

  /** In an acyclic list of at most `SafetyLimit` widgets the bounded walk finds every ancestor. */
  lemma DescendantCheckExact(ws: seq<Widget>, a: int, d: int)
    requires Acyclic(ws) && |ws| <= SafetyLimit
    ensures Under(ws, d, a, SafetyLimit) <==> Above(ws, a, d)
  {
    if Above(ws, a, d) {
      var k: nat :| k >= 1 && Lift(ws, d, k) == Some(a);
      LiftBound(ws, d, k);
    }
  }

  /** `updateWidgetParent`: give the first widget with the id a new parent; an unknown id changes nothing. */
  function UpdateParent(ws: seq<Widget>, id: int, p: Option<int>): (r: seq<Widget>)
    ensures id !in Ids(ws) ==> r == ws
    ensures |r| == |ws| && Ids(r) == Ids(ws)
    ensures forall j :: 0 <= j < |ws| ==> r[j] == ws[j].(parentId := r[j].parentId)
    ensures forall j :: 0 <= j < |ws| && ws[j].id != id ==> r[j] == ws[j]
  {
    var i := IndexOf(ws, id);
    if i < 0 then ws
    else
      var r := ws[i := ws[i].(parentId := p)];
      assert forall j :: 0 <= j < |ws| ==> r[j].id == ws[j].id;
      assert Ids(r) == Ids(ws) by {
        forall x | x in Ids(r) ensures x in Ids(ws) {
          var j :| 0 <= j < |r| && r[j].id == x;
        }
        forall x | x in Ids(ws) ensures x in Ids(r) {
          var j :| 0 <= j < |ws| && ws[j].id == x;
          assert r[j].id == x;
        }
      }
      r
  }

  /** After reparenting, the widget's parent is the new one and every other widget keeps its parent. */
  lemma UpdateParentLinks(ws: seq<Widget>, id: int, p: Option<int>, x: int)
    requires UniqueIds(ws) && id in Ids(ws)
    ensures UniqueIds(UpdateParent(ws, id, p))
    ensures ParentOf(UpdateParent(ws, id, p), id) == p
    ensures x != id ==> ParentOf(UpdateParent(ws, id, p), x) == ParentOf(ws, x)
  {
    var r := UpdateParent(ws, id, p);
    var i := IndexOf(ws, id);
    assert forall j :: 0 <= j < |ws| ==> r[j].id == ws[j].id;
    IndexOfUnique(r, i);
    var k := IndexOf(ws, x);
    if k >= 0 {
      IndexOfUnique(ws, k);
      IndexOfUnique(r, k);
    } else {
      assert x !in Ids(r);
    }
  }

  /** The drag state: `treeDragSourceId`, `treeDragStartPos` and `treeIsDragging`. */
  datatype TreeDrag = TreeDrag(source: Option<int>, startX: real, startY: real, dragging: bool)

  /** How far (in pixels, on either axis) the pointer must travel before a press becomes a drag. */
  const DragThreshold := 4.0

  /** `onTreeMouseDown`: only the left button, and not while renaming, arms a drag from the row. */
  function TreeMouseDown(st: TreeDrag, id: int, button: int, renaming: bool, x: real, y: real): (r: TreeDrag)
    ensures button != 0 || renaming ==> r == st
    ensures button == 0 && !renaming ==> r == TreeDrag(Some(id), x, y, false)
  {
    if button != 0 || renaming then st else TreeDrag(Some(id), x, y, false)
  }

  function Abs(v: real): real {
    if v < 0.0 then -v else v
  }

  /** `onTreeMouseMove`: an armed press becomes a drag once the pointer is more than the threshold away on some axis. */
  function TreeMouseMove(st: TreeDrag, x: real, y: real): (r: TreeDrag)
    ensures r == st.(dragging := r.dragging)
    ensures r.dragging <==> st.dragging || (st.source.Some? && st.source.value != 0 &&
                                            (Abs(x - st.startX) > DragThreshold || Abs(y - st.startY) > DragThreshold))
  {
    if st.source.None? || st.source.value == 0 then st
    else if st.dragging then st
    else if Abs(x - st.startX) > DragThreshold || Abs(y - st.startY) > DragThreshold then st.(dragging := true)
    else st
  }

  /**
    What lies under the pointer on release: no element at all, (an element
    inside) a tree row with the given id, the list outside any row, or
    anything else.
  */
  datatype Hit = NoElement | OnRow(id: int) | ListBackground | Outside

  /** The message shown when a widget is dropped onto one of its own descendants. */
  const DescendantMessage := "无法将父节点移动到其子节点下面"

  datatype TreeOutcome = TreeOutcome(drag: TreeDrag, session: Session, message: Option<string>)

  /**
    `onTreeMouseUp`. A release that never became a drag is a click. A drop on
    another row reparents the source under it, unless that row is one of the
    source's descendants (within the walk's bound). A drop on the source's own
    row or on the list background makes the source top-level. Both moves push
    history first.
  */
  function TreeMouseUp(st: TreeDrag, s: Session, hit: Hit, ctrl: bool): (r: TreeOutcome)
    ensures r.drag.source.None?
    ensures st.source.None? || st.source.value == 0 ==> r == TreeOutcome(st.(source := None), s, None)
    ensures st.source.Some? && st.source.value != 0 && !st.dragging ==>
      r == TreeOutcome(st.(source := None), s.(doc := s.doc.(selected := SelectFromTree(s.doc.selected, st.source.value, ctrl))), None)
    ensures st.source.Some? && st.source.value != 0 && st.dragging ==>
      var src := st.source.value;
      var ws := s.doc.widgets;
      && (hit.NoElement? ==> r == TreeOutcome(st.(source := None), s, None))
      && (hit.Outside? ==> r == TreeOutcome(TreeDrag(None, st.startX, st.startY, false), s, None))
      && (hit.OnRow? && hit.id != src && Under(ws, hit.id, src, SafetyLimit) ==>
            r == TreeOutcome(TreeDrag(None, st.startX, st.startY, false), s, Some(DescendantMessage)))
      && (hit.OnRow? && hit.id != src && !Under(ws, hit.id, src, SafetyLimit) ==>
            && r.session.hist == Push(s.doc, s.hist)
            && r.session.doc == s.doc.(widgets := UpdateParent(ws, src, Some(hit.id))))
      && ((hit.OnRow? && hit.id == src) || hit.ListBackground? ==>
            && r.session.hist == Push(s.doc, s.hist)
            && r.session.doc == s.doc.(widgets := UpdateParent(ws, src, None)))
      && (!hit.NoElement? ==> !r.drag.dragging)
  {
    var st1 := st.(source := None);
    if st.source.None? || st.source.value == 0 then TreeOutcome(st1, s, None)
    else
      var src := st.source.value;
      if !st.dragging then
        TreeOutcome(st1, s.(doc := s.doc.(selected := SelectFromTree(s.doc.selected, src, ctrl))), None)
      else
        var done := st1.(dragging := false);
        var ws := s.doc.widgets;
        match hit
        case NoElement => TreeOutcome(st1, s, None)
        case Outside => TreeOutcome(done, s, None)
        case OnRow(t) =>
          if t != src then
            if Under(ws, t, src, SafetyLimit) then TreeOutcome(done, s, Some(DescendantMessage))
            else TreeOutcome(done, Session(s.doc.(widgets := UpdateParent(ws, src, Some(t))), Push(s.doc, s.hist)), None)
          else TreeOutcome(done, Session(s.doc.(widgets := UpdateParent(ws, src, None)), Push(s.doc, s.hist)), None)
        case ListBackground =>
          TreeOutcome(done, Session(s.doc.(widgets := UpdateParent(ws, src, None)), Push(s.doc, s.hist)), None)
  }

  /** A press and release without travel beyond the threshold is a plain selection click. */
  lemma ShortPressIsClick(st: TreeDrag, s: Session, id: int, x: real, y: real, x2: real, y2: real, hit: Hit, ctrl: bool)
    requires id != 0
    requires Abs(x2 - x) <= DragThreshold && Abs(y2 - y) <= DragThreshold
    ensures var st1 := TreeMouseMove(TreeMouseDown(st, id, 0, false, x, y), x2, y2);
            var r := TreeMouseUp(st1, s, hit, ctrl);
            r.session.doc == s.doc.(selected := SelectFromTree(s.doc.selected, id, ctrl)) && r.session.hist == s.hist
  {
  }

  /**
    In an acyclic list of at most `SafetyLimit` widgets a drop onto a row is
    refused exactly when that row is the source's descendant; a refused drop
    changes neither the widgets nor the history.
  */
  lemma DropOntoDescendantRefused(st: TreeDrag, s: Session, t: int)
    requires Acyclic(s.doc.widgets) && |s.doc.widgets| <= SafetyLimit
    requires st.source.Some? && st.source.value != 0 && st.dragging && t != st.source.value
    ensures var r := TreeMouseUp(st, s, OnRow(t), false);
            (r.message == Some(DescendantMessage) <==> Above(s.doc.widgets, st.source.value, t))
            && (r.message.Some? ==> r.session == s)
  {
    DescendantCheckExact(s.doc.widgets, st.source.value, t);
  }

  /**
    `confirmTreeRename`: with a rename in progress (a non-zero id), the
    first widget with that id takes the trimmed input as its name, or keeps
    its name when the input is blank; history is pushed only when the widget
    exists. The rename ends either way.
  */
  function ConfirmRename(renaming: Option<int>, input: string, s: Session): (r: (Option<int>, Session))
    ensures renaming.None? || renaming.value == 0 ==> r == (renaming, s)
    ensures renaming.Some? && renaming.value != 0 ==> r.0.None?
    ensures renaming.Some? && renaming.value != 0 && renaming.value !in Ids(s.doc.widgets) ==> r.1 == s
    ensures renaming.Some? && renaming.value != 0 && renaming.value in Ids(s.doc.widgets) ==>
      var ws := s.doc.widgets;
      var i := IndexOf(ws, renaming.value);
      && r.1.hist == Push(s.doc, s.hist)
      && |r.1.doc.widgets| == |ws|
      && r.1.doc == s.doc.(widgets := ws[i := ws[i].(name := r.1.doc.widgets[i].name)])
      && (Trim(input) != [] ==> r.1.doc.widgets[i].name == Trim(input))
      && (Trim(input) == [] ==> r.1.doc.widgets[i].name == ws[i].name)
  {
    if renaming.None? || renaming.value == 0 then (renaming, s)
    else
      var ws := s.doc.widgets;
      var i := IndexOf(ws, renaming.value);
      if i < 0 then (None, s)
      else
        var t := Trim(input);
        var name := if t != [] then t else ws[i].name;
        (None, Session(s.doc.(widgets := ws[i := ws[i].(name := name)]), Push(s.doc, s.hist)))
  }

  /** A rename never leaves a named widget without a name. */
  lemma RenameKeepsName(renaming: int, input: string, s: Session)
    requires renaming != 0 && renaming in Ids(s.doc.widgets)
    requires Find(s.doc.widgets, renaming).value.name != []
    ensures var i := IndexOf(s.doc.widgets, renaming);
            ConfirmRename(Some(renaming), input, s).1.doc.widgets[i].name != []
  {
  }

  /** `handleTreeSetRoot`: the context-menu target (a non-zero id that exists) becomes top-level, after a history push. */
  function SetRoot(target: Option<int>, s: Session): (r: Session)
    ensures target.None? || target.value == 0 || target.value !in Ids(s.doc.widgets) ==> r == s
    ensures target.Some? && target.value != 0 && target.value in Ids(s.doc.widgets) ==>
      && r.hist == Push(s.doc, s.hist)
      && r.doc == s.doc.(widgets := UpdateParent(s.doc.widgets, target.value, None))
  {
    if target.None? || target.value == 0 || Find(s.doc.widgets, target.value).None? then s
    else Session(s.doc.(widgets := UpdateParent(s.doc.widgets, target.value, None)), Push(s.doc, s.hist))
  }

  /** After "make root" the widget is listed at the top level of the tree. */
  lemma SetRootListsAtTop(target: int, s: Session)
    requires UniqueIds(s.doc.widgets) && target != 0 && target in Ids(s.doc.widgets)
    ensures var ws := SetRoot(Some(target), s).doc.widgets;
            IndexOf(ws, target) in TreeRoots(ws)
  {
    var ws := SetRoot(Some(target), s).doc.widgets;
    UpdateParentLinks(s.doc.widgets, target, None, target);
  }
}
