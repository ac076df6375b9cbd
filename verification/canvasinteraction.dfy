/**
  Pointer gestures on the canvas (`useCanvasInteraction`): panning with the
  space key held, dragging, resizing and marquee selection. The gesture refs
  are one `Pointer` record; every handler is a function from the canvas state
  and the event to the next canvas state.
*/
module CanvasInteraction {
  import opened Wrappers
  import opened Types
  import opened Forest
  import opened WidgetStore
  import opened History
  import opened BatchEdit
  import opened Selection

  datatype Point = Point(x: real, y: real)

  /** Where the canvas element sits on screen, the interface zoom, the pan offset and the canvas scale. */
  datatype View = View(left: real, top: real, uiZoom: real, panX: real, panY: real, scale: real)

  /**
    The gesture refs: `isPanning` with `panStart` (the pointer and the pan at
    the start), `isSelecting` with the marquee corners, `resizingId` with
    `resizeStart`, and `draggingId` with `dragOffset`.
  */
  datatype Pointer = Pointer(
    panning: bool, panPointer: Point, panFrom: Point,
    selecting: bool, selectStart: Point, selectCurrent: Point,
    resizingId: Option<int>, resizeFrom: Point, resizeW: real, resizeH: real,
    draggingId: Option<int>, dragOffset: Point)

  /** The grid-snap toggle and `gridStep`. */
  datatype Grid = Grid(snap: bool, step: real)

  datatype Canvas = Canvas(s: Session, view: View, ptr: Pointer)

  /** A client point in world (canvas) coordinates: undo the element offset, the interface zoom, the pan and the scale. */
  function ToWorld(v: View, client: Point): Point {
    var ui := OrNum(v.uiZoom, 1.0);
    var sc := OrNum(v.scale, 1.0);
    Point(((client.x - v.left) / ui - v.panX) / sc, ((client.y - v.top) / ui - v.panY) / sc)
  }

  /** Where a world point is drawn on screen, the way the canvas transform places it. */
  function ToScreen(v: View, p: Point): Point {
    var ui := OrNum(v.uiZoom, 1.0);
    var sc := OrNum(v.scale, 1.0);
    Point((p.x * sc + v.panX) * ui + v.left, (p.y * sc + v.panY) * ui + v.top)
  }

  /** The world mapping inverts the screen mapping in both directions. */
  lemma WorldScreenRoundTrip(v: View, client: Point, p: Point)
    ensures ToScreen(v, ToWorld(v, client)) == client
    ensures ToWorld(v, ToScreen(v, p)) == p
  {
    var ui := OrNum(v.uiZoom, 1.0);
    var sc := OrNum(v.scale, 1.0);
    var q := ToScreen(v, p);
    AxisRoundTrip(client.x, v.left, ui, v.panX, sc, p.x, q.x);
    AxisRoundTrip(client.y, v.top, ui, v.panY, sc, p.y, q.y);
  }

  /** The same two facts on one axis. */
  lemma AxisRoundTrip(c: real, off: real, ui: real, pan: real, sc: real, q: real, drawn: real)
    requires ui != 0.0 && sc != 0.0
    requires drawn == (q * sc + pan) * ui + off
    ensures (((c - off) / ui - pan) / sc * sc + pan) * ui + off == c
    ensures ((drawn - off) / ui - pan) / sc == q
  {
    var s := (c - off) / ui;
    DivMul(s - pan, sc);
    DivMul(c - off, ui);
    assert ((s - pan) / sc * sc + pan) * ui == s * ui;
    var t := q * sc + pan;
    var a := drawn - off;
    assert a / ui == t by {
      assert a == t * ui;
      MulDiv(t, ui);
    }
    var b := a / ui - pan;
    assert b / sc == q by {
      assert b == q * sc;
      MulDiv(q, sc);
    }
  }

  lemma DivMul(a: real, b: real)
    requires b != 0.0
    ensures a / b * b == a
  {
  }

  lemma MulDiv(a: real, b: real)
    requires b != 0.0
    ensures a * b / b == a
  {
  }

  /** Enter pan mode: remember the pointer and the current pan. */
  function StartPan(c: Canvas, client: Point): (r: Canvas)
    ensures r.s == c.s && r.view == c.view && r.ptr.panning
  {
    c.(ptr := c.ptr.(panning := true, panPointer := client, panFrom := Point(c.view.panX, c.view.panY)))
  }

  /**
    `startDrag`: with space held, pan instead. Otherwise update the selection
    (ctrl toggles; a plain click keeps a selection that already holds the
    widget and otherwise selects only it); a locked widget stops there; an
    unlocked one records history and starts dragging with the pointer's
    offset from the widget's corner.
  */
  function StartDrag(c: Canvas, w: Widget, client: Point, ctrl: bool, space: bool): (r: Canvas)
    ensures space ==> r == StartPan(c, client)
    ensures !space ==> r.view == c.view
    ensures !space ==> r.s.doc.widgets == c.s.doc.widgets && r.s.doc.nextId == c.s.doc.nextId
    ensures !space ==> (w.id in r.s.doc.selected <==> !ctrl || w.id !in c.s.doc.selected)
    ensures !space && !ctrl ==> r.s.doc.selected == if w.id in c.s.doc.selected then c.s.doc.selected else [w.id]
    ensures !space && w.locked ==> r.s.hist == c.s.hist && r.ptr == c.ptr
    ensures !space && !w.locked ==>
      && r.s.hist == Push(c.s.doc, c.s.hist)
      && r.ptr == c.ptr.(draggingId := Some(w.id), dragOffset := r.ptr.dragOffset)
      && r.ptr.dragOffset.x + w.x == ToWorld(c.view, client).x
      && r.ptr.dragOffset.y + w.y == ToWorld(c.view, client).y
  {
    if space then StartPan(c, client)
    else
      var sel := c.s.doc.selected;
      var sel' := if ctrl then ToggleId(sel, w.id) else if w.id in sel then sel else [w.id];
      var s := c.s.(doc := c.s.doc.(selected := sel'));
      if w.locked then c.(s := s)
      else
        var m := ToWorld(c.view, client);
        c.(s := Record(s), ptr := c.ptr.(draggingId := Some(w.id), dragOffset := Point(m.x - w.x, m.y - w.y)))
  }

  /** `startResize`: a locked widget ignores it; otherwise record history, remember the pointer and size, and select only the widget. */
  function StartResize(c: Canvas, w: Widget, client: Point): (r: Canvas)
    ensures w.locked ==> r == c
    ensures !w.locked ==>
      && r.s.doc == c.s.doc.(selected := [w.id])
      && r.s.hist == Push(c.s.doc, c.s.hist)
      && r.ptr.resizingId == Some(w.id)
      && r.ptr.resizeFrom == ToWorld(c.view, client)
      && r.ptr.resizeW == w.w && r.ptr.resizeH == w.h
  {
    if w.locked then c
    else
      var s := Record(c.s);
      c.(s := s.(doc := s.doc.(selected := [w.id])),
         ptr := c.ptr.(resizingId := Some(w.id), resizeFrom := ToWorld(c.view, client), resizeW := w.w, resizeH := w.h))
  }

  /** `onCanvasMouseDown`: space pans; a press on the empty canvas starts a marquee and clears the selection; any other target is ignored. */
  function MouseDown(c: Canvas, client: Point, onBackground: bool, space: bool): (r: Canvas)
    ensures space ==> r == StartPan(c, client)
    ensures !space && !onBackground ==> r == c
    ensures !space && onBackground ==>
      && r.s.doc == c.s.doc.(selected := [])
      && r.s.hist == c.s.hist
      && r.ptr.selecting
      && r.ptr.selectStart == r.ptr.selectCurrent == ToWorld(c.view, client)
  {
    if space then StartPan(c, client)
    else if onBackground then
      var p := ToWorld(c.view, client);
      c.(s := c.s.(doc := c.s.doc.(selected := [])), ptr := c.ptr.(selecting := true, selectStart := p, selectCurrent := p))
    else c
  }

  /** The `k`-th grid line for a step. */
  function GridLine(k: int, step: real): real {
    k as real * step
  }

  /** `Math.round(v / step) * step`: the grid line nearest to `v`. */
  function Snap(v: real, step: real): (r: real)
    requires step != 0.0
    ensures exists k: int :: r == GridLine(k, step)
  {
    GridLine(Round(v / step), step)
  }

  /** The step the grid snaps to: `gridStep || 10`. */
  function StepOf(g: Grid): (r: real)
    ensures r != 0.0
  {
    OrNum(g.step, 10.0)
  }

  /** The new width (or height) during a resize: the start size plus the pointer travel, snapped to at least 10 on the grid, and never below 1. */
  function Extent(start: real, travel: real, g: Grid): (r: real)
    ensures r >= 1.0
    ensures !g.snap ==> r == Max(1.0, start + travel)
    ensures g.snap ==> r >= 10.0 && (r == 10.0 || exists k: int :: r == GridLine(k, StepOf(g)))
  {
    var n := start + travel;
    var n' := if g.snap then Max(10.0, Snap(n, StepOf(g))) else n;
    Max(1.0, n')
  }

  /** The ids, in selection order, of selected widgets that exist and whose parent is not selected. */
  function DragRoots(ws: seq<Widget>, ids: seq<int>, sel: seq<int>): (roots: seq<int>)
    ensures forall r :: r in roots ==> r in ids && r in Ids(ws)
  {
    if ids == [] then []
    else
      var item := Find(ws, ids[0]);
      var keep := item.Some? && (item.value.parentId.None? || item.value.parentId.value !in sel);
      (if keep then [ids[0]] else []) + DragRoots(ws, ids[1..], sel)
  }

  /** Whether a drag moves the whole multi-selection: more than one distinct id is selected and the dragged widget is one of them. */
  predicate MultiDrag(sel: seq<int>, id: int) {
    |set x | x in sel| > 1 && id in sel
  }

  /** The multi-widget drag as the source writes it: every root of the selection moves with its subtree. */
  function DragShiftAsWritten(ws: seq<Widget>, sel: seq<int>, id: int, dx: real, dy: real): (r: seq<Widget>)
    ensures SameLinks(ws, r)
  {
    if MultiDrag(sel, id) then MoveEach(ws, DragRoots(ws, sel, sel), dx, dy)
    else
      var r := MoveWidgetWithChildren(ws, id, dx, dy);
      assert SameLinks(ws, r) by {
        assert forall j :: 0 <= j < |ws| ==> r[j].id == ws[j].id && r[j].parentId == ws[j].parentId;
      }
      r
  }

  /**
    The same drag as intended: in a multi-selection every selected widget and
    everything below it moves once; otherwise the dragged widget moves with its
    subtree.
  */
  function DragShift(ws: seq<Widget>, sel: seq<int>, id: int, dx: real, dy: real): (r: seq<Widget>)
    ensures |r| == |ws|
    ensures MultiDrag(sel, id) ==> r == MoveMarked(ws, Closure(ws, sel), dx, dy)
    ensures !MultiDrag(sel, id) ==> r == MoveWidgetWithChildren(ws, id, dx, dy)
  {
    if MultiDrag(sel, id) then MoveMarked(ws, Closure(ws, sel), dx, dy)
    else MoveWidgetWithChildren(ws, id, dx, dy)
  }

  /** A drag is under way: no pan, no marquee and no resize, and a dragging id that is present and not 0. */
  predicate Dragging(c: Canvas) {
    !c.ptr.panning && !c.ptr.selecting && c.ptr.resizingId.None? && c.ptr.draggingId.Some? && c.ptr.draggingId.value != 0
  }

  /**
    Where a drag puts the dragged widget's corner: the pointer's world point
    minus the grab offset, on the nearest grid line when snapping.
  */
  function DragTo(c: Canvas, client: Point, g: Grid): (p: Point)
    ensures !g.snap ==> p == Point(ToWorld(c.view, client).x - c.ptr.dragOffset.x, ToWorld(c.view, client).y - c.ptr.dragOffset.y)
    ensures g.snap ==> (exists k: int :: p.x == GridLine(k, StepOf(g))) && (exists k: int :: p.y == GridLine(k, StepOf(g)))
  {
    var m := ToWorld(c.view, client);
    var nx := m.x - c.ptr.dragOffset.x;
    var ny := m.y - c.ptr.dragOffset.y;
    if g.snap then Point(Snap(nx, StepOf(g)), Snap(ny, StepOf(g))) else Point(nx, ny)
  }

  /** How far a drag step shifts the dragged widget: from its corner (the first widget with the dragging id) to `DragTo`. */
  function DragDelta(c: Canvas, client: Point, g: Grid): (d: Point)
    requires c.ptr.draggingId.Some?
    ensures var i := IndexOf(c.s.doc.widgets, c.ptr.draggingId.value);
            i >= 0 ==> c.s.doc.widgets[i].x + d.x == DragTo(c, client, g).x && c.s.doc.widgets[i].y + d.y == DragTo(c, client, g).y
  {
    var i := IndexOf(c.s.doc.widgets, c.ptr.draggingId.value);
    if i < 0 then Point(0.0, 0.0)
    else
      var to := DragTo(c, client, g);
      Point(to.x - c.s.doc.widgets[i].x, to.y - c.s.doc.widgets[i].y)
  }

  /** A widget resized from the gesture's start size by the pointer's travel since then. */
  function Resized(w: Widget, c: Canvas, client: Point, g: Grid): (r: Widget)
    ensures r == w.(w := r.w, h := r.h) && r.w >= 1.0 && r.h >= 1.0
    ensures !g.snap ==> r.w == Max(1.0, c.ptr.resizeW + (ToWorld(c.view, client).x - c.ptr.resizeFrom.x))
    ensures !g.snap ==> r.h == Max(1.0, c.ptr.resizeH + (ToWorld(c.view, client).y - c.ptr.resizeFrom.y))
  {
    var m := ToWorld(c.view, client);
    w.(w := Extent(c.ptr.resizeW, m.x - c.ptr.resizeFrom.x, g), h := Extent(c.ptr.resizeH, m.y - c.ptr.resizeFrom.y, g))
  }

  /** A resize step: the first widget with the resizing id takes its new size; nothing else changes. */
  function ResizeMove(c: Canvas, client: Point, g: Grid): (r: Canvas)
    requires c.ptr.resizingId.Some?
    ensures r == c.(s := c.s.(doc := c.s.doc.(widgets := r.s.doc.widgets)))
    ensures var ws := c.s.doc.widgets;
            var i := IndexOf(ws, c.ptr.resizingId.value);
            && (i < 0 ==> r == c)
            && (i >= 0 ==> r.s.doc.widgets == ws[i := Resized(ws[i], c, client, g)])
  {
    var ws := c.s.doc.widgets;
    var i := IndexOf(ws, c.ptr.resizingId.value);
    if i < 0 then c
    else c.(s := c.s.(doc := c.s.doc.(widgets := ws[i := Resized(ws[i], c, client, g)])))
  }

  /**
    A drag step as the source writes it: the widgets shift so that the
    dragged widget's corner would sit at `DragTo`, a multi-selection moving
    every selected root with its subtree (`DragShiftAsWritten`); a dragging
    id that names no widget changes nothing.
  */
  function DragMove(c: Canvas, client: Point, g: Grid): (r: Canvas)
    requires c.ptr.draggingId.Some?
    ensures r == c.(s := c.s.(doc := c.s.doc.(widgets := r.s.doc.widgets)))
    ensures IndexOf(c.s.doc.widgets, c.ptr.draggingId.value) < 0 ==> r == c
    ensures IndexOf(c.s.doc.widgets, c.ptr.draggingId.value) >= 0 ==>
      r.s.doc.widgets == DragShiftAsWritten(c.s.doc.widgets, c.s.doc.selected, c.ptr.draggingId.value,
                           DragDelta(c, client, g).x, DragDelta(c, client, g).y)
  {
    var ws := c.s.doc.widgets;
    var id := c.ptr.draggingId.value;
    if IndexOf(ws, id) < 0 then c
    else
      var d := DragDelta(c, client, g);
      c.(s := c.s.(doc := c.s.doc.(widgets := DragShiftAsWritten(ws, c.s.doc.selected, id, d.x, d.y))))
  }

  /** The same drag step with the corrected multi-selection drag (`DragShift`); a single-widget drag is the same as `DragMove`. */
  function DragMoveCorrected(c: Canvas, client: Point, g: Grid): (r: Canvas)
    requires c.ptr.draggingId.Some?
    ensures r == c.(s := c.s.(doc := c.s.doc.(widgets := r.s.doc.widgets)))
    ensures !MultiDrag(c.s.doc.selected, c.ptr.draggingId.value) ==> r == DragMove(c, client, g)
    ensures IndexOf(c.s.doc.widgets, c.ptr.draggingId.value) < 0 ==> r == c
    ensures IndexOf(c.s.doc.widgets, c.ptr.draggingId.value) >= 0 ==>
      r.s.doc.widgets == DragShift(c.s.doc.widgets, c.s.doc.selected, c.ptr.draggingId.value,
                           DragDelta(c, client, g).x, DragDelta(c, client, g).y)
  {
    var ws := c.s.doc.widgets;
    var id := c.ptr.draggingId.value;
    if IndexOf(ws, id) < 0 then c
    else
      var d := DragDelta(c, client, g);
      c.(s := c.s.(doc := c.s.doc.(widgets := DragShift(ws, c.s.doc.selected, id, d.x, d.y))))
  }

  /**
    `onCanvasMouseMove`: the gesture flags are checked in the source's order.
    A pan follows the pointer; a marquee takes the pointer as its moving
    corner; a resize is a `ResizeMove`; a drag (a dragging id that is present
    and not 0) is a `DragMove`; anything else changes nothing.
  */
  function MouseMove(c: Canvas, client: Point, g: Grid): (r: Canvas)
    ensures r.s.hist == c.s.hist
    ensures c.ptr.panning || !c.ptr.selecting ==> r.ptr == c.ptr
    ensures !c.ptr.panning && c.ptr.selecting ==> r == MarqueeCorner(c, client)
    ensures c.ptr.panning ==> r.s == c.s && r.view.panX == c.ptr.panFrom.x + (client.x - c.ptr.panPointer.x)
                                          && r.view.panY == c.ptr.panFrom.y + (client.y - c.ptr.panPointer.y)
    ensures !c.ptr.panning ==> r.view == c.view
    ensures r.s.doc.nextId == c.s.doc.nextId && r.s.doc.selected == c.s.doc.selected
    ensures |r.s.doc.widgets| == |c.s.doc.widgets|
    ensures !c.ptr.panning && !c.ptr.selecting && c.ptr.resizingId.Some? ==> r == ResizeMove(c, client, g)
    ensures Dragging(c) ==> r == DragMove(c, client, g)
    ensures !c.ptr.panning && !c.ptr.selecting && c.ptr.resizingId.None? && !Dragging(c) ==> r == c
  {
    var ptr := c.ptr;
    if ptr.panning then
      c.(view := c.view.(panX := ptr.panFrom.x + (client.x - ptr.panPointer.x), panY := ptr.panFrom.y + (client.y - ptr.panPointer.y)))
    else if ptr.selecting then
      MarqueeCorner(c, client)
    else if ptr.resizingId.Some? then
      ResizeMove(c, client, g)
    else if !Dragging(c) then c
    else
      var r := DragMove(c, client, g);
      assert |r.s.doc.widgets| == |c.s.doc.widgets| by {
        var i := IndexOf(c.s.doc.widgets, ptr.draggingId.value);
        if i >= 0 {
          var to := DragTo(c, client, g);
          var ws := c.s.doc.widgets;
          assert SameLinks(ws, DragShiftAsWritten(ws, c.s.doc.selected, ptr.draggingId.value, to.x - ws[i].x, to.y - ws[i].y));
        }
      }
      r
  }

  /** The handler with the corrected drag: every gesture but a drag comes out exactly as with `MouseMove`. */
  function MouseMoveCorrected(c: Canvas, client: Point, g: Grid): (r: Canvas)
    ensures !Dragging(c) ==> r == MouseMove(c, client, g)
    ensures Dragging(c) ==> r == DragMoveCorrected(c, client, g)
  {
    if Dragging(c) then DragMoveCorrected(c, client, g) else MouseMove(c, client, g)
  }

  /** The marquee's moving corner while selecting. */
  function MarqueeCorner(c: Canvas, client: Point): (r: Canvas)
    requires !c.ptr.panning && c.ptr.selecting
    ensures r.s == c.s && r.view == c.view
    ensures r.ptr == c.ptr.(selectCurrent := ToWorld(c.view, client))
  {
    c.(ptr := c.ptr.(selectCurrent := ToWorld(c.view, client)))
  }

  /** Whether a widget's box meets the rectangle spanned by two corners (edges touching count). */
  predicate Overlaps(w: Widget, a: Point, b: Point) {
    w.x <= Max(a.x, b.x) && w.x + w.w >= Min(a.x, b.x) && w.y <= Max(a.y, b.y) && w.y + w.h >= Min(a.y, b.y)
  }

  /** The ids of the widgets the marquee meets, in list order. */
  function Marquee(ws: seq<Widget>, a: Point, b: Point): (r: seq<int>)
    ensures |r| <= |ws|
    ensures forall i :: 0 <= i < |ws| && Overlaps(ws[i], a, b) ==> ws[i].id in r
    ensures forall x :: x in r ==> exists i :: 0 <= i < |ws| && ws[i].id == x && Overlaps(ws[i], a, b)
  {
    if ws == [] then []
    else
      var rest := Marquee(ws[1..], a, b);
      assert forall x :: x in rest ==> exists i :: 0 <= i < |ws| && ws[i].id == x && Overlaps(ws[i], a, b) by {
        forall x | x in rest ensures exists i :: 0 <= i < |ws| && ws[i].id == x && Overlaps(ws[i], a, b) {
          var i :| 0 <= i < |ws[1..]| && ws[1..][i].id == x && Overlaps(ws[1..][i], a, b);
          assert ws[i + 1] == ws[1..][i];
        }
      }
      (if Overlaps(ws[0], a, b) then [ws[0].id] else []) + rest
  }

  /** Which corner the marquee started from does not matter. */
  lemma {:induction false} MarqueeSymmetric(ws: seq<Widget>, a: Point, b: Point)
    ensures Marquee(ws, a, b) == Marquee(ws, b, a)
  {
    if ws != [] {
      MarqueeSymmetric(ws[1..], a, b);
      assert Overlaps(ws[0], a, b) == Overlaps(ws[0], b, a);
    }
  }

  /** `onCanvasMouseUp`: end a pan; or finish a marquee, selecting what it meets; or end any drag and resize. */
  function MouseUp(c: Canvas): (r: Canvas)
    ensures r.view == c.view && r.s.hist == c.s.hist && r.s.doc.widgets == c.s.doc.widgets
    ensures c.ptr.panning ==> r == c.(ptr := c.ptr.(panning := false))
    ensures !c.ptr.panning && c.ptr.selecting ==>
      && !r.ptr.selecting
      && r.s.doc.selected == Marquee(c.s.doc.widgets, c.ptr.selectStart, c.ptr.selectCurrent)
    ensures !c.ptr.panning && !c.ptr.selecting ==>
      r == c.(ptr := c.ptr.(resizingId := None, draggingId := None))
  {
    var ptr := c.ptr;
    if ptr.panning then c.(ptr := ptr.(panning := false))
    else if ptr.selecting then
      c.(ptr := ptr.(selecting := false),
         s := c.s.(doc := c.s.doc.(selected := Marquee(c.s.doc.widgets, ptr.selectStart, ptr.selectCurrent))))
    else c.(ptr := ptr.(resizingId := None, draggingId := None))
  }

  /** A pan gesture that returns to where it started leaves the view where it was. */
  lemma PanReturns(c: Canvas, p: Point, q: Point, g: Grid)
    ensures var c1 := StartPan(c, p);
            var c2 := MouseMove(MouseMove(c1, q, g), p, g);
            c2.view == c.view
  {
  }

  /**
    Grabbing an unlocked, unselected widget and moving the pointer (without
    snapping) carries the widget's corner by exactly the pointer's world
    travel, and one undo brings back the widgets from before the drag.
  */
  lemma DragFollowsPointer(c: Canvas, i: nat, p0: Point, p1: Point, step: real)
    requires UniqueIds(c.s.doc.widgets) && Acyclic(c.s.doc.widgets)
    requires !c.ptr.panning && !c.ptr.selecting && c.ptr.resizingId.None?
    requires i < |c.s.doc.widgets| && !c.s.doc.widgets[i].locked && c.s.doc.widgets[i].id != 0
    requires c.s.doc.widgets[i].id !in c.s.doc.selected
    ensures var ws := c.s.doc.widgets;
            var c1 := StartDrag(c, ws[i], p0, false, false);
            var c2 := MouseMove(c1, p1, Grid(false, step));
            && c2.s.doc.widgets[i].x == ws[i].x + (ToWorld(c.view, p1).x - ToWorld(c.view, p0).x)
            && c2.s.doc.widgets[i].y == ws[i].y + (ToWorld(c.view, p1).y - ToWorld(c.view, p0).y)
            && Undo(c2.s.doc, c2.s.hist).0.widgets == ws
  {
    var ws := c.s.doc.widgets;
    var w := ws[i];
    var c1 := StartDrag(c, w, p0, false, false);
    assert c1.s.doc.selected == [w.id];
    assert (set x | x in [w.id]) == {w.id};
    assert c1.s.doc.widgets == ws && c1.view == c.view;
    DragLands(c1, p1, Grid(false, step), i);
    var c2 := MouseMove(c1, p1, Grid(false, step));
    assert c2.s.hist == Push(c.s.doc, c.s.hist);
  }

  /**
    A single-widget drag puts the dragged widget's corner at `DragTo` (on a
    grid line when snapping) and carries its whole subtree by the same offset;
    no other widget moves.
  */
  lemma DragLands(c: Canvas, client: Point, g: Grid, i: nat)
    requires UniqueIds(c.s.doc.widgets) && Acyclic(c.s.doc.widgets)
    requires Dragging(c) && i < |c.s.doc.widgets| && c.s.doc.widgets[i].id == c.ptr.draggingId.value
    requires !MultiDrag(c.s.doc.selected, c.ptr.draggingId.value)
    ensures var ws := c.s.doc.widgets;
            var r := DragMove(c, client, g).s.doc.widgets;
            var to := DragTo(c, client, g);
            && r[i].x == to.x && r[i].y == to.y
            && forall j :: 0 <= j < |ws| ==>
                 r[j] == if InSubtree(ws, ws[j].id, ws[i].id) then Translate(ws[j], DragDelta(c, client, g).x, DragDelta(c, client, g).y) else ws[j]
  {
    var ws := c.s.doc.widgets;
    var id := ws[i].id;
    var to := DragTo(c, client, g);
    IndexOfUnique(ws, i);
    assert Find(ws, id).Some?;
    MoveTranslatesSubtree(ws, id, DragDelta(c, client, g).x, DragDelta(c, client, g).y);
    assert InSubtree(ws, id, id);
  }

  /**
    A multi-selection drag as the source writes it carries every widget by
    the offset once for each selected root whose subtree holds it.
  */
  lemma MultiDragCounts(c: Canvas, client: Point, g: Grid, i: nat)
    requires UniqueIds(c.s.doc.widgets) && Acyclic(c.s.doc.widgets)
    requires Dragging(c) && i < |c.s.doc.widgets| && c.s.doc.widgets[i].id == c.ptr.draggingId.value
    requires MultiDrag(c.s.doc.selected, c.ptr.draggingId.value)
    ensures var ws := c.s.doc.widgets;
            var sel := c.s.doc.selected;
            var r := DragMove(c, client, g).s.doc.widgets;
            forall j :: 0 <= j < |ws| ==>
              var n := CoverCount(ws, DragRoots(ws, sel, sel), ws[j].id);
              r[j] == Translate(ws[j], Times(n, DragDelta(c, client, g).x), Times(n, DragDelta(c, client, g).y))
  {
    var ws := c.s.doc.widgets;
    var sel := c.s.doc.selected;
    IndexOfUnique(ws, i);
    forall j | 0 <= j < |ws| {
      MoveEachCounts(ws, DragRoots(ws, sel, sel), DragDelta(c, client, g).x, DragDelta(c, client, g).y, j);
    }
  }

  /**
    The corrected multi-selection drag step carries every selected widget and
    everything below one by the offset exactly once, and leaves the rest.
  */
  lemma MultiDragCorrectedOnce(c: Canvas, client: Point, g: Grid, i: nat)
    requires UniqueIds(c.s.doc.widgets) && Acyclic(c.s.doc.widgets)
    requires Dragging(c) && i < |c.s.doc.widgets| && c.s.doc.widgets[i].id == c.ptr.draggingId.value
    requires MultiDrag(c.s.doc.selected, c.ptr.draggingId.value)
    ensures var ws := c.s.doc.widgets;
            var r := MouseMoveCorrected(c, client, g).s.doc.widgets;
            forall j :: 0 <= j < |ws| ==>
              r[j] == if Covered(ws, c.s.doc.selected, ws[j].id) then Translate(ws[j], DragDelta(c, client, g).x, DragDelta(c, client, g).y) else ws[j]
  {
    IndexOfUnique(c.s.doc.widgets, i);
    DragMovesOnce(c.s.doc.widgets, c.s.doc.selected, c.ptr.draggingId.value, DragDelta(c, client, g).x, DragDelta(c, client, g).y);
  }

  /** In a multi-selection drag, with unique ids and acyclic links, the covered widgets move by the offset once and the rest stay. */
  lemma DragMovesOnce(ws: seq<Widget>, sel: seq<int>, id: int, dx: real, dy: real)
    requires UniqueIds(ws) && Acyclic(ws) && MultiDrag(sel, id)
    ensures var r := DragShift(ws, sel, id, dx, dy);
            forall j :: 0 <= j < |ws| ==> r[j] == if Covered(ws, sel, ws[j].id) then Translate(ws[j], dx, dy) else ws[j]
  {
    forall j | 0 <= j < |ws| {
      ClosureExactly(ws, sel, j);
    }
  }

  /**
    The drag as written moves a selected widget twice when its grandparent is
    selected and its parent is not: the chain 1 <- 2 <- 3 with 1 and 3
    selected, dragged by 10 to the right, carries widget 3 by 20.
  */
  lemma DragAsWrittenDoubleMoves()
    ensures var a := NewWidget("panel", 1);
            var b := NewWidget("panel", 2).(parentId := Some(1));
            var c := NewWidget("panel", 3).(parentId := Some(2));
            DragShiftAsWritten([a, b, c], [1, 3], 1, 10.0, 0.0)[2].x == c.x + 20.0
  {
    var a := NewWidget("panel", 1);
    var b := NewWidget("panel", 2).(parentId := Some(1));
    var c := NewWidget("panel", 3).(parentId := Some(2));
    var ws := [a, b, c];
    var sel := [1, 3];
    ChainAcyclic(ws);
    assert (set x | x in sel) == {1, 3};
    assert MultiDrag(sel, 1);
    IndexOfUnique(ws, 0);
    IndexOfUnique(ws, 2);
    assert sel[1..] == [3] && [3][1..] == [];
    assert DragRoots(ws, [3], sel) == [3];
    var roots := DragRoots(ws, sel, sel);
    assert roots == [1, 3];
    assert Lift(ws, 3, 1) == Some(2);
    assert Lift(ws, 3, 2) == Some(1);
    assert InSubtree(ws, 3, 1);
    assert 1 in Ids(ws) && 3 in Ids(ws);
    assert InSubtree(ws, 3, 3);
    assert CoverCount(ws, [3], 3) == 1;
    assert CoverCount(ws, roots, 3) == 2;
    MoveEachCounts(ws, roots, 10.0, 0.0, 2);
  }
}
