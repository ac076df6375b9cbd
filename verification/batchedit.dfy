/**
  The batch edits of `useBatchEdit`: move, size, text and image applied to the
  whole selection. Each edit that acts calls `pushHistory` once, before it
  writes anything.
*/
module BatchEdit {
  import opened Wrappers
  import opened Types
  import opened Forest
  import opened WidgetStore
  import opened History

  /** Apply `f` to every widget whose id is selected; keep the rest. */
  function Rewrite(ws: seq<Widget>, sel: seq<int>, f: Widget -> Widget): (r: seq<Widget>)
    ensures |r| == |ws|
    ensures forall i :: 0 <= i < |ws| ==> r[i] == if ws[i].id in sel then f(ws[i]) else ws[i]
  {
    if ws == [] then [] else [if ws[0].id in sel then f(ws[0]) else ws[0]] + Rewrite(ws[1..], sel, f)
  }

  /** The ids `applyBatchMove` moves, in list order: selected widgets that are roots or whose parent is not selected. */
  function BatchRoots(ws: seq<Widget>, sel: seq<int>): (roots: seq<int>)
    ensures forall r :: r in roots ==> r in sel
    ensures forall i :: 0 <= i < |ws| && ws[i].id in sel && (ws[i].parentId.None? || ws[i].parentId.value !in sel) ==> ws[i].id in roots
    ensures forall r :: r in roots ==> exists i :: 0 <= i < |ws| && ws[i].id == r && (ws[i].parentId.None? || ws[i].parentId.value !in sel)
  {
    if ws == [] then []
    else
      var w := ws[0];
      var rest := BatchRoots(ws[1..], sel);
      assert forall r :: r in rest ==> exists i :: 1 <= i < |ws| && ws[i].id == r && (ws[i].parentId.None? || ws[i].parentId.value !in sel) by {
        forall r | r in rest ensures exists i :: 1 <= i < |ws| && ws[i].id == r && (ws[i].parentId.None? || ws[i].parentId.value !in sel) {
          var i :| 0 <= i < |ws[1..]| && ws[1..][i].id == r && (ws[1..][i].parentId.None? || ws[1..][i].parentId.value !in sel);
          assert ws[i + 1] == ws[1..][i];
        }
      }
      (if w.id in sel && (w.parentId.None? || w.parentId.value !in sel) then [w.id] else []) + rest
  }

  /** `rootIds.forEach(id => moveWidgetWithChildren(id, dx, dy))`. */
  function MoveEach(ws: seq<Widget>, roots: seq<int>, dx: real, dy: real): (r: seq<Widget>)
    ensures SameLinks(ws, r)
    decreases |roots|
  {
    if roots == [] then ws else MoveEach(MoveWidgetWithChildren(ws, roots[0], dx, dy), roots[1..], dx, dy)
  }

  /** How many of `roots` are listed and have `x` in their subtree. */
  ghost function CoverCount(ws: seq<Widget>, roots: seq<int>, x: int): nat {
    if roots == [] then 0
    else (if roots[0] in Ids(ws) && InSubtree(ws, x, roots[0]) then 1 else 0) + CoverCount(ws, roots[1..], x)
  }

  /** Counts depend only on the links. */
  lemma {:induction false} CoverCountSameLinks(a: seq<Widget>, b: seq<Widget>, roots: seq<int>, x: int)
    requires SameLinks(a, b)
    ensures CoverCount(a, roots, x) == CoverCount(b, roots, x)
  {
    if roots != [] {
      SameLinksKeep(a, b);
      CoverCountSameLinks(a, b, roots[1..], x);
    }
  }

  /** Translating twice is translating by the sum. */
  lemma TranslateTwice(w: Widget, a: real, b: real, c: real, d: real)
    ensures Translate(Translate(w, a, b), c, d) == Translate(w, a + c, b + d)
  {
  }

  /**
    With unique ids and acyclic links, moving a list of roots one after the
    other translates each widget once for every root whose subtree holds it.
  */
  lemma {:induction false} MoveEachCounts(ws: seq<Widget>, roots: seq<int>, dx: real, dy: real, j: nat)
    requires UniqueIds(ws) && Acyclic(ws) && j < |ws|
    ensures var n := CoverCount(ws, roots, ws[j].id);
            MoveEach(ws, roots, dx, dy)[j] == Translate(ws[j], Times(n, dx), Times(n, dy))
    decreases |roots|
  {
    if roots != [] {
      var ws1 := MoveWidgetWithChildren(ws, roots[0], dx, dy);
      MoveKeepsForest(ws, roots[0], dx, dy);
      MoveEachCounts(ws1, roots[1..], dx, dy, j);
      CoverCountSameLinks(ws, ws1, roots[1..], ws[j].id);
      MoveOne(ws, roots[0], dx, dy, j);
      MoveEachCons(ws, roots, dx, dy, j, CoverCount(ws, roots[1..], ws[j].id), roots[0] in Ids(ws) && InSubtree(ws, ws[j].id, roots[0]));
    } else {
      assert Translate(ws[j], 0.0, 0.0) == ws[j];
    }
  }

  /** The first root's move, given what it and the remaining roots do to the widget at `j`. */
  lemma MoveEachCons(ws: seq<Widget>, roots: seq<int>, dx: real, dy: real, j: nat, m: nat, hit: bool)
    requires j < |ws| && roots != []
    requires m == CoverCount(ws, roots[1..], ws[j].id)
    requires hit == (roots[0] in Ids(ws) && InSubtree(ws, ws[j].id, roots[0]))
    requires var ws1 := MoveWidgetWithChildren(ws, roots[0], dx, dy);
             && ws1[j] == (if hit then Translate(ws[j], dx, dy) else ws[j])
             && MoveEach(ws1, roots[1..], dx, dy)[j] == Translate(ws1[j], Times(m, dx), Times(m, dy))
    ensures var n := CoverCount(ws, roots, ws[j].id);
            MoveEach(ws, roots, dx, dy)[j] == Translate(ws[j], Times(n, dx), Times(n, dy))
  {
    var ws1 := MoveWidgetWithChildren(ws, roots[0], dx, dy);
    MoveEachStep(ws[j], ws1[j], MoveEach(ws1, roots[1..], dx, dy)[j], hit, m, dx, dy);
    var n := m + (if hit then 1 else 0);
    assert MoveEach(ws1, roots[1..], dx, dy)[j] == Translate(ws[j], Times(n, dx), Times(n, dy));
    MoveEachUnfold(ws, roots, dx, dy, ws[j].id);
    assert n == CoverCount(ws, roots, ws[j].id);
    assert MoveEach(ws, roots, dx, dy)[j] == MoveEach(ws1, roots[1..], dx, dy)[j];
  }

  lemma MoveEachUnfold(ws: seq<Widget>, roots: seq<int>, dx: real, dy: real, x: int)
    requires roots != []
    ensures MoveEach(ws, roots, dx, dy) == MoveEach(MoveWidgetWithChildren(ws, roots[0], dx, dy), roots[1..], dx, dy)
    ensures CoverCount(ws, roots, x)
      == CoverCount(ws, roots[1..], x) + (if roots[0] in Ids(ws) && InSubtree(ws, x, roots[0]) then 1 else 0)
  {
  }

  /** One root's move followed by `m` more translations of the same widget. */
  lemma MoveEachStep(w: Widget, w1: Widget, last: Widget, hit: bool, m: nat, dx: real, dy: real)
    requires w1 == if hit then Translate(w, dx, dy) else w
    requires last == Translate(w1, Times(m, dx), Times(m, dy))
    ensures var n := m + (if hit then 1 else 0);
            last == Translate(w, Times(n, dx), Times(n, dy))
  {
    if hit {
      assert Times(m + 1, dx) == dx + Times(m, dx);
      assert Times(m + 1, dy) == dy + Times(m, dy);
      TranslateTwice(w, dx, dy, Times(m, dx), Times(m, dy));
    }
  }

  /** One move keeps the ids and links, so the forest facts carry over. */
  lemma MoveKeepsForest(ws: seq<Widget>, rootId: int, dx: real, dy: real)
    requires UniqueIds(ws) && Acyclic(ws)
    ensures var ws1 := MoveWidgetWithChildren(ws, rootId, dx, dy);
            SameLinks(ws, ws1) && UniqueIds(ws1) && Acyclic(ws1)
  {
    var ws1 := MoveWidgetWithChildren(ws, rootId, dx, dy);
    assert SameLinks(ws, ws1);
    SameLinksKeep(ws, ws1);
  }

  /** One move, seen from one widget. */
  lemma MoveOne(ws: seq<Widget>, rootId: int, dx: real, dy: real, j: nat)
    requires UniqueIds(ws) && Acyclic(ws) && j < |ws|
    ensures MoveWidgetWithChildren(ws, rootId, dx, dy)[j]
      == if rootId in Ids(ws) && InSubtree(ws, ws[j].id, rootId) then Translate(ws[j], dx, dy) else ws[j]
  {
    MoveTranslatesSubtree(ws, rootId, dx, dy);
  }

  /** `applyBatchMove` as the source writes it. */
  function BatchMoveAsWritten(s: Session, dx: real, dy: real): (r: Session)
    ensures (dx == 0.0 && dy == 0.0) || s.doc.selected == [] ==> r == s
    ensures !((dx == 0.0 && dy == 0.0) || s.doc.selected == []) ==>
      r.hist == Push(s.doc, s.hist) && SameLinks(s.doc.widgets, r.doc.widgets)
  {
    if (dx == 0.0 && dy == 0.0) || s.doc.selected == [] then s
    else
      var ws := s.doc.widgets;
      Session(s.doc.(widgets := MoveEach(ws, BatchRoots(ws, s.doc.selected), dx, dy)), Push(s.doc, s.hist))
  }

  /**
    A selected widget whose parent is unselected but whose grandparent is
    selected is moved twice: once with its grandparent's subtree and once as a
    root of its own.
  */
  lemma BatchMoveAsWrittenDoubleMoves()
    ensures var a := NewWidget("panel", 1);
            var b := NewWidget("panel", 2).(parentId := Some(1));
            var c := NewWidget("panel", 3).(parentId := Some(2));
            var s := Session(Doc([a, b, c], 4, [1, 3]), Stacks([], []));
            BatchMoveAsWritten(s, 10.0, 0.0).doc.widgets[2].x == c.x + 20.0
  {
    var a := NewWidget("panel", 1);
    var b := NewWidget("panel", 2).(parentId := Some(1));
    var c := NewWidget("panel", 3).(parentId := Some(2));
    var ws := [a, b, c];
    var sel := [1, 3];
    ChainAcyclic(ws);
    assert BatchRoots(ws[2..], sel) == [3];
    assert BatchRoots(ws[1..], sel) == [3] by {
      assert ws[1..][1..] == ws[2..];
    }
    var roots := BatchRoots(ws, sel);
    assert roots == [1, 3];
    assert Lift(ws, 3, 1) == Some(2);
    assert Lift(ws, 3, 2) == Some(1);
    assert InSubtree(ws, 3, 1);
    assert 1 in Ids(ws) && 3 in Ids(ws);
    assert InSubtree(ws, 3, 3);
    assert [1, 3][1..] == [3];
    assert CoverCount(ws, [3], 3) == 1;
    assert CoverCount(ws, roots, 3) == 2;
    MoveEachCounts(ws, roots, 10.0, 0.0, 2);
  }

  /** The three-widget chain 1 <- 2 <- 3 has no cycle. */
  lemma ChainAcyclic(ws: seq<Widget>)
    requires |ws| == 3 && ws[0].id == 1 && ws[1].id == 2 && ws[2].id == 3
    requires ws[0].parentId == None && ws[1].parentId == Some(1) && ws[2].parentId == Some(2)
    ensures UniqueIds(ws) && Acyclic(ws)
  {
    IndexOfUnique(ws, 0);
    IndexOfUnique(ws, 1);
    IndexOfUnique(ws, 2);
    forall x ensures Escapes(ws, x) {
      if x == 3 {
        assert Lift(ws, x, 1) == Some(2);
        assert Lift(ws, x, 2) == Some(1);
        assert Lift(ws, x, 3).None?;
        LiftNoneStays(ws, x, 3, 4);
      } else if x == 2 {
        assert Lift(ws, x, 1) == Some(1);
        assert Lift(ws, x, 2).None?;
        LiftNoneStays(ws, x, 2, 4);
      } else {
        assert Lift(ws, x, 1).None?;
        LiftNoneStays(ws, x, 1, 4);
      }
    }
  }

  /** Translate exactly the widgets whose id is in `marked`. */
  function MoveMarked(ws: seq<Widget>, marked: set<int>, dx: real, dy: real): (r: seq<Widget>)
    ensures |r| == |ws|
    ensures forall i :: 0 <= i < |ws| ==> r[i] == if ws[i].id in marked then Translate(ws[i], dx, dy) else ws[i]
  {
    if ws == [] then [] else [if ws[0].id in marked then Translate(ws[0], dx, dy) else ws[0]] + MoveMarked(ws[1..], marked, dx, dy)
  }

  /**
    `applyBatchMove` as intended: every selected widget and everything below
    it moves by the offset once.
  */
  function BatchMove(s: Session, dx: real, dy: real): (r: Session)
    ensures (dx == 0.0 && dy == 0.0) || s.doc.selected == [] ==> r == s
    ensures !((dx == 0.0 && dy == 0.0) || s.doc.selected == []) ==> r.hist == Push(s.doc, s.hist)
    ensures r.doc.nextId == s.doc.nextId && r.doc.selected == s.doc.selected
  {
    if (dx == 0.0 && dy == 0.0) || s.doc.selected == [] then s
    else
      var ws := s.doc.widgets;
      Session(s.doc.(widgets := MoveMarked(ws, Closure(ws, s.doc.selected), dx, dy)), Push(s.doc, s.hist))
  }

  /** With unique ids and acyclic links, the batch move translates exactly the covered widgets, each once. */
  lemma BatchMoveOnce(s: Session, dx: real, dy: real)
    requires UniqueIds(s.doc.widgets) && Acyclic(s.doc.widgets)
    requires !(dx == 0.0 && dy == 0.0) && s.doc.selected != []
    ensures var ws := s.doc.widgets;
            var r := BatchMove(s, dx, dy).doc.widgets;
            forall j :: 0 <= j < |ws| ==>
              r[j] == if Covered(ws, s.doc.selected, ws[j].id) then Translate(ws[j], dx, dy) else ws[j]
  {
    forall j | 0 <= j < |s.doc.widgets| {
      ClosureExactly(s.doc.widgets, s.doc.selected, j);
    }
  }

  /** `applyBatchSize`: a given width or height, floored at 1, goes onto every selected widget. */
  function BatchSize(s: Session, w: Option<real>, h: Option<real>): (r: Session)
    ensures (w.None? && h.None?) || s.doc.selected == [] ==> r == s
    ensures !((w.None? && h.None?) || s.doc.selected == []) ==> r.hist == Push(s.doc, s.hist)
    ensures |r.doc.widgets| == |s.doc.widgets| && r.doc.nextId == s.doc.nextId && r.doc.selected == s.doc.selected
    ensures forall i :: 0 <= i < |s.doc.widgets| && s.doc.widgets[i].id !in s.doc.selected ==> r.doc.widgets[i] == s.doc.widgets[i]
    ensures !((w.None? && h.None?) || s.doc.selected == []) ==>
      forall i :: 0 <= i < |s.doc.widgets| && s.doc.widgets[i].id in s.doc.selected ==>
        var was := s.doc.widgets[i];
        var now := r.doc.widgets[i];
        && now.w == (if w.Some? then Max(1.0, w.value) else was.w)
        && now.h == (if h.Some? then Max(1.0, h.value) else was.h)
        && now.(w := was.w, h := was.h) == was
  {
    if (w.None? && h.None?) || s.doc.selected == [] then s
    else
      var resize := (wd: Widget) =>
        wd.(w := if w.Some? then Max(1.0, w.value) else wd.w, h := if h.Some? then Max(1.0, h.value) else wd.h);
      Session(s.doc.(widgets := Rewrite(s.doc.widgets, s.doc.selected, resize)), Push(s.doc, s.hist))
  }

  /** `applyBatchText`: the empty string means "no change"; otherwise every selected widget that has a text gets the new one. */
  function BatchText(s: Session, txt: string): (r: Session)
    ensures txt == "" || s.doc.selected == [] ==> r == s
    ensures !(txt == "" || s.doc.selected == []) ==> r.hist == Push(s.doc, s.hist)
    ensures |r.doc.widgets| == |s.doc.widgets| && r.doc.nextId == s.doc.nextId && r.doc.selected == s.doc.selected
    ensures forall i :: 0 <= i < |s.doc.widgets| ==>
      var was := s.doc.widgets[i];
      r.doc.widgets[i] == if txt != "" && was.id in s.doc.selected && was.text.Some? then was.(text := Some(txt)) else was
  {
    if txt == "" || s.doc.selected == [] then s
    else
      var retext := (wd: Widget) => if wd.text.Some? then wd.(text := Some(txt)) else wd;
      Session(s.doc.(widgets := Rewrite(s.doc.widgets, s.doc.selected, retext)), Push(s.doc, s.hist))
  }

  /** `applyBatchImage`: an empty path means "no change"; otherwise every selected widget whose type takes an image gets it. */
  function BatchImage(s: Session, img: string, supportsImage: string -> bool): (r: Session)
    ensures img == "" || s.doc.selected == [] ==> r == s
    ensures !(img == "" || s.doc.selected == []) ==> r.hist == Push(s.doc, s.hist)
    ensures |r.doc.widgets| == |s.doc.widgets| && r.doc.nextId == s.doc.nextId && r.doc.selected == s.doc.selected
    ensures forall i :: 0 <= i < |s.doc.widgets| ==>
      var was := s.doc.widgets[i];
      r.doc.widgets[i] == if img != "" && was.id in s.doc.selected && supportsImage(was.kind) then was.(image := Some(img)) else was
  {
    if img == "" || s.doc.selected == [] then s
    else
      var reimage := (wd: Widget) => if supportsImage(wd.kind) then wd.(image := Some(img)) else wd;
      Session(s.doc.(widgets := Rewrite(s.doc.widgets, s.doc.selected, reimage)), Push(s.doc, s.hist))
  }

  /**
    Every batch edit that acts (moving as written or corrected, sizing,
    retexting, reimaging) pushes one snapshot first, so one undo gives back
    the widgets from before it.
  */
  lemma BatchUndo(s: Session, dx: real, dy: real, w: Option<real>, h: Option<real>, txt: string, img: string, supportsImage: string -> bool)
    requires s.doc.selected != []
    ensures !(dx == 0.0 && dy == 0.0) ==>
              var r := BatchMoveAsWritten(s, dx, dy);
              Undo(r.doc, r.hist).0.widgets == s.doc.widgets
    ensures !(dx == 0.0 && dy == 0.0) ==>
              var r := BatchMove(s, dx, dy);
              Undo(r.doc, r.hist).0.widgets == s.doc.widgets
    ensures !(w.None? && h.None?) ==>
              var r := BatchSize(s, w, h);
              Undo(r.doc, r.hist).0.widgets == s.doc.widgets
    ensures txt != "" ==>
              var r := BatchText(s, txt);
              Undo(r.doc, r.hist).0.widgets == s.doc.widgets
    ensures img != "" ==>
              var r := BatchImage(s, img, supportsImage);
              Undo(r.doc, r.hist).0.widgets == s.doc.widgets
  {
    if !(dx == 0.0 && dy == 0.0) {
      PushedUndo(s, BatchMoveAsWritten(s, dx, dy));
      PushedUndo(s, BatchMove(s, dx, dy));
    }
    if !(w.None? && h.None?) {
      PushedUndo(s, BatchSize(s, w, h));
    }
    if txt != "" {
      PushedUndo(s, BatchText(s, txt));
    }
    if img != "" {
      PushedUndo(s, BatchImage(s, img, supportsImage));
    }
  }

  /** A session whose history is `s`'s with `s` pushed on top undoes back to `s`'s widgets. */
  lemma PushedUndo(s: Session, r: Session)
    requires r.hist == Push(s.doc, s.hist)
    ensures Undo(r.doc, r.hist).0.widgets == s.doc.widgets
  {
  }
}
