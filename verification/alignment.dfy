/**
  The six align operations of `useAlignment`. Each one takes the widget with
  the first selected id as the reference and rewrites one field of every other
  selected widget. Only the two size operations record history.
*/
module Alignment {
  import opened Wrappers
  import opened Types
  import opened Forest
  import opened WidgetStore
  import opened History

  datatype AlignKind = Left | Top | HCenter | VCenter | SameWidth | SameHeight

  /** The operation's outcome and the status message it sets, if any. */
  datatype Outcome = Outcome(session: Session, message: Option<string>)

  /** The message shown when fewer than two widgets are selected. */
  function TooFewMessage(kind: AlignKind): string {
    match kind
    case SameWidth => "至少选中两个控件才能等宽"
    case SameHeight => "至少选中两个控件才能等高"
    case _ => "至少选中两个控件才能对齐"
  }

  /** Whether the operation calls `pushHistory` before writing. */
  predicate Records(kind: AlignKind) {
    kind == SameWidth || kind == SameHeight
  }

  /** The new value one selected widget `w` gets from the reference `base`. */
  function Aligned(kind: AlignKind, base: Widget, w: Widget): (r: Widget)
    ensures kind == Left ==> r == w.(x := base.x)
    ensures kind == Top ==> r == w.(y := base.y)
    ensures kind == HCenter ==> r == w.(x := Round(base.x + base.w / 2.0 - w.w / 2.0) as real)
    ensures kind == VCenter ==> r == w.(y := Round(base.y + base.h / 2.0 - w.h / 2.0) as real)
    ensures kind == SameWidth ==> r == w.(w := base.w)
    ensures kind == SameHeight ==> r == w.(h := base.h)
  {
    match kind
    case Left => w.(x := base.x)
    case Top => w.(y := base.y)
    case HCenter => w.(x := Round(base.x + base.w / 2.0 - w.w / 2.0) as real)
    case VCenter => w.(y := Round(base.y + base.h / 2.0 - w.h / 2.0) as real)
    case SameWidth => w.(w := OrNum(base.w, 0.0))
    case SameHeight => w.(h := OrNum(base.h, 0.0))
  }

  /** Rewrite every selected widget whose id differs from the reference's; keep the rest. */
  function AlignAll(kind: AlignKind, base: Widget, ws: seq<Widget>, sel: seq<int>): (r: seq<Widget>)
    ensures |r| == |ws|
    ensures forall i :: 0 <= i < |ws| && (ws[i].id !in sel || ws[i].id == base.id) ==> r[i] == ws[i]
    ensures forall i :: 0 <= i < |ws| && ws[i].id in sel && ws[i].id != base.id ==> r[i] == Aligned(kind, base, ws[i])
  {
    if ws == [] then []
    else
      [if ws[0].id in sel && ws[0].id != base.id then Aligned(kind, base, ws[0]) else ws[0]]
      + AlignAll(kind, base, ws[1..], sel)
  }

  /** `alignLeft`, `alignTop`, `alignHCenter`, `alignVCenter`, `alignSameWidth`, `alignSameHeight`. */
  function Align(s: Session, kind: AlignKind): (r: Outcome)
    ensures |s.doc.selected| < 2 ==> r == Outcome(s, Some(TooFewMessage(kind)))
    ensures |s.doc.selected| >= 2 && s.doc.selected[0] !in Ids(s.doc.widgets) ==> r == Outcome(s, None)
    ensures |s.doc.selected| >= 2 && s.doc.selected[0] in Ids(s.doc.widgets) ==>
      var base := s.doc.widgets[IndexOf(s.doc.widgets, s.doc.selected[0])];
      && r.message.None?
      && r.session.hist == (if Records(kind) then Push(s.doc, s.hist) else s.hist)
      && r.session.doc == s.doc.(widgets := AlignAll(kind, base, s.doc.widgets, s.doc.selected))
  {
    var d := s.doc;
    if |d.selected| < 2 then Outcome(s, Some(TooFewMessage(kind)))
    else
      var found := Find(d.widgets, d.selected[0]);
      if found.None? then Outcome(s, None)
      else
        var base := found.value;
        var h := if Records(kind) then Push(d, s.hist) else s.hist;
        Outcome(Session(d.(widgets := AlignAll(kind, base, d.widgets, d.selected)), h), None)
  }

  /** No operation touches a widget outside the selection, nor any widget carrying the reference's id. */
  lemma AlignFrames(s: Session, kind: AlignKind, i: nat)
    requires i < |s.doc.widgets|
    requires s.doc.widgets[i].id !in s.doc.selected || s.doc.widgets[i].id == s.doc.selected[0]
    ensures Align(s, kind).session.doc.widgets[i] == s.doc.widgets[i]
  {
  }

  /**
    After a left align every selected widget stands at the reference's x; the
    reference itself stays where it was, and only `x` changes.
  */
  lemma AlignLeftLinesUp(s: Session, i: nat)
    requires UniqueIds(s.doc.widgets)
    requires |s.doc.selected| >= 2 && s.doc.selected[0] in Ids(s.doc.widgets)
    requires i < |s.doc.widgets| && s.doc.widgets[i].id in s.doc.selected
    ensures var ws := s.doc.widgets;
            var r := Align(s, Left).session.doc.widgets;
            var base := Find(ws, s.doc.selected[0]).value;
            && r[i].x == base.x && r[i].(x := ws[i].x) == ws[i]
  {
  }

  /** After a horizontal-centre align every selected widget's centre lies within half a unit of the reference's centre. */
  lemma HCenterCentres(s: Session, i: nat)
    requires |s.doc.selected| >= 2 && s.doc.selected[0] in Ids(s.doc.widgets)
    requires i < |s.doc.widgets| && s.doc.widgets[i].id in s.doc.selected
    requires s.doc.widgets[i].id != s.doc.selected[0]
    ensures var ws := s.doc.widgets;
            var r := Align(s, HCenter).session.doc.widgets;
            var base := Find(ws, s.doc.selected[0]).value;
            var centre := r[i].x + r[i].w / 2.0;
            var target := base.x + base.w / 2.0;
            target - 1.0 / 2.0 < centre <= target + 1.0 / 2.0
  {
  }

  /** The size operations make every selected widget as wide (high) as the reference and can be undone in one step. */
  lemma SameWidthUndo(s: Session, i: nat)
    requires UniqueIds(s.doc.widgets)
    requires |s.doc.selected| >= 2 && s.doc.selected[0] in Ids(s.doc.widgets)
    requires i < |s.doc.widgets| && s.doc.widgets[i].id in s.doc.selected
    ensures var r := Align(s, SameWidth).session;
            && r.doc.widgets[i].w == Find(s.doc.widgets, s.doc.selected[0]).value.w
            && Undo(r.doc, r.hist).0.widgets == s.doc.widgets
  {
  }
}
