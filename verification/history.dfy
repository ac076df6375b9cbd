/**
  The linear undo/redo stacks of `useHistory`. A snapshot is the serialised
  widget list; parsing it back either yields the list (`Layout`) or fails /
  yields something that is not an array (`Malformed`). Serialisation is a
  value copy, so `Layout(ws)` stands for `JSON.stringify(ws)`.
*/
module History {
  import opened Wrappers
  import opened Types
  import opened WidgetStore

  datatype Snapshot = Layout(widgets: seq<Widget>) | Malformed

  /** `historyStack` (oldest first) and `futureStack` (most recently undone last). */
  datatype Stacks = Stacks(past: seq<Snapshot>, future: seq<Snapshot>)

  /** The most entries `pushHistory` keeps. */
  const MaxHistory := 100

  /** The widget store together with its undo stacks. */
  datatype Session = Session(doc: Doc, hist: Stacks)

  /** Call `pushHistory` and change nothing else. */
  function Record(s: Session): (r: Session)
    ensures r.doc == s.doc && r.hist == Push(s.doc, s.hist)
    ensures Undo(r.doc, r.hist).0.widgets == s.doc.widgets
  {
    Session(s.doc, Push(s.doc, s.hist))
  }

  /** The combined stack size stays within the cap. */
  predicate Bounded(h: Stacks) {
    |h.past| + |h.future| <= MaxHistory
  }

  /** Every stored snapshot that parses holds unique ids. */
  predicate SnapsUnique(h: Stacks) {
    (forall i :: 0 <= i < |h.past| ==> h.past[i].Layout? ==> UniqueIds(h.past[i].widgets))
    && (forall i :: 0 <= i < |h.future| ==> h.future[i].Layout? ==> UniqueIds(h.future[i].widgets))
  }

  /**
    `restoreLayout` as the source writes it: a parsed list replaces the widgets
    and clears the selection; anything else changes nothing. The id counter is
    left alone.
  */
  function RestoreAsWritten(d: Doc, snap: Snapshot): (r: Doc)
    ensures snap.Malformed? ==> r == d
    ensures snap.Layout? ==> r.widgets == snap.widgets && r.selected == [] && r.nextId == d.nextId
  {
    match snap
    case Malformed => d
    case Layout(ws) => Doc(ws, d.nextId, [])
  }

  /**
    `restoreLayout` with the counter raised past every restored id, so that the
    next `addWidget` cannot reuse an id of the restored list.
  */
  function Restore(d: Doc, snap: Snapshot): (r: Doc)
    ensures snap.Malformed? ==> r == d
    ensures snap.Layout? ==> r.widgets == snap.widgets && r.selected == []
    ensures snap.Layout? ==> r.nextId >= d.nextId && forall i :: 0 <= i < |r.widgets| ==> r.widgets[i].id < r.nextId
  {
    match snap
    case Malformed => d
    case Layout(ws) =>
      var above := MaxId(ws) + 1;
      Doc(ws, if d.nextId < above then above else d.nextId, [])
  }

  /** `pushHistory`: record the current widgets, drop the oldest beyond the cap, and forget the future. */
  function Push(d: Doc, h: Stacks): (r: Stacks)
    ensures r.future == []
    ensures |r.past| == if |h.past| < MaxHistory then |h.past| + 1 else |h.past|
    ensures r.past[|r.past| - 1] == Layout(d.widgets)
    ensures |h.past| < MaxHistory ==> r.past[..|h.past|] == h.past
    ensures |h.past| >= MaxHistory ==> r.past[..|r.past| - 1] == h.past[1..]
  {
    var grown := h.past + [Layout(d.widgets)];
    Stacks(if |grown| > MaxHistory then grown[1..] else grown, [])
  }

  /**
    `undoLayout`: with no history nothing happens; otherwise the current
    widgets go onto the future and the newest snapshot is restored the way
    `restoreLayout` does it, which leaves the id counter where it is.
  */
  function Undo(d: Doc, h: Stacks): (r: (Doc, Stacks))
    ensures h.past == [] ==> r == (d, h)
    ensures h.past != [] ==>
      && r.1.past == h.past[..|h.past| - 1]
      && r.1.future == h.future + [Layout(d.widgets)]
      && r.0.nextId == d.nextId
      && (h.past[|h.past| - 1].Malformed? ==> r.0 == d)
      && (h.past[|h.past| - 1].Layout? ==> r.0.widgets == h.past[|h.past| - 1].widgets && r.0.selected == [])
  {
    if h.past == [] then (d, h)
    else
      var prev := h.past[|h.past| - 1];
      (RestoreAsWritten(d, prev), Stacks(h.past[..|h.past| - 1], h.future + [Layout(d.widgets)]))
  }

  /** `redoLayout`, the mirror image of `Undo`, with the same restore. */
  function Redo(d: Doc, h: Stacks): (r: (Doc, Stacks))
    ensures h.future == [] ==> r == (d, h)
    ensures h.future != [] ==>
      && r.1.future == h.future[..|h.future| - 1]
      && r.1.past == h.past + [Layout(d.widgets)]
      && r.0.nextId == d.nextId
      && (h.future[|h.future| - 1].Malformed? ==> r.0 == d)
      && (h.future[|h.future| - 1].Layout? ==> r.0.widgets == h.future[|h.future| - 1].widgets && r.0.selected == [])
  {
    if h.future == [] then (d, h)
    else
      var next := h.future[|h.future| - 1];
      (RestoreAsWritten(d, next), Stacks(h.past + [Layout(d.widgets)], h.future[..|h.future| - 1]))
  }

  /**
    Undo with the corrected restore: the stacks and the widgets come out as
    with `Undo`, and the counter is raised past every restored id.
  */
  function UndoCorrected(d: Doc, h: Stacks): (r: (Doc, Stacks))
    ensures r.1 == Undo(d, h).1
    ensures r.0.widgets == Undo(d, h).0.widgets && r.0.selected == Undo(d, h).0.selected
    ensures r.0.nextId >= d.nextId
    ensures h.past != [] && h.past[|h.past| - 1].Layout? ==> forall i :: 0 <= i < |r.0.widgets| ==> r.0.widgets[i].id < r.0.nextId
  {
    if h.past == [] then (d, h)
    else
      var prev := h.past[|h.past| - 1];
      (Restore(d, prev), Stacks(h.past[..|h.past| - 1], h.future + [Layout(d.widgets)]))
  }

  /** Redo with the corrected restore. */
  function RedoCorrected(d: Doc, h: Stacks): (r: (Doc, Stacks))
    ensures r.1 == Redo(d, h).1
    ensures r.0.widgets == Redo(d, h).0.widgets && r.0.selected == Redo(d, h).0.selected
    ensures r.0.nextId >= d.nextId
    ensures h.future != [] && h.future[|h.future| - 1].Layout? ==> forall i :: 0 <= i < |r.0.widgets| ==> r.0.widgets[i].id < r.0.nextId
  {
    if h.future == [] then (d, h)
    else
      var next := h.future[|h.future| - 1];
      (Restore(d, next), Stacks(h.past + [Layout(d.widgets)], h.future[..|h.future| - 1]))
  }

  /** `clearHistory`. */
  function Clear(): (r: Stacks)
    ensures r.past == [] && r.future == []
  {
    Stacks([], [])
  }

  /** Push, undo, redo and clear keep the combined size within the cap. */
  lemma BoundedPreserved(d: Doc, h: Stacks)
    requires Bounded(h)
    ensures Bounded(Push(d, h))
    ensures Bounded(Undo(d, h).1) && Bounded(Redo(d, h).1)
    ensures Bounded(Clear())
  {
  }

  /**
    Push, then any edit, then undo brings back the widgets from before the
    edit; redo straight after brings back the edited widgets.
  */
  lemma UndoRedoRoundTrip(d: Doc, h: Stacks, edited: Doc)
    ensures var h1 := Push(d, h);
            var (d2, h2) := Undo(edited, h1);
            var (d3, _) := Redo(d2, h2);
            && d2.widgets == d.widgets && d2.selected == []
            && d3.widgets == edited.widgets && d3.selected == []
  {
  }

  /** A push between undo and redo empties the future, so the redo does nothing. */
  lemma PushDiscardsRedo(d: Doc, h: Stacks, edited: Doc)
    ensures var (d2, h2) := Undo(d, h);
            var h3 := Push(edited, h2);
            Redo(edited, h3) == (edited, h3)
  {
  }

  /**
    The source's undo and redo keep ids unique, in the widgets and in every
    snapshot, but not the counter's lead over them: see `UndoBreaksWf`.
  */
  lemma UndoKeepsUnique(d: Doc, h: Stacks)
    requires UniqueIds(d.widgets) && SnapsUnique(h)
    ensures UniqueIds(Undo(d, h).0.widgets) && SnapsUnique(Undo(d, h).1)
    ensures UniqueIds(Redo(d, h).0.widgets) && SnapsUnique(Redo(d, h).1)
  {
    var (u, hu) := Undo(d, h);
    var (v, hv) := Redo(d, h);
    if h.past != [] {
      assert forall i :: 0 <= i < |hu.past| ==> hu.past[i] == h.past[i];
      assert forall i :: 0 <= i < |hu.future| ==> hu.future[i] == (h.future + [Layout(d.widgets)])[i];
    }
    if h.future != [] {
      assert forall i :: 0 <= i < |hv.future| ==> hv.future[i] == h.future[i];
      assert forall i :: 0 <= i < |hv.past| ==> hv.past[i] == (h.past + [Layout(d.widgets)])[i];
    }
  }

  /**
    The source's undo can leave the counter at or below a restored id: a
    well-formed store with counter 2 undone to a snapshot holding id 5 keeps
    counter 2, so it is no longer well formed. The corrected undo raises it to 6.
  */
  lemma UndoBreaksWf()
    ensures var d := Doc([], 2, []);
            var h := Stacks([Layout([NewWidget("panel", 5)])], []);
            && Wf(d) && SnapsUnique(h)
            && Undo(d, h).0.nextId == 2 && !Wf(Undo(d, h).0)
            && UndoCorrected(d, h).0.nextId == 6 && Wf(UndoCorrected(d, h).0)
  {
    var d := Doc([], 2, []);
    var h := Stacks([Layout([NewWidget("panel", 5)])], []);
    assert Undo(d, h).0.widgets[0].id == 5;
    assert MaxId([NewWidget("panel", 5)]) == 5 by {
      assert [NewWidget("panel", 5)][..0] == [];
    }
  }

  /** The corrected undo and redo keep every snapshot's ids unique, and keep the store well formed. */
  lemma UndoCorrectedKeepsWf(d: Doc, h: Stacks)
    requires Wf(d) && SnapsUnique(h)
    ensures Wf(UndoCorrected(d, h).0) && SnapsUnique(UndoCorrected(d, h).1)
    ensures Wf(RedoCorrected(d, h).0) && SnapsUnique(RedoCorrected(d, h).1)
  {
    UndoKeepsUnique(d, h);
    if h.past != [] {
      RestoreWf(d, h.past[|h.past| - 1]);
    }
    if h.future != [] {
      RestoreWf(d, h.future[|h.future| - 1]);
    }
  }

  lemma RestoreWf(d: Doc, snap: Snapshot)
    requires Wf(d) && (snap.Layout? ==> UniqueIds(snap.widgets))
    ensures Wf(Restore(d, snap))
  {
  }

  /** Pushing a well-formed store keeps every snapshot's ids unique. */
  lemma PushKeepsSnapsUnique(d: Doc, h: Stacks)
    requires Wf(d) && SnapsUnique(h)
    ensures SnapsUnique(Push(d, h))
  {
    var grown := h.past + [Layout(d.widgets)];
    assert forall i :: 0 <= i < |grown| ==> grown[i].Layout? ==> UniqueIds(grown[i].widgets);
  }
}
