/**
  Copy and paste of one widget (`useClipboard`, whose TypeScript and
  JavaScript versions have the same bodies). The clipboard holds a value copy,
  so later edits of the original never reach it.
*/
module Clipboard {
  import opened Wrappers
  import opened Types
  import opened Forest
  import opened WidgetStore
  import opened History

  /** How far a pasted widget lands from the copied one, on both axes. */
  const PasteOffset := 20.0

  /** `copySelection`: with no selected widget the clipboard keeps what it had. */
  function Copy(d: Doc, clip: Option<Widget>): (r: Option<Widget>)
    ensures SelectedWidget(d).None? ==> r == clip
    ensures SelectedWidget(d).Some? ==> r.Some? && r.value.id == d.selected[0] && r.value in d.widgets
  {
    var sel := SelectedWidget(d);
    if sel.None? then clip else sel
  }

  /** The widget a paste adds: the copy with the next id, shifted by the offset. */
  function Pasted(data: Widget, id: int): (w: Widget)
    ensures w.id == id && w.x == data.x + PasteOffset && w.y == data.y + PasteOffset
    ensures w.(id := data.id, x := data.x, y := data.y) == data
  {
    data.(id := id, x := OrNum(data.x, 0.0) + PasteOffset, y := OrNum(data.y, 0.0) + PasteOffset)
  }

  /** `pasteClipboard`: an empty clipboard changes nothing; otherwise append the pasted widget and select only it. */
  function Paste(d: Doc, clip: Option<Widget>): (r: Doc)
    ensures clip.None? ==> r == d
    ensures clip.Some? ==>
      && r.widgets == d.widgets + [Pasted(clip.value, d.nextId)]
      && r.nextId == d.nextId + 1
      && r.selected == [d.nextId]
  {
    match clip
    case None => d
    case Some(data) => Doc(d.widgets + [Pasted(data, d.nextId)], d.nextId + 1, [d.nextId])
  }

  /** `pasteClipboardWithHistory`: the history push happens first, whether or not there is anything to paste. */
  function PasteWithHistory(s: Session, clip: Option<Widget>): (r: Session)
    ensures r.hist == Push(s.doc, s.hist)
    ensures r.doc == Paste(s.doc, clip)
    ensures Undo(r.doc, r.hist).0.widgets == s.doc.widgets
  {
    Session(Paste(s.doc, clip), Push(s.doc, s.hist))
  }

  /** A paste hands out a fresh id, so the store stays well formed. */
  lemma PasteWf(d: Doc, clip: Option<Widget>)
    requires Wf(d)
    ensures Wf(Paste(d, clip))
  {
    if clip.Some? {
      var ws := Paste(d, clip).widgets;
      assert forall i :: 0 <= i < |d.widgets| ==> ws[i] == d.widgets[i];
    }
  }

  /** Pasting twice lands both copies at the same place, because the clipboard is not changed by a paste. */
  lemma PasteTwiceSameOffset(d: Doc, data: Widget)
    ensures var d1 := Paste(d, Some(data));
            var d2 := Paste(d1, Some(data));
            && |d2.widgets| == |d.widgets| + 2
            && d2.widgets[|d.widgets|].x == d2.widgets[|d.widgets| + 1].x == data.x + PasteOffset
            && d2.widgets[|d.widgets|].y == d2.widgets[|d.widgets| + 1].y == data.y + PasteOffset
            && d2.widgets[|d.widgets|].id + 1 == d2.widgets[|d.widgets| + 1].id
  {
  }

  /** Copy then paste gives the selected widget back, moved by the offset and under the next id. */
  lemma CopyPaste(d: Doc, clip: Option<Widget>)
    requires SelectedWidget(d).Some?
    ensures var p := Paste(d, Copy(d, clip));
            var w := SelectedWidget(d).value;
            p.widgets[|p.widgets| - 1] == w.(id := d.nextId, x := w.x + PasteOffset, y := w.y + PasteOffset)
  {
  }
}
