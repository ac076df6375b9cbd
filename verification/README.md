# WC3 UI designer — a Dafny model of the editor core

The WC3 UI designer is a layout editor for Warcraft III user interfaces: a Vue
front end on a Tauri shell. A project is a flat list of widgets. Each widget
links to its parent by id, so the list describes a forest. The editor moves,
aligns, resizes, copies and deletes widgets, and keeps an undo/redo history of
layout snapshots. It also edits tween animations per widget and previews them
frame by frame. An export step writes the forest as Lua or TypeScript source.
That source comes from a built-in generator, from a plugin, or from a Lua
plugin run by the Rust back end, which first turns the JSON data into Lua
tables. The editor also decodes uncompressed TGA textures for its resource
previews.

This project models that core as pure Dafny functions over immutable data and
proves what the editor promises of each operation:

- `types.dfy`, `wrappers.dfy`: widgets, animation records, settings; `Option` and `Result`.
- `forest.dfy`: parent-chain walks over the widget list. Lookups are "the first widget with this id". Recursive walks carry `|ws| + 1` fuel and are proved to finish within it when parent links are acyclic.
- `widgetstore.dfy`, `history.dfy`, `selection.dfy`, `alignment.dfy`, `batchedit.dfy`, `clipboard.dfy`: the widget store and its edits.
- `canvasinteraction.dfy`, `view.dfy`: canvas gestures as explicit pointer-event steps, and the view arithmetic (zoom, grid, rulers, panel sizes).
- `hierarchytree.dfy`: the collapsible tree listing and drag-to-reparent decisions. The DOM hit test is passed in as a value.
- `easing.dfy`, `animations.dfy`, `preview.dfy`: easing curves, animation records, and the frame-by-frame preview with restore. The clock is a parameter.
- `lists.dfy`: the recent-projects list and resource import by value.
- `projectfile.dfy`: the project file shape, the open rules and new project.
- `exportpanel.dfy`, `plugins.dfy`: the export panel's pure logic and the plugin registry.
- `luaexport.dfy`, `typescriptexport.dfy`, `exampleplugin.dfy`: the three code generators.
- `codetext.dfy` and `jstext.dfy`: the string helpers they share.
- `luabridge.dfy`: the Rust JSON-to-Lua writer and the deserialisation fallbacks.
- `tgadecoder.dfy`: the TGA header checks and the pixel reordering loop. The loop is written as a method and proved equal to the specified image.

Geometry is `real`. JavaScript `Math.round(x)` is `Floor(x + 1/2)`. Number
printing and the transcendental easing functions are parameters, since they are
floating-point host behaviour. Where a source file has a JavaScript twin that
behaves the same, one Dafny member models both, and the table cites both files.

## Model

| member | source | states |
|---|---|---|
| Forest.IndexOf | src/composables/useWidgets.ts:102 | the first index holding the id, or -1 exactly when no widget has it |
| Forest.Find | src/composables/useWidgets.ts:18 | a widget is found exactly when the id is listed, and it is the first widget with that id |
| Forest.Children | src/composables/useWidgets.ts:110-112 | the indices of exactly the widgets whose parentId is the given id |
| Forest.Roots | src/composables/useWidgets.ts:36-38 | the indices of exactly the widgets with no parent |
| Forest.DescMembers | src/composables/useWidgets.ts:30-35 | the depth-first walk from an id reaches a widget exactly when that id is one of its ancestors within the walk's depth |
| Forest.DescDeepEnough | src/composables/useWidgets.ts:30-35 | with acyclic links a walk as deep as the list reaches every descendant, so the depth bound cuts nothing off |
| Forest.DescNoDup | src/composables/useWidgets.ts:30-35 | with unique ids and acyclic links the walk visits each widget at most once |
| Forest.DescAllParentsFirst | src/composables/useWidgets.ts:30-38 | in a walk over sibling blocks every widget is preceded by its parent |
| Forest.NoCycle | src/composables/useHierarchyTree.ts:92-101 | in an acyclic list no id is its own proper ancestor |
| Forest.LiftAdd | src/composables/useHierarchyTree.ts:95-99 | climbing a + b parent steps is climbing a steps and then b more |
| WidgetStore.MaxId | src/composables/useProjectFile.ts:132-133 | the result bounds every id in the list, is 0 or one of the ids, and is never negative |
| WidgetStore.DefaultText | src/composables/useWidgets.ts:62-67 | a `text` widget starts with "文本", a `button` with "按钮", every other kind with the empty text |
| WidgetStore.AddWidget | src/composables/useWidgets.ts:60-98 | the new widget takes the current counter as id and the counter goes up by one; it is appended after the unchanged old list as a visible, enabled, unlocked root named `kind_id` at (960, 540) sized 100 by 100 with its default text; the selection becomes exactly that id |
| WidgetStore.AddWidgetWf | src/composables/useWidgets.ts:60-98 | adding keeps ids unique and below the counter, so the next id handed out is still fresh |
| WidgetStore.ClearAll | src/composables/useWidgets.ts:117-121 | no widgets, no selection, counter back to 1, and the empty store is well formed |
| WidgetStore.SelectedWidget | src/composables/useWidgets.ts:16-19 | a widget is found exactly when something is selected and the first selected id is listed; it is then the first listed widget carrying that id |
| WidgetStore.ParentCandidates | src/composables/useWidgets.ts:21-25 | with nothing selected every widget is a candidate; otherwise exactly the widgets whose id differs from the selected one |
| WidgetStore.KeepConcat | src/composables/useWidgets.ts:132 | filtering a list is filtering its parts, so survivors keep their original order |
| WidgetStore.MoveWidgetWithChildren | src/composables/useWidgets.ts:100-115 | only `x` and `y` can change, the list keeps its length, and an unknown root changes nothing |
| WidgetStore.MoveTranslatesSubtree | src/composables/useWidgets.ts:100-115 | with unique ids and acyclic parent links, the root and every transitive descendant are shifted by exactly (dx, dy) and every other widget is untouched |
| WidgetStore.MoveVisitsCount | src/composables/useWidgets.ts:101-114 | the recursive walk visits each widget of the subtree exactly once and no other widget |
| WidgetStore.MoveWf | src/composables/useWidgets.ts:100-115 | moving keeps ids and the counter, so the store stays well formed |
| WidgetStore.DeleteSelected | src/composables/useWidgets.ts:123-134 | the selection is emptied, the counter is kept, no survivor is a selected widget and nothing new appears |
| WidgetStore.ClosureExactly | src/composables/useWidgets.ts:124-131 | the set of ids to delete holds a widget's id exactly when the widget or one of its ancestors is selected |
| WidgetStore.SubtreeIdsExactly | src/composables/useWidgets.ts:125-130 | one recursive deletion adds exactly its id and the ids of all widgets below it |
| WidgetStore.DeleteRemovesExactly | src/composables/useWidgets.ts:123-134 | a widget survives exactly when neither it nor any ancestor was selected |
| WidgetStore.DeleteLeavesNoDanglingParent | src/composables/useWidgets.ts:125-132 | no survivor names a removed widget as its parent |
| WidgetStore.DeleteWf | src/composables/useWidgets.ts:123-134 | deleting keeps ids unique and below the counter |
| WidgetStore.KeepUnique | src/composables/useWidgets.ts:132 | filtering keeps ids unique |
| WidgetStore.RenderWidgets | src/composables/useWidgets.ts:28-44 | with unique ids and acyclic links the rendered list is a permutation of the widgets; in its depth-first part, the widgets reached from a root, every widget comes after its parent |
| WidgetStore.RenderedPermutes | src/composables/useWidgets.ts:28-44 | the widget list read in render order holds every widget exactly once when ids are unique and links acyclic |
| WidgetStore.RenderedParentsFirst | src/composables/useWidgets.ts:28-38 | read in render order, each widget reached from a root is listed after its parent |
| WidgetStore.RenderParentsFirst | src/composables/useWidgets.ts:28-38 | in the depth-first part of the render order every widget comes after its parent |
| WidgetStore.RenderIsPermutation | src/composables/useWidgets.ts:28-44 | with unique ids and acyclic links the render order lists every widget exactly once, so the rendered list is a permutation of the widgets |
| History.Record | src/composables/useHistory.ts:26-32 | recording before an edit makes the following undo bring back exactly the widgets recorded |
| History.RestoreAsWritten | src/composables/useHistory.ts:13-23 | a snapshot that does not parse to a list changes nothing; a parsed list replaces the widgets, clears the selection and leaves the id counter as it was |
| History.Restore | src/composables/useHistory.ts:13-23 | as the source's restore, except that the counter is raised past every restored id so the restored list stays well formed |
| History.Push | src/composables/useHistory.ts:26-32 | the current widgets become the newest entry, the oldest entry is dropped once there are more than 100, the rest keep their order, and the future is emptied |
| History.Undo | src/composables/useHistory.ts:13-43 | as written: with no history nothing changes; otherwise the newest entry is popped and the current widgets go onto the future; a parsed entry replaces the widgets and clears the selection while the id counter stays as it was, and a malformed one changes nothing |
| History.Redo | src/composables/useHistory.ts:13-54 | as written, the mirror image of undo: nothing without a future; otherwise the newest future entry is popped and restored the same way and the current widgets go back onto the history |
| History.UndoCorrected | src/composables/useHistory.ts:13-43 | corrected undo: the stacks move as in the source and the same widgets and selection come back, but the id counter never drops and ends above every restored id |
| History.RedoCorrected | src/composables/useHistory.ts:13-54 | corrected redo: as the source's redo, with the id counter never dropping and ending above every restored id |
| History.Clear | src/composables/useHistory.ts:57-60 | both stacks are empty |
| History.BoundedPreserved | src/composables/useHistory.ts:26-60 | push, undo, redo and clear keep the history and future together at most 100 entries |
| History.UndoRedoRoundTrip | src/composables/useHistory.ts:26-54 | push, edit, undo gives back the widgets from before the edit with no selection; an immediate redo gives back the edited widgets |
| History.PushDiscardsRedo | src/composables/useHistory.ts:31 | a push after an undo empties the future, so a redo then changes nothing |
| History.UndoKeepsUnique | src/composables/useHistory.ts:13-54 | undo and redo as written keep the widget ids unique and every stored list's ids unique |
| History.UndoBreaksWf | src/composables/useHistory.ts:13-43 | with the counter at 2 and a stored layout holding widget 5, undo as written leaves the counter at 2, below the restored id, while the corrected undo raises it to 6 and keeps the document well formed |
| History.UndoCorrectedKeepsWf | src/composables/useHistory.ts:13-54 | the corrected undo and redo keep the document well formed (unique ids below the counter) and every stored list's ids unique |
| History.PushKeepsSnapsUnique | src/composables/useHistory.ts:26-32 | pushing a well-formed store keeps every stored list's ids unique |
| Alignment.Aligned | src/composables/useAlignment.ts:17-21 | left and top copy the reference's x or y; the centre aligns put the widget's centre on the reference's, rounded; the size aligns copy the reference's width or height; every other field is kept |
| Alignment.AlignAll | src/composables/useAlignment.ts:17-21 | exactly the selected widgets not carrying the reference's id are rewritten; every other widget is kept |
| Alignment.Align | src/composables/useAlignment.ts:10-98 | fewer than two selected ids give the warning and change nothing; a missing reference changes nothing; otherwise only the same-size operations push history and the widgets are rewritten as `AlignAll` says |
| Alignment.AlignFrames | src/composables/useAlignment.ts:17-21 | no operation touches a widget outside the selection or the reference |
| Alignment.AlignLeftLinesUp | src/composables/useAlignment.ts:10-22 | after a left align every selected widget stands at the reference's x and nothing but x changed |
| Alignment.HCenterCentres | src/composables/useAlignment.ts:38-51 | after a horizontal-centre align each selected widget's centre lies within half a unit of the reference's centre |
| Alignment.SameWidthUndo | src/composables/useAlignment.ts:68-82 | after same-width every selected widget is as wide as the reference, and one undo brings back the widgets from before |
| Clipboard.Copy | src/composables/useClipboard.ts:13-16 | with no selected widget the clipboard keeps what it had; otherwise it holds a copy of the selected widget; the twin src/composables/useClipboard.js:6-9 does the same |
| Clipboard.Pasted | src/composables/useClipboard.ts:20-28 | the pasted widget is the copy with the next id and x, y moved by 20, every other field unchanged |
| Clipboard.Paste | src/composables/useClipboard.ts:18-31 | an empty clipboard changes nothing; otherwise the copy is appended, the counter goes up by one and only the new id is selected; the twin src/composables/useClipboard.js:11-24 does the same |
| Clipboard.PasteWithHistory | src/composables/useClipboard.ts:33-36 | history is pushed before the paste even when there is nothing to paste, so one undo brings back the widgets from before; the twin src/composables/useClipboard.js:26-29 does the same |
| Clipboard.PasteWf | src/composables/useClipboard.ts:21 | a paste hands out a fresh id, so ids stay unique and below the counter |
| Clipboard.PasteTwiceSameOffset | src/composables/useClipboard.ts:18-31 | two pastes of one clipboard land at the same place, with consecutive ids |
| Clipboard.CopyPaste | src/composables/useClipboard.ts:13-31 | copy then paste gives back the selected widget under the next id, moved by the offset |
| BatchEdit.Rewrite | src/composables/useBatchEdit.ts:38-42 | exactly the selected widgets are rewritten, every other widget is kept |
| BatchEdit.BatchRoots | src/composables/useBatchEdit.ts:22-28 | the ids moved are selected, and a selected widget is among them exactly when it is a root or its parent is unselected |
| BatchEdit.MoveEachCounts | src/composables/useBatchEdit.ts:29 | moving a list of roots one after another shifts each widget once for every listed root whose subtree holds it |
| BatchEdit.BatchMoveAsWritten | src/composables/useBatchEdit.ts:16-30 | no offset or no selection changes nothing; otherwise history is pushed once and only positions change |
| BatchEdit.BatchMoveAsWrittenDoubleMoves | src/composables/useBatchEdit.ts:22-29 | with 1 and 3 selected in a chain 1 <- 2 <- 3, widget 3 moves by twice the offset |
| BatchEdit.BatchMove | src/composables/useBatchEdit.ts:16-30 | the corrected move: no-op cases as in the source, otherwise one history push, with counter and selection kept |
| BatchEdit.BatchMoveOnce | src/composables/useBatchEdit.ts:16-30 | the corrected move shifts by exactly the offset every widget that is selected or has a selected ancestor, and nothing else |
| BatchEdit.BatchSize | src/composables/useBatchEdit.ts:32-43 | no size given or no selection changes nothing; otherwise history is pushed and each selected widget gets the given width and height floored at 1, other fields and widgets untouched |
| BatchEdit.BatchText | src/composables/useBatchEdit.ts:45-57 | an empty text or no selection changes nothing; otherwise history is pushed and exactly the selected widgets that own a text get the new one |
| BatchEdit.BatchImage | src/composables/useBatchEdit.ts:59-71 | an empty path or no selection changes nothing; otherwise history is pushed and exactly the selected widgets whose type takes an image get it |
| BatchEdit.BatchUndo | src/composables/useBatchEdit.ts:16-71 | each of the four batch edits that acts (move as written and corrected, size, text, image) is taken back by one undo |
| CanvasInteraction.WorldScreenRoundTrip | src/composables/useCanvasInteraction.ts:70-77 | turning a client point into canvas coordinates and drawing it back gives the same point, in both directions |
| CanvasInteraction.StartPan | src/composables/useCanvasInteraction.ts:36-46 | panning starts from the pointer and the current pan; the widgets, selection, history and view are untouched |
| CanvasInteraction.StartDrag | src/composables/useCanvasInteraction.ts:31-83 | with space held it pans; otherwise ctrl toggles the widget in the selection and a plain press keeps a selection that holds it or else selects only it; a locked widget stops there with no history; an unlocked one pushes history once and starts dragging, the offset being the world pointer minus the widget's corner |
| CanvasInteraction.StartResize | src/composables/useCanvasInteraction.ts:85-110 | a locked widget changes nothing; otherwise history is pushed, the world pointer and the size are recorded and only the widget is selected |
| CanvasInteraction.MouseDown | src/composables/useCanvasInteraction.ts:112-142 | space pans; a press on the empty canvas clears the selection and starts a marquee whose two corners are the world point; any other target changes nothing |
| CanvasInteraction.Snap | src/composables/useCanvasInteraction.ts:215-216 | the snapped value lies on a grid line of the step |
| CanvasInteraction.Extent | src/composables/useCanvasInteraction.ts:189-201 | the new size is never below 1; without snapping it is the start size plus the pointer travel; with snapping it is at least 10 and 10 or a grid line |
| CanvasInteraction.DragShiftAsWritten | src/composables/useCanvasInteraction.ts:221-236 | the drag as written only moves widgets, keeping ids and links |
| CanvasInteraction.DragShift | src/composables/useCanvasInteraction.ts:221-236 | the corrected drag: in a multi-selection holding the dragged widget every covered widget moves once; otherwise the dragged widget's subtree moves |
| CanvasInteraction.MouseMove | src/composables/useCanvasInteraction.ts:144-238 | flags are checked in the source's order: a pan sets the pan to its start plus the unscaled pointer travel and touches nothing else; a marquee only moves its current corner; otherwise a resize in progress is the resize step, a drag in progress is the drag step as written, and with neither nothing changes |
| CanvasInteraction.MouseMoveCorrected | src/composables/useCanvasInteraction.ts:144-238 | corrected: identical to the source's handler except while dragging, where it takes the corrected drag step |
| CanvasInteraction.DragTo | src/composables/useCanvasInteraction.ts:209-217 | the dragged corner's target is the world pointer minus the grab offset, and with snapping it lies on grid lines of the step |
| CanvasInteraction.DragDelta | src/composables/useCanvasInteraction.ts:207-219 | the offset is what carries the dragged widget (the first with the dragging id) from where it is to the target |
| CanvasInteraction.Resized | src/composables/useCanvasInteraction.ts:189-201 | only the size changes; it is never below 1, and without snapping it is the recorded size plus the pointer travel |
| CanvasInteraction.ResizeMove | src/composables/useCanvasInteraction.ts:186-203 | a resize step changes the widget list only; a missing widget changes nothing; otherwise exactly that widget is resized |
| CanvasInteraction.DragMove | src/composables/useCanvasInteraction.ts:205-237 | a drag step changes the widget list only; a missing dragged widget changes nothing; otherwise the widgets move as the source's drag does by the drag offset |
| CanvasInteraction.DragMoveCorrected | src/composables/useCanvasInteraction.ts:205-237 | the corrected drag step moves the widgets by the corrected drag, and agrees with the source's step outside a multi-selection |
| CanvasInteraction.DragLands | src/composables/useCanvasInteraction.ts:205-237 | in a single-widget drag with unique ids and acyclic links, the dragged widget lands on the target and exactly its subtree moves by the same offset |
| CanvasInteraction.MultiDragCounts | src/composables/useCanvasInteraction.ts:221-232 | in a multi-selection drag as written, each widget moves by the offset as many times as it lies under a selected root |
| CanvasInteraction.MultiDragCorrectedOnce | src/composables/useCanvasInteraction.ts:221-232 | in the corrected multi-selection drag each covered widget moves by the offset once and the rest stay |
| CanvasInteraction.MarqueeCorner | src/composables/useCanvasInteraction.ts:162-177 | while selecting, the pointer's world point becomes the marquee's moving corner and nothing else changes |
| CanvasInteraction.Marquee | src/composables/useCanvasInteraction.ts:253-266 | a widget's id is selected exactly when its box meets the normalised rectangle, touching edges included |
| CanvasInteraction.MarqueeSymmetric | src/composables/useCanvasInteraction.ts:253-256 | which corner the marquee started from does not matter |
| CanvasInteraction.MouseUp | src/composables/useCanvasInteraction.ts:240-272 | a pan just ends; otherwise a marquee ends and selects what it meets; otherwise dragging and resizing end; widgets, view and history never change |
| CanvasInteraction.PanReturns | src/composables/useCanvasInteraction.ts:148-155 | a pan that returns to its starting pointer leaves the view where it was |
| CanvasInteraction.DragFollowsPointer | src/composables/useCanvasInteraction.ts:31-83 | grabbing an unlocked, unselected widget and moving without snapping carries its corner by exactly the pointer's world travel, and one undo brings back the widgets from before the drag |
| CanvasInteraction.DragMovesOnce | src/composables/useCanvasInteraction.ts:221-232 | in the corrected multi-selection drag each covered widget moves by the offset exactly once and the rest stay |
| CanvasInteraction.DragAsWrittenDoubleMoves | src/composables/useCanvasInteraction.ts:224-232 | with 1 and 3 selected in a chain 1 <- 2 <- 3, the drag as written carries widget 3 twice as far as the pointer |
| HierarchyTree.Toggle | src/composables/useHierarchyTree.ts:31-37 | the node's expansion state flips (an absent flag counts as expanded) and every other id keeps its flag; the twin src/composables/useHierarchyTree.js:20-26 does the same |
| HierarchyTree.ToggleTwice | src/composables/useHierarchyTree.ts:28-37 | toggling twice gives every id back its expansion state |
| HierarchyTree.TreeRoots | src/composables/useHierarchyTree.ts:49-56 | a widget is listed at the top level exactly when it has no parent or its parent id belongs to no widget |
| HierarchyTree.TreeChildrenUnique | src/composables/useHierarchyTree.ts:47-52 | with unique ids a widget's tree children are exactly the widgets naming it as parent, in list order |
| HierarchyTree.Visit | src/composables/useHierarchyTree.ts:58-64 | a block starts with the widget's own row at its depth with the right has-children flag; a collapsed widget's block is that row alone; every later row is deeper |
| HierarchyTree.TopLevelRows | src/composables/useHierarchyTree.ts:39-67 | the rows at depth 0 are exactly the top-level widgets, in list order; the twin src/composables/useHierarchyTree.js:28-56 does the same |
| HierarchyTree.ExpandedTreeIsWalk | src/composables/useHierarchyTree.ts:39-67 | with unique ids and nothing collapsed the listing is the depth-first walk from the top-level widgets, children in list order |
| HierarchyTree.FlatDepth | src/composables/useHierarchyTree.ts:58-65 | going up a row's depth in parent steps from its widget reaches a top-level widget, so depth is parent depth plus one |
| HierarchyTree.SelectFromTree | src/composables/useHierarchyTree.ts:76-89 | a plain click selects only the id; a ctrl-click toggles it, keeping the rest and no duplicates; the twin src/composables/useHierarchyTree.js:64-77 does the same |
| HierarchyTree.IsDescendantOf | src/composables/useHierarchyTree.ts:92-101 | the walk answers true exactly when the ancestor is met within 1000 parent steps, and it always ends; the twin src/composables/useHierarchyTree.js:80-89 does the same |
| HierarchyTree.DescendantCheckExact | src/composables/useHierarchyTree.ts:92-101 | in an acyclic list of at most 1000 widgets the bounded walk finds every ancestor, so it answers the ancestor question exactly |
| HierarchyTree.UpdateParent | src/composables/useHierarchyTree.ts:103-112 | an unknown id changes nothing; otherwise only the parentId of the first widget with the id changes, ids and length kept; the twin src/composables/useHierarchyTree.js:91-100 does the same |
| HierarchyTree.UpdateParentLinks | src/composables/useHierarchyTree.ts:103-112 | after reparenting the widget's parent is the new one and every other widget keeps its parent |
| HierarchyTree.TreeMouseDown | src/composables/useHierarchyTree.ts:119-125 | only a left press while not renaming arms a drag from the row, not yet dragging; the twin src/composables/useHierarchyTree.js:108-114 does the same |
| HierarchyTree.TreeMouseMove | src/composables/useHierarchyTree.ts:145-159 | an armed press becomes a drag exactly when the pointer is more than 4 pixels away on some axis; nothing else changes; the twin src/composables/useHierarchyTree.js:134-148 does the same |
| HierarchyTree.TreeMouseUp | src/composables/useHierarchyTree.ts:170-212 | the release always disarms; a press that never became a drag is a selection click; a drop on another row is refused with a message when that row is the source's descendant, else history is pushed and the source hangs under it; a drop on its own row or the list background pushes history and makes the source top-level; outside the list nothing changes; the twin src/composables/useHierarchyTree.js:159-201 does the same |
| HierarchyTree.ShortPressIsClick | src/composables/useHierarchyTree.ts:145-184 | press and release within 4 pixels only changes the selection as a click would, with no history |
| HierarchyTree.DropOntoDescendantRefused | src/composables/useHierarchyTree.ts:189-197 | in an acyclic list of at most 1000 widgets a drop on a row is refused exactly when the row is the source's descendant, and a refused drop changes nothing |
| HierarchyTree.ConfirmRename | src/composables/useHierarchyTree.ts:273-282 | with a rename in progress on an existing widget, history is pushed and the widget takes the trimmed input, or keeps its name when that is blank; the rename ends; nothing else changes; the twin src/composables/useHierarchyTree.js:258-267 does the same |
| HierarchyTree.RenameKeepsName | src/composables/useHierarchyTree.ts:279 | a rename never leaves a named widget without a name |
| HierarchyTree.SetRoot | src/composables/useHierarchyTree.ts:284-292 | an existing non-zero target becomes top-level after one history push; otherwise nothing changes; the twin src/composables/useHierarchyTree.js:269-277 does the same |
| HierarchyTree.SetRootListsAtTop | src/composables/useHierarchyTree.ts:284-292 | after "make root" the widget is listed at the top level of the tree |
| Easing.Ease | src/composables/useAnimations.ts:169-204 | a tween id outside 0..30 gives t back unchanged |
| Easing.BounceEnds | src/composables/useAnimations.ts:141-156 | the bounce curve starts exactly at 0 and ends exactly at 1 |
| Easing.AlgebraicEndpoints | src/composables/useAnimations.ts:26-165 | every linear, quad, cubic, quart, quint, back and bounce curve maps 0 to 0 and 1 to 1 over exact reals, whatever the host's sine, cosine and power return |
| Easing.CubicInOutMidpoint | src/composables/useAnimations.ts:180 | cubic in-out maps 0.5 to 0.5 exactly |
| Easing.GuardedEndpoints | src/composables/useAnimations.ts:70-116 | expo-in at 0, expo-out at 1 and expo-in-out and the elastic curves at both ends return t by their explicit guards, whatever the host functions return |
| Easing.BounceInMirrors | src/composables/useAnimations.ts:157-159 | bounce-in is 1 minus bounce-out of 1 - t |
| Easing.AlgebraicIgnoresHost | src/composables/useAnimations.ts:26-67 | the algebraic curves do not depend on the host's transcendental functions |
| Animations.AnimIndex | src/composables/useAnimations.ts:269 | the first index holding the animation id, or -1 exactly when none does |
| Animations.AddForSelected | src/composables/useAnimations.ts:227-251 | no selection, or a first selected id of 0, changes nothing; otherwise one animation is appended after the unchanged list under the next id, for the first selected widget, named after the id, lasting one frame with no delay and no loop, with the move or plain default parameters |
| Animations.Remove | src/composables/useAnimations.ts:253-255 | exactly the records with another id survive |
| Animations.RemoveConcat | src/composables/useAnimations.ts:254 | removing from a list is removing from its parts, so survivors keep their order |
| Animations.Duplicate | src/composables/useAnimations.ts:257-266 | an unknown id changes nothing; otherwise a copy of the first record with the id is appended under the next id with its name suffixed "_复制" |
| Animations.EditsKeepWf | src/composables/useAnimations.ts:227-266 | adding, duplicating and removing keep every animation id below the counter |
| Animations.AddThenRemove | src/composables/useAnimations.ts:227-255 | removing a freshly added animation by its id gives back the old list |
| Animations.DuplicateThenRemove | src/composables/useAnimations.ts:253-266 | removing the copy a duplicate made gives back the old list |
| Animations.Update | src/composables/useAnimations.ts:268-275 | an unknown id changes nothing; otherwise only the first record with the id changes, to the record with the patch's present fields written over it |
| Animations.EmptyPatch | src/composables/useAnimations.ts:268-275 | an empty patch changes nothing |
| Animations.UpdateIdempotent | src/composables/useAnimations.ts:268-275 | a patch that keeps the id applied twice is applied once |
| Animations.Strip | src/composables/useAnimations.ts:417 | the exported record is the record with only its id left out |
| Animations.ForWidget | src/composables/useAnimations.ts:414-419 | a widget's group holds only its own records, and is empty exactly when the widget has none |
| Animations.ExportGroupsExact | src/composables/useAnimations.ts:412-421 | there is an entry exactly for each widget with animations, holding that widget's records without ids, in list order |
| Animations.ExportKeepsEveryRecord | src/composables/useAnimations.ts:412-421 | every record is exported under its widget |
| Animations.ExportCountsRecords | src/composables/useAnimations.ts:412-421 | a widget's group holds exactly as many records as the list has for that widget |
| Animations.FirstRecord | src/composables/useAnimations.ts:414-416 | the position of the widget's first record, which creates its key; -1 exactly when the widget has no record |
| Animations.Seen | src/composables/useAnimations.ts:414-416 | the ids listed are exactly the animated widgets whose key is, or is not, an array index |
| Animations.SeenOrder | src/composables/useAnimations.ts:414-416 | those ids come in the order their keys are created, the order of their first records, so none repeats |
| Animations.SortIds | src/plugins/builtin/lua-export.ts:174 | the same ids, strictly ascending, as `Object.keys` lists array-index keys |
| Animations.KeyIds | src/plugins/builtin/lua-export.ts:173-174 | the keys of `getAnimationsForExport()` are exactly the ids of the widgets that have animations, and there are none exactly when there are no animations |
| Animations.KeyIdsOrder | src/plugins/builtin/lua-export.ts:173-174 | the keys are visited once each: array-index ids (below 2^32 - 1) first and ascending, then every other id in the order its key was created |
| Animations.ExportedGroupsExact | src/plugins/builtin/typescript-export.ts:137-138 | what the exporters walk is exactly the export map: every visited key holds that entry of `getAnimationsForExport()`, every entry is visited, and in `Object.keys` order |
| Animations.OneWidgetGroups | src/composables/useAnimations.ts:412-421 | when all the records belong to one widget, the export visits that widget alone, with all its records |
| Animations.OneWidgetKey | src/plugins/builtin/lua-export.ts:173-174 | when all the records belong to one widget, `Object.keys` of the export lists that widget alone |
| AnimationPreview.Save | src/composables/useAnimations.ts:311-320 | the saved state is the widget's geometry, and a widget without a preview alpha is saved as fully opaque |
| AnimationPreview.Reset | src/composables/useAnimations.ts:378-386 | putting a saved state back makes the widget save as that state and changes nothing but geometry and alpha |
| AnimationPreview.OrigOf | src/composables/useAnimations.ts:298-320 | only collected widgets are saved |
| AnimationPreview.AffectedExactly | src/composables/useAnimations.ts:298-309 | with unique ids and acyclic links the preview saves, and later restores, exactly the animated widget and its descendants, whatever the animation type |
| AnimationPreview.Restore | src/composables/useAnimations.ts:393-404 | every saved widget gets its saved state back; nothing else and no other field changes |
| AnimationPreview.RestoreSettles | src/composables/useAnimations.ts:311-320 | restoring a preview's saved state gives the widgets back as they were when it started, except that an affected widget without a preview alpha now carries 1 |
| AnimationPreview.Frame | src/composables/useAnimations.ts:347-372 | a frame changes only the affected widgets' geometry and alpha |
| AnimationPreview.MoveFrameKeepsLayout | src/composables/useAnimations.ts:347-365 | a move frame keeps every affected widget as far from the root as at the start; at progress 0 they stand where they were saved; at progress 1 the root stands on the target, which defaults to 40 right of the start |
| AnimationPreview.ProgressBounds | src/composables/useAnimations.ts:344 | after the delay the progress lies in [0, 1] and is 1 exactly when the duration has elapsed |
| AnimationPreview.Stop | src/composables/useAnimations.ts:279-283 | afterwards nothing is remembered or playing; with nothing remembered the widgets are unchanged, otherwise only the remembered preview's widgets change |
| AnimationPreview.StopKeepsIds | src/composables/useAnimations.ts:393-404 | stopping keeps the widget ids |
| AnimationPreview.StartRun | src/composables/useAnimations.ts:287-336 | the run saves the collected widgets including the root, lasts at least one frame (1000/60 ms) and starts no earlier than now |
| AnimationPreview.Preview | src/composables/useAnimations.ts:278-409 | the old preview is always stopped first, even for an unknown id; a new one is remembered exactly when the animation and its widget exist, and it saves the state of the widgets as they stand after the stop |
| AnimationPreview.StepAsWritten | src/composables/useAnimations.ts:338-388 | a step as written keeps the remembered stop function, also after the last frame |
| AnimationPreview.Step | src/composables/useAnimations.ts:338-388 | the corrected step writes the same widgets and forgets the stop function once the preview ends, so a stop function is remembered exactly while its preview plays |
| AnimationPreview.StepFromBase | src/composables/useAnimations.ts:338-388 | while a preview plays only the affected widgets' geometry and alpha differ from where it started; the finishing step leaves exactly the restored state |
| AnimationPreview.FinishRestores | src/composables/useAnimations.ts:374-387 | a step at or after the end time restores what the preview saved and leaves nothing to stop |
| AnimationPreview.IdlePreviewKeeps | src/composables/useAnimations.ts:278-285 | with nothing remembered, previewing an unknown animation changes no widget |
| AnimationPreview.StaleStopUndoesDrag | src/composables/useAnimations.ts:280-283 | after a preview finishes and the widget is dragged to x = 100, the next preview call moves it back to x = 0 as written but leaves it at 100 when the finished preview's stop function is forgotten |
| AnimationPreview.StaleHandleRestores | src/composables/useAnimations.ts:374-387 | as written the finished preview keeps its stop function, and the next preview call puts the dragged widget back at the saved x |
| AnimationPreview.FinishedHandleForgotten | src/composables/useAnimations.ts:374-387 | with the corrected step the next preview call keeps the drag |
| CanvasView.Wheel | src/composables/useCanvas.ts:17-28 | without Ctrl or Meta the view is untouched; with either the scale is multiplied by 0.9 for a downward notch and 1.1 otherwise, pinned to 0.2 or 3 when it would leave that range, and the pan never changes |
| CanvasView.WheelMonotone | src/composables/useCanvas.ts:7-9 | the initial scale 1 is within [0.2, 3] and every wheel event keeps it there; scrolling down never enlarges and scrolling up never shrinks the scale |
| UiZoom.Clamped | src/composables/useUiZoom.js:9 | the zoom is always within [0.5, 2]; 0 and NaN fall back to 1, values inside the range are kept, and values outside are pinned to the nearer bound |
| UiZoom.ClampIdempotent | src/composables/useUiZoom.js:7-11 | applying the zoom twice gives the same value as applying it once |
| UiZoom.Load | src/composables/useUiZoom.js:19-31 | a missing or empty stored entry, NaN or a non-positive number leaves the zoom as it was; any positive number is taken and clamped into [0.5, 2] |
| Grid.Step | src/composables/useGrid.js:7-12 | grid modes 1, 2 and 3 mean steps of 128, 64 and 32 pixels; every other mode falls back to the snap step from the settings |
| Grid.Ticks | src/composables/useGrid.js:14-28 | no ticks while the grid is off; otherwise the i-th tick is i times the step; the only failure is a zero step over a positive side, which makes an array of infinite length |
| Grid.TicksCover | src/composables/useGrid.js:14-28 | with a positive step the ticks start at 0, none lies beyond the canvas side, and one more step after the last would pass it, so the grid covers the whole side |
| Grid.ToggleSnap | src/composables/useGrid.js:30-32 | toggling always flips the snap setting, so toggling twice gives it back |
| Ruler.TickLoop | src/composables/useRuler.js:22-25 | with a positive step the loop pushes consecutive multiples of the step from one before the first index to one after the last, and their number is the count of indices in that range; with a negative step it pushes nothing when it starts past the end and otherwise never ends |
| Ruler.Ticks | src/composables/useRuler.js:9-48 | no ticks while the canvas size is missing or zero or the scale is 0; otherwise the ticks are the consecutive multiples of the step (50 when unset) running over the visible world range with one extra step on each side |
| Ruler.TicksCover | src/composables/useRuler.js:13-20 | the first tick lies at least one step before the left or top edge of the visible world range and the last at least one step after its far edge, so the ruler is never short at either end |
| PanelResize.Initial | src/composables/usePanelResize.ts:16-18 | the left panel starts at the width stored in the settings, or 220 when that is unset; the right panel starts at 260 and the resource panel at 200 |
| PanelResize.Move | src/composables/usePanelResize.ts:75-95 | with no drag nothing changes; a drag of one panel changes only that panel's size (and, for the left panel, the stored control-panel width with it), and the size stays within that panel's bounds (140-500, 180-500, 120-400) |
| PanelResize.StopDrag | src/composables/usePanelResize.ts:97-98 | after the drag stops no mouse move changes any panel; the remembered grab point and sizes are kept |
| PanelResize.MoveLatestWins | src/composables/usePanelResize.ts:36-95 | each move is measured from the grab point, so only the latest pointer position counts; moving back to the grab point restores every size that was within its bounds when the drag began |
| RecentProjects.NameOfTail | src/composables/useRecentProjects.js:34 | the display name of a non-empty path is a non-empty tail of it: the text after the last `/` or `\`, with no separator inside, or the whole path when it ends in a separator |
| RecentProjects.Without | src/composables/useRecentProjects.js:38 | the filtered list is no longer than the original and every entry left is an original entry with a different path |
| RecentProjects.AddRecent | src/composables/useRecentProjects.js:32-41 | an empty path changes nothing; otherwise the path is at the front under its file name, followed by the other entries in their old order with that path removed, cut to at most five |
| RecentProjects.AddRecentUnique | src/composables/useRecentProjects.js:35-39 | if no two entries shared a path before an addition, none do after it |
| RecentProjects.AddRecentIdempotent | src/composables/useRecentProjects.js:32-41 | adding the same path twice in a row leaves the list as adding it once |
| RecentProjects.Load | src/composables/useRecentProjects.js:8-19 | a missing or empty stored entry, text that does not parse or a value that is not an array leaves the list as it was; an array replaces it |
| Resources.ResourceValue | src/composables/useResources.ts:30-31 | the resource key has the length of the relative path (or of the file name when there is none) and contains no `/`, every one having become `\`; the twin src/composables/useResources.js:28-29 does the same |
| Resources.NewResource | src/composables/useResources.ts:49-54 | a new resource is labelled with the file name, keyed by its Warcraft path, and keeps the local path and the preview |
| Resources.KeyIndex | src/composables/useResources.ts:58-61 | looking a key up in the insertion-ordered map gives the position of an entry with that key, or -1 exactly when the key is absent |
| Resources.MapSet | src/composables/useResources.ts:59 | setting an entry adds its key to the map's keys and removes none |
| Resources.MergeSpec | src/composables/useResources.ts:57-63 | after the merge no two resources share a key and every key of the old or new list is present; the old resources come first, unchanged and in order, followed by the new ones whose key was not yet present, the first occurrence winning; the twin src/composables/useResources.js:55-61 does the same |
| Resources.Import | src/composables/useResources.ts:23-70 | with no files nothing changes and 0 is returned; otherwise the new resources are merged in and the number of files chosen is returned, whether or not each was added |
| Resources.ImportJs | src/composables/useResources.js:22-68 | the JavaScript twin merges the same way, but returns nothing instead of 0 when no file is chosen |
| Resources.ImportTwice | src/composables/useResources.ts:57-63 | importing the same files a second time adds nothing, because every key is already present |
| ProjectFile.OrText | src/composables/useProjectFile.ts:164 | `s \ | \ | d` on a stored string: a present, non-empty text wins, and a missing or empty one gives the fallback |
| ProjectFile.MergeSettingsLaws | src/composables/useProjectFile.ts:136-141 | merging stored settings over the current ones changes nothing when the stored object sets no field, and gives exactly the stored settings when it sets every field |
| ProjectFile.MaxAnimId | src/composables/useProjectFile.ts:154-155 | the largest animation id is never negative and bounds every id in the list |
| ProjectFile.Store | src/composables/useProjectFile.ts:50-54 | a saved resource keeps its label and key, drops the preview, and stores a missing local path as the empty text |
| ProjectFile.Load | src/composables/useProjectFile.ts:143-148 | a reopened resource keeps its label and key, has a local path (empty when none was stored) and an empty preview waiting to be refreshed |
| ProjectFile.Build | src/composables/useProjectFile.ts:46-68 | the project data holds the widgets, every settings field, each resource in saved form in the same order, the animations and their counter, and the export configuration under its current field names only |
| ProjectFile.ApplyConfig | src/composables/useProjectFile.ts:161-174 | a stored export configuration sets the resource switch (off when missing) and path; the code switch prefers the new field, then the old Lua field, then on; the code path prefers the new field, then the old one, then empty; a missing or empty plugin name and a missing plugin list keep the current ones |
| ProjectFile.Apply | src/composables/useProjectFile.ts:129-259 | each part of the file that is present replaces its part of the editor: a widget array pushes history, clears the selection and sets the counter past every id; settings merge; resources are reloaded in order; animations are taken with their counter past every id, or emptied when absent; the export configuration is applied; the path, recent list and welcome screen are untouched; the input-element open applies the same restore rules as opening from a path |
| ProjectFile.RestoredDoc | src/composables/useProjectFile.ts:131-134 | a restored widget array comes with no selection and a counter above every id, so the next widget gets a fresh id |
| ProjectFile.RestoredAnims | src/composables/useProjectFile.ts:152-159 | a stored animation array is taken as it is with a counter at least 1 and above every id; without one the list is empty with counter 1 |
| ProjectFile.LoadAll | src/composables/useProjectFile.ts:143-148 | every stored resource is reloaded, one for one and in order |
| ProjectFile.OpenFromPath | src/composables/useProjectFile.ts:125-183 | a file that cannot be read or parsed changes nothing; otherwise the file's contents are applied, the path becomes the current project path, the path goes to the front of the recent list, and the welcome screen closes |
| ProjectFile.OpenFromInput | src/composables/useProjectFile.ts:204-276 | the file chosen through the input element is applied the same way, but the project then has no path and the recent list and welcome screen stay as they were |
| ProjectFile.NewProject | src/composables/useProjectFile.ts:279-310 | a new project has no widgets, animations or resources, with both counters at 1; the export switches and paths return to their defaults while the plugin choice, settings and recent list stay; the empty document is pushed to history and the welcome screen closes |
| ProjectFile.ReopenRestores | src/composables/useProjectFile.ts:46-174 | saving and reopening gives the same widgets with the selection cleared and the counter just past the largest id, the same settings and export configuration, the same resources with previews emptied, and the same animations with their counter just past the largest id; the reopen half of the same round trip |
| ProjectFile.ReopenSettles | src/composables/useProjectFile.ts:46-174 | saving and reopening a second time changes nothing more: the restored state is a fixed point |
| ProjectFile.NewProjectReopens | src/composables/useProjectFile.ts:279-310 | a blank project comes back from saving and reopening unchanged |
| ProjectFile.NewProjectUndo | src/composables/useProjectFile.ts:303-304 | an undo straight after a new project gives the empty document back, because the blank state was the last one pushed |
| ProjectFile.OpenUndoAddFresh | src/composables/useProjectFile.ts:129-135 | with undo restoring the counter, opening a file whose ids are distinct, undoing, and adding a widget keeps every id unique |
| ProjectFile.OpenUndoAddAsWrittenReusesId | src/composables/useProjectFile.ts:133-134 | with undo as written: over a document with ids 1 and 2, opening a file holding only id 1 sets the counter to 2; undo brings ids 1 and 2 back without moving the counter, and the next widget gets id 2 a second time |
| ProjectFile.OpenUndoAddCorrected | src/composables/useProjectFile.ts:133-134 | when undo also restores the counter, the same steps give the new widget id 3 and the ids stay distinct |
| ExportPanel.StripProjectExt | src/composables/useExport.ts:302 | the result is a prefix of the name; what was cut is a `.uiproj` or `.json` in any letter case; and the name is left whole exactly when it ends in neither |
| ExportPanel.BaseName | src/composables/useExport.ts:294-304 | the class name is never empty and contains no separator; without a project path it is `GeneratedUI`; otherwise it is the file name with a trailing project extension removed, unless nothing is left |
| ExportPanel.BaseNameOfProjectFile | src/composables/useExport.ts:294-304 | a project saved as `dir/name.uiproj`, with either separator and any case of the extension, exports the class `name` |
| ExportPanel.SepFor | src/composables/useExport.ts:787 | the separator appended to a directory is a path separator, and it is a backslash exactly when the directory holds one |
| ExportPanel.DefaultLuaPath | src/composables/useExport.ts:779-789 | without a configured Lua path the file is written into the text before the last separator of the project path (the whole path when it has none), named after the project with `.lua` appended |
| ExportPanel.LuaBesideProject | src/composables/useExport.ts:779-789 | for a project path `dir/file`, the Lua file lands in `dir`, joined with the separator `dir` itself uses |
| ExportPanel.LuaTarget | src/composables/useExport.ts:773-804 | a configured Lua path is used as it is; otherwise the default beside the project file; and the target is unknown, needing a save dialog, exactly when neither is available |
| ExportPanel.Dedup | src/composables/useExport.ts:650-655 | the distinct elements appear once each and are exactly the elements of the input |
| ExportPanel.NamePairs | src/composables/useExport.ts:657-667 | every reported pair names the group, a name counted more than once there with its count, and a name the counter does not shadow; every such name is reported |
| ExportPanel.PairsFor | src/composables/useExport.ts:656-668 | over all groups, the reported pairs are exactly the names counted more than once under their parent, except, in the source's plain object, names `Object.prototype` already carries |
| ExportPanel.ClashReported | src/composables/useExport.ts:649-669 | two widgets under one parent with the same trimmed, non-empty name that the counter does not shadow are reported under that parent and name with their count |
| ExportPanel.ReportedClash | src/composables/useExport.ts:649-669 | every duplicate report comes from two widgets whose clash the counter sees |
| ExportPanel.DupPairsExact | src/composables/useExport.ts:649-669 | the check reports something exactly when two widgets under one parent share a trimmed, non-empty name the counter does not shadow; as written, a name such as `toString` or `constructor` is never reported |
| ExportPanel.DupPairsCorrectedExact | src/composables/useExport.ts:649-669 | counted in an object without a prototype, the check reports something exactly when two widgets under one parent share a trimmed, non-empty name |
| ExportPanel.InheritedNameMissed | src/composables/useExport.ts:657-667 | two root widgets both named `toString` clash, the source's check reports nothing, and the prototype-free count reports them |
| ExportPanel.KeyOrder | src/composables/useExport.ts:663 | `Object.keys` lists the same names, the array indexes first in ascending order, and the other names in the order they were created |
| ExportPanel.KeyOrderWithoutIndexes | src/composables/useExport.ts:663 | when no name is an array index the keys come out in the order they were created |
| ExportPanel.SortKeys | src/composables/useExport.ts:663 | the array indexes are put in ascending order of value, keeping the same names |
| ExportPanel.DupPreview | src/composables/useExport.ts:670-673 | the warning lists the names of the first five duplicate pairs in order, or all of them when there are fewer |
| ExportPanel.DupWarning | src/composables/useExport.ts:674-675 | the warning states the number of clashing names and the listed names joined by `、`, and ends with ` 等` before the closing sentence exactly when more than five clash |
| ExportPanel.StartExport | src/composables/useExport.ts:637-680 | with both outputs off the export refuses for lack of a target, and with no widgets for lack of widgets; it goes ahead exactly when an output is on, there are widgets and no clash the counter sees, which for a prototype-free counter means no names clash; a clash stops it with the duplicate report and its warning |
| ExportPanel.ToCopy | src/composables/useExport.ts:706-712 | the resources copied are exactly those, from the resource list, whose key a widget uses and which have a non-blank local path |
| ExportPanel.PlanResources | src/composables/useExport.ts:690-761 | no directory is reported exactly when none is set; with no image used there is nothing to do; used images without local files cannot be copied; otherwise the copy list is the usable resources, and the count left out is the number of used keys minus those copied |
| ExportPanel.CopyTarget | src/composables/useExport.ts:724-730 | a resource whose local path ends in a separator has no file name and is skipped; every other one is copied to its file name under the export directory, joined with the directory's own separator |
| ExportPanel.CopyKeepsName | src/composables/useExport.ts:724-730 | a copied file keeps its file name |
| ExportPanel.FindPlugin | src/composables/useExport.ts:313 | the plugin found is the first entry with the id, and nothing is found exactly when no entry has it |
| ExportPanel.GenerateWithPlugin | src/composables/useExport.ts:307-348 | no widgets give empty code; a custom plugin with a file runs externally, giving its output and a cleared debug panel on success, or the built-in output and the failure text in the debug panel on error; every other choice gives the built-in output |
| ExportPanel.BuiltinIgnoresRun | src/composables/useExport.ts:315-323 | unless the selected plugin is custom with a file, the outcome of an external run never affects the generated code |
| ExportPanel.StartLine | src/composables/useExport.ts:394-399 | the block starts at the first line holding the panel opener, or nowhere when no line holds it |
| ExportPanel.EndLine | src/composables/useExport.ts:402-413 | the block ends at the first line from the start where the brace counter is back to zero on a line holding `}`, or nowhere when no line does |
| ExportPanel.PluginLua | src/composables/useExport.ts:352-426 | no widgets or no generated code give no plugin file; otherwise the plugin skeleton surrounds the panel block, from its opening line to the line that closes it, each line indented by four spaces; without a start or an end the skeleton is empty |
| ExportPanel.CopiedBlockBalanced | src/composables/useExport.ts:402-420 | the copied block's braces balance to zero and its last line holds a `}` |
| ExportPanel.PluginIndex | src/composables/useExport.ts:595 | the index found holds the id and no earlier entry does, and -1 means no entry does |
| ExportPanel.DeletePlugin | src/composables/useExport.ts:574-612 | an unknown id is reported as not found; built-in and `default` plugins are refused; a declined confirmation changes nothing; exactly a confirmed delete of any other plugin removes its first entry, and moves the selection to `default` when it named that plugin |
| ExportPanel.DeleteKeepsProtected | src/composables/useExport.ts:583-603 | built-in and `default` plugins survive every delete, the selection never names a deleted plugin, and with unique ids the deleted id is gone from the list |
| Plugins.MetadataErrorsFacts | src/composables/usePluginSystem.ts:26-43 | without metadata the only metadata error is the missing-metadata message; with metadata there is one error per empty field among id, name, output format and type, each message present exactly when its field is empty |
| Plugins.MessagesDistinct | src/composables/usePluginSystem.ts:28-49 | the seven validation messages all differ, so the error list tells the causes apart |
| Plugins.InOpts | src/composables/usePluginSystem.ts:31-42 | four conditional pushes leave one message per condition that held, and a message is in the list exactly when its condition held |
| Plugins.ExportErrorsFacts | src/composables/usePluginSystem.ts:45-50 | a callable `export` adds no error; a missing one adds exactly the missing-export message and a non-function one exactly the not-a-function message, neither of them a metadata message |
| Plugins.Validate | src/composables/usePluginSystem.ts:22-57 | there are never warnings; a module is valid exactly when the error list is empty, and exactly when it has metadata with all four fields and a callable `export`; each error appears exactly when its cause is present |
| Plugins.Load | src/composables/usePluginSystem.ts:62-87 | a module is returned exactly when the import succeeds and the module validates, and then the path's earlier error is cleared; otherwise the path's error records the import failure or every validation error, one per line, and no other path's error changes |
| Plugins.Execute | src/composables/usePluginSystem.ts:92-131 | a plugin with neither a module nor a path fails with the no-path message; the result is the code returned exactly when a module is available (already there, or imported and validated now), its `export` is a function, and the call returns a string; an `export` that is not a function fails with the TypeError message and records it; the plugin keeps its id, name and path and is marked loaded once a module was imported |
| Plugins.FailureRecorded | src/composables/usePluginSystem.ts:116-130 | a call that throws, returns a non-string, or hits an `export` that is not a function fails with the execution message, and that message is recorded under the plugin id |
| Plugins.LoadedOnce | src/composables/usePluginSystem.ts:96-113 | after a successful first run the plugin keeps its module, so a second run gives the same result whatever an import would do, and changes no error |
| Plugins.IndexOfId | src/composables/usePluginSystem.ts:271 | the index found holds the id and no earlier entry does, and -1 means no entry does |
| Plugins.GetById | src/composables/usePluginSystem.ts:248-250 | the plugin found is the first entry carrying the id, and nothing is found exactly when no entry carries it |
| Plugins.Add | src/composables/usePluginSystem.ts:255-265 | a plugin whose id is taken replaces the first entry with that id in place, the length staying; a new id is appended; no other entry changes; the plugin is in the list afterwards, and unique ids stay unique |
| Plugins.AddThenGet | src/composables/usePluginSystem.ts:248-265 | looking up the id just added finds the added plugin |
| Plugins.Remove | src/composables/usePluginSystem.ts:270-278 | removal reports success exactly when some entry has the id; then the first such entry is cut out and the id's error is cleared, and otherwise nothing changes |
| Plugins.RemoveLeavesNone | src/composables/usePluginSystem.ts:270-278 | with unique ids, no entry carries the id after a removal and the ids stay unique |
| Plugins.AddThenRemove | src/composables/usePluginSystem.ts:255-278 | adding a plugin under a new id and removing it again gives back the list, with the id's error cleared |
| LuaExport.Normalize | src/plugins/builtin/lua-export.ts:14-22 | a normalised path holds no backslash and is the path with every backslash turned into a slash, at most one trailing slash shorter |
| LuaExport.FileOf | src/plugins/builtin/lua-export.ts:28-30 | the directory part followed by the file name gives the path back, and the file name holds no slash |
| LuaExport.Parts | src/plugins/builtin/lua-export.ts:34-35 | no directory part is empty or `.` |
| LuaExport.CommonLength | src/plugins/builtin/lua-export.ts:38-43 | the common prefix fits in both part lists, its parts agree up to ASCII case, and it stops at the first pair that differs |
| LuaExport.Steps | src/plugins/builtin/lua-export.ts:24-64 | the target's file name is kept; the paths count as in the same directory exactly when their directory parts are equal; otherwise climbing out of the source directory leaves the common prefix, and descending through the remaining target parts reaches the target directory |
| LuaExport.RelativePath | src/plugins/builtin/lua-export.ts:10-11 | when either path is empty the target is returned unchanged |
| LuaExport.RelativeShape | src/plugins/builtin/lua-export.ts:45-64 | a relative path always ends with the target's file name; when it climbs it starts with one `..\` per level and holds no forward slash |
| LuaExport.ResourceFile | src/plugins/builtin/lua-export.ts:77-78 | the resource file starts with the resource directory and ends with the image name; a directory ending in a separator is joined directly, and otherwise exactly one separator of the directory's own kind is put in between |
| LuaExport.ConvertImagePath | src/plugins/builtin/lua-export.ts:68-71 | without an image, a resource directory or a code path, the image path is returned unchanged |
| LuaExport.ResourceFileName | src/plugins/builtin/lua-export.ts:74-78 | the file name of the joined resource file is the image's own name |
| LuaExport.ConvertKeepsName | src/plugins/builtin/lua-export.ts:68-84 | the converted path still ends with the image's file name |
| LuaExport.LuaType | src/plugins/builtin/lua-export.ts:115-117 | `label` and `input` become `Text`, `button` becomes `Button`, and every other kind becomes `Panel` |
| LuaExport.ClassName | src/plugins/builtin/lua-export.ts:95 | the class name is never empty, and is the given file name whenever one is set |
| LuaExport.BaseFields | src/plugins/builtin/lua-export.ts:119-125 | every table starts with exactly six fields at the table's column: name, type, x, y, w and h |
| LuaExport.OptField | src/plugins/builtin/lua-export.ts:130-151 | an optional field gives its key the value exactly when its condition holds, and gives no other key a value |
| LuaExport.Fields | src/plugins/builtin/lua-export.ts:119-151 | a widget table holds the six base fields first, and every line is a field at the table's column |
| LuaExport.FieldsPresent | src/plugins/builtin/lua-export.ts:127-151 | text appears only for non-`Panel` types with non-empty text; the image appears when set, converted only when both the resource and the code path are set; `checked` appears for check boxes and `selected_index` for combo boxes, 0 when unset |
| LuaExport.FieldTable | src/plugins/builtin/lua-export.ts:119-151 | the generator's field writer puts every line of every table at that table's column |
| LuaExport.EmitOneOrder | src/plugins/builtin/lua-export.ts:113-162 | a widget's table opens first for the widget and then for each of its descendants, in depth-first pre-order |
| LuaExport.EmitAllOrder | src/plugins/builtin/lua-export.ts:153-158 | sibling tables open one after another, each followed by its own subtree, in the walk's order |
| LuaExport.EmitAllPads | src/plugins/builtin/lua-export.ts:113-162 | every table opened by a run of siblings is at least as deep as the run; only the siblings themselves sit at the run's column, and deeper tables belong to widgets with a parent |
| LuaExport.WidgetLinesOrder | src/plugins/builtin/lua-export.ts:164-167 | the tables open in depth-first order from each root, which is a prefix of the editor's render order |
| LuaExport.WidgetLinesRootsAtEight | src/plugins/builtin/lua-export.ts:164-167 | only roots sit at column 8, and every nested widget comes after its parent's table |
| LuaExport.WidgetLinesComplete | src/plugins/builtin/lua-export.ts:153-167 | with unique ids and no cycles, no widget gets two tables, and a widget gets a table exactly when it is a root or below a root, so a widget whose parent is missing is left out |
| LuaExport.ParamLines | src/plugins/builtin/lua-export.ts:188-205 | the `params` block is written exactly when one of toX, toY or tweenType is set, opening and closing with its braces, with one line per field that is set |
| LuaExport.AnimLines | src/plugins/builtin/lua-export.ts:182-206 | one animation record opens and closes with its braces and writes the name and type in long brackets, the loop flag as `true` only when set, then its parameter block |
| LuaExport.AnimBlock | src/plugins/builtin/lua-export.ts:172-211 | `getAnimationsForExport()` of the given animations is written as the `animations` table exactly when there is some animation, under the class name, its first entry keyed by the first key in `Object.keys` order (`Animations.KeyIds`), ending with a closing brace and a blank line |
| LuaExport.AnimTable | src/plugins/builtin/lua-export.ts:175-211 | over the groups in the order given: nothing for no groups, otherwise the table under the class name, opening with the first group's key and ending with a closing brace and a blank line |
| LuaExport.ExportLines | src/plugins/builtin/lua-export.ts:97-111 | the output starts with the class header for the class name and is at least as long as the header, the widget tables and the closing lines |
| LuaExport.Export | src/plugins/builtin/lua-export.ts:87-214 | the generated text is empty exactly when there are no widgets, otherwise it is the listing whose animations table is built from the store's animations |
| LuaExport.ExportSections | src/plugins/builtin/lua-export.ts:97-214 | the text is the header, the widget tables, the closing lines and the animations table, in that order |
| TypeScriptExport.Props | src/plugins/builtin/typescript-export.ts:47-62 | a widget object has seven plain properties, plus one line for a text that is set and not blank and one for an image that is set |
| TypeScriptExport.PropsReadBack | src/plugins/builtin/typescript-export.ts:56-62 | reading the text line back, undoing the escaped quotes, gives the widget's text, and reading the image line back gives its image |
| TypeScriptExport.ConfigOneOrder | src/plugins/builtin/typescript-export.ts:45-80 | a widget's object opens first for the widget and then for each of its descendants, in depth-first pre-order |
| TypeScriptExport.ConfigListOrder | src/plugins/builtin/typescript-export.ts:64-74 | sibling objects open one after another, each followed by its own subtree, in the walk's order |
| TypeScriptExport.NoKids | src/plugins/builtin/typescript-export.ts:64-65 | a widget without children gets no `children` array and has no descendants |
| TypeScriptExport.ConfigListDepth | src/plugins/builtin/typescript-export.ts:64-75 | every object closed within a run of siblings is at least as deep as the run |
| TypeScriptExport.ConfigListCommas | src/plugins/builtin/typescript-export.ts:67-108 | every object of an array but the last is followed by a comma, and the last by none; the root objects are separated the same way |
| TypeScriptExport.LastFlags | src/plugins/builtin/typescript-export.ts:69-73 | of `n` separators, only the last one is the bare newline |
| TypeScriptExport.ConfigOneLasts | src/plugins/builtin/typescript-export.ts:78 | a widget's object is closed once at its own column, with the separator its caller asked for |
| TypeScriptExport.ConfigLinesComplete | src/plugins/builtin/typescript-export.ts:99-108 | the objects appear in depth-first order from each root; with unique ids and no cycles no widget appears twice, and a widget appears exactly when it is a root or below a root |
| TypeScriptExport.ParamLines | src/plugins/builtin/typescript-export.ts:164-177 | the `params` block is written exactly when one of toX, toY or tweenType is set, opening and closing with its braces, with one line per field that is set |
| TypeScriptExport.AnimEntry | src/plugins/builtin/typescript-export.ts:158-178 | one animation object opens and closes with its braces at column 12, with the parameter block just before the close |
| TypeScriptExport.GroupAsWritten | src/plugins/builtin/typescript-export.ts:156-185 | as written, a widget's animation list opens with `[` and closes with `}` |
| TypeScriptExport.GroupAsWrittenMismatch | src/plugins/builtin/typescript-export.ts:156-185 | as written, the bracket that opens a widget's animation list does not match the one that closes it, so the emitted TypeScript does not parse |
| TypeScriptExport.Group | src/plugins/builtin/typescript-export.ts:156-185 | corrected, the list opens with `[` and closes with `]` at the same column, holding each animation object separated by commas |
| TypeScriptExport.GroupBracketsMatch | src/plugins/builtin/typescript-export.ts:156-185 | corrected, every widget's list is closed by the bracket that opened it |
| TypeScriptExport.EntryBracesMatch | src/plugins/builtin/typescript-export.ts:158-178 | every animation object is closed at its own column by the brace that opened it |
| TypeScriptExport.AnimBlock | src/plugins/builtin/typescript-export.ts:136-194 | as written, the `animations` record of `getAnimationsForExport()` is written exactly when there is some animation, starts with its type declaration, opens with the list of the first key in `Object.keys` order (`Animations.KeyIds`), ends with `};` and a blank line, and its last list is closed by `}` |
| TypeScriptExport.AnimBlockCorrected | src/plugins/builtin/typescript-export.ts:136-194 | the corrected record has the same frame, opens with the same first key, and closes its last list with `]` |
| TypeScriptExport.OneGroupRecord | src/plugins/builtin/typescript-export.ts:137-194 | when every animation belongs to one widget, the source's record opens that widget's list with `[` and closes it with a brace that does not match, while the corrected record closes it with the matching bracket |
| TypeScriptExport.ClassName | src/plugins/builtin/typescript-export.ts:19 | the class name is never empty, and is the given file name whenever one is set |
| TypeScriptExport.Export | src/plugins/builtin/typescript-export.ts:10-201 | as written, the generated text is empty exactly when there are no widgets, and otherwise carries the record built from the store's animations |
| TypeScriptExport.ExportCorrected | src/plugins/builtin/typescript-export.ts:10-201 | corrected, the text is empty exactly when there are no widgets, and without animations it equals the source's text |
| TypeScriptExport.ExportSections | src/plugins/builtin/typescript-export.ts:21-201 | as written, the text is the class head, the configuration array, the fixed middle, the source's animations record and the tail, in that order |
| TypeScriptExport.ExportCorrectedSections | src/plugins/builtin/typescript-export.ts:21-201 | the corrected text has the same sections around the corrected animations record |
| ExamplePlugin.Entry | plugins/custom/example-plugin.ts:33-48 | a widget object opens with `  {` and closes with `  }`, has ten lines plus one for a set text and one for a set image, and writes the parent id, or `null`, last |
| ExamplePlugin.EntryReadsBack | plugins/custom/example-plugin.ts:41-47 | reading a widget object back gives its parent id or its absence, and, when written, its text and image with the escaped quotes undone |
| ExamplePlugin.EntryOpensOnce | plugins/custom/example-plugin.ts:33-48 | only the first line of a widget object opens an object |
| ExamplePlugin.WidgetObjects | plugins/custom/example-plugin.ts:32-54 | the `widgets` array holds exactly one object per widget of the list, children and widgets with a missing parent included |
| ExamplePlugin.CommasCount | plugins/custom/example-plugin.ts:49-53 | adding a comma after every object but the last creates and removes no object openings |
| ExamplePlugin.AnimEntry | plugins/custom/example-plugin.ts:68-74 | an animation object has seven lines, opening with `    {` and closing with `    }`, and carries no parameters |
| ExamplePlugin.GroupAsWritten | plugins/custom/example-plugin.ts:66-81 | as written, a widget's animation list opens with `[` and closes with `}` |
| ExamplePlugin.GroupAsWrittenMismatch | plugins/custom/example-plugin.ts:66-81 | as written, the bracket that opens a widget's animation list does not match the one that closes it |
| ExamplePlugin.Group | plugins/custom/example-plugin.ts:66-81 | corrected, the list opens with `[` and closes with `]`, holding the animation objects separated by commas |
| ExamplePlugin.GroupBracketsMatch | plugins/custom/example-plugin.ts:66-81 | corrected, every list, and every animation object inside it, is closed by the bracket that opened it |
| ExamplePlugin.AnimBlock | plugins/custom/example-plugin.ts:58-89 | as written, the `animations` object of `getAnimationsForExport()` is written exactly when there is some animation, opens with the list of the first key in `Object.keys` order (`Animations.KeyIds`), and its last list is closed by `}` |
| ExamplePlugin.AnimBlockCorrected | plugins/custom/example-plugin.ts:58-89 | the corrected object has the same frame, opens with the same first key, and closes its last list with `]` |
| ExamplePlugin.OneGroupObject | plugins/custom/example-plugin.ts:59-89 | when every animation belongs to one widget, the example's object opens that widget's list with `[` and closes it with a brace that does not match, while the corrected object closes it with the matching bracket |
| ExamplePlugin.ClassName | plugins/custom/example-plugin.ts:19 | the class name is never empty, and is the given file name whenever one is set |
| ExamplePlugin.Export | plugins/custom/example-plugin.ts:11-98 | as written, the listing is empty exactly when there are no widgets, and otherwise carries the object built from the store's animations |
| ExamplePlugin.ExportCorrected | plugins/custom/example-plugin.ts:11-98 | corrected, the listing is empty exactly when there are no widgets, and without animations it equals the example's listing |
| ExamplePlugin.ExportSections | plugins/custom/example-plugin.ts:23-98 | as written, the listing is the comment head, the widgets array, the example's animations object and the class, in that order |
| ExamplePlugin.ExportCorrectedSections | plugins/custom/example-plugin.ts:23-98 | the corrected listing has the same sections around the corrected animations object |
| LuaBridge.EscapeAsWrittenPerChar | src-tauri/src/lib.rs:237 | the two `replace` passes escape each character on its own: a backslash is doubled and a quote gets a backslash in front, and nothing else changes |
| LuaBridge.ReadEscaped | src-tauri/src/lib.rs:236-239 | with line breaks escaped as well, every string, written between quotes, reads back as itself, whatever text follows |
| LuaBridge.ReadEscapedAsWritten | src-tauri/src/lib.rs:236-239 | a string without line breaks, escaped as written, reads back as itself, whatever text follows |
| LuaBridge.EscapeAgrees | src-tauri/src/lib.rs:237 | for strings without line breaks the escape as written and the corrected escape give the same text |
| LuaBridge.LineBreakUnreadable | src-tauri/src/lib.rs:237 | as written, a string holding a line break is left with the raw break inside the quotes, and no Lua reader accepts that text |
| LuaBridge.MultiLineTextUnreadable | src-tauri/src/lib.rs:187-190 | the two-line text "a", newline, "b" cannot be read back as written, and reads back as itself when corrected |
| LuaBridge.ScalarRoundTrip | src-tauri/src/lib.rs:233-239 | `nil`, a boolean, a number or a string written as Lua reads back as itself |
| LuaBridge.EmptyObject | src-tauri/src/lib.rs:251-264 | an empty object is written as `{}`, the same text as an empty array, so it reads back as an empty array |
| LuaBridge.ValueRoundTrip | src-tauri/src/lib.rs:231-267 | every JSON value written as a Lua table reads back as itself, up to an empty object becoming an empty array, with object keys in order |
| LuaBridge.ArrayRoundTrip | src-tauri/src/lib.rs:240-250 | an array reads back as the array of its elements, each read back in turn |
| LuaBridge.ObjectRoundTrip | src-tauri/src/lib.rs:251-265 | an object, every key in the `["key"] = ` form, reads back as its entries in order |
| LuaBridge.U32 | src-tauri/src/lib.rs:7 | an editor number becomes a `u32` exactly when it is present and fits the unsigned 32-bit range, keeping its value |
| LuaBridge.FromEditorAsWritten | src-tauri/src/lib.rs:5-20 | as written, deserialising an editor widget fails exactly when its text is missing or its id does not fit a `u32`; a widget that deserialises always has no parent link and no selected index, because the camelCase keys match no field |
| LuaBridge.FromEditor | src-tauri/src/lib.rs:5-20 | corrected with camelCase names, deserialisation has the same failures, and it carries the parent link and the selected index over |
| LuaBridge.Received | src-tauri/src/lib.rs:118-137 | a widget that deserialises is passed on as it is; one that does not becomes a `Panel` with no id, no text and zero size |
| LuaBridge.ReceivedOptions | src-tauri/src/lib.rs:138-144 | options that deserialise are passed on as they are; otherwise every option is absent |
| LuaBridge.ParentLinkDropped | src-tauri/src/lib.rs:17-19 | a child widget reaches the plugin without its parent link as written, and with it when corrected; nothing else differs |
| LuaBridge.WidgetFields | src-tauri/src/lib.rs:163-227 | a widget table has twelve fields in a fixed order, starting with the id and with the parent id tenth, `nil` when absent |
| LuaBridge.OptionFields | src-tauri/src/lib.rs:276-303 | the options table has five fields in a fixed order, the animations last and `nil` when absent |
| LuaBridge.WidgetNamesAccepted | src-tauri/src/lib.rs:169-225 | every field name of a widget table is a name Lua accepts before ` = ` |
| LuaBridge.OptionNamesAccepted | src-tauri/src/lib.rs:277 | every field name of the options table is a name Lua accepts before ` = ` |
| LuaBridge.WidgetTableRoundTrip | src-tauri/src/lib.rs:163-227 | a widget's table reads back as exactly its twelve fields |
| LuaBridge.WidgetsTableRoundTrip | src-tauri/src/lib.rs:163-228 | the `widgets` table reads back as one object per widget, in order |
| LuaBridge.OptionsTableRoundTrip | src-tauri/src/lib.rs:269-303 | the `options` table reads back as its five fields; the four text options come back unchanged |
| LuaBridge.ToLuaAgrees | src-tauri/src/lib.rs:231-267 | without line breaks in any string, a value's text as written is the corrected text |
| LuaBridge.ValueRoundTripAsWritten | src-tauri/src/lib.rs:231-267 | so, as written, a value reads back whenever none of its strings holds a line break |
| LuaBridge.BrokenStringValue | src-tauri/src/lib.rs:236-239 | as written, a string value holding a line break is text the reader rejects |
| LuaBridge.TwoLineStringValue | src-tauri/src/lib.rs:269-274 | animation data holding the string "a", newline, "b" is unreadable as written and reads back when corrected |
| LuaBridge.WithStdout | src-tauri/src/lib.rs:377-389 | printed output that is blank leaves the plugin's result unchanged; otherwise the result still ends the text, after the printed lines |
| LuaBridge.LinesRebuild | src-tauri/src/lib.rs:381-385 | without carriage returns, the lines rejoined by newlines give the printed text back, apart from a final line ending |
| LuaBridge.StdoutCommented | src-tauri/src/lib.rs:379-386 | printed output that is not blank has at least one line, and the result is every printed line as a `-- Lua 输出: ` comment, a blank line, then the plugin's output |
| LuaBridge.FailureShowsOutputs | src-tauri/src/lib.rs:357-367 | the failure text shows the error output right after its heading and ends with the printed output, and is the bare heading when both are empty |
| LuaBridge.RunOutcome | src-tauri/src/lib.rs:357-389 | the run succeeds exactly when the interpreter succeeded and the output file could be read; a failed run is the failure text; an unreadable output file is its own error |
| TgaDecoder.ReadHeaderAsWritten | src/utils/tgaDecoder.ts:6-18 | the header is read from the first 18 bytes, and the colour-map length and entry size come from bytes 7-8 and 8, where the decoder reads them |
| TgaDecoder.ReadHeader | src/utils/tgaDecoder.ts:6-18 | the header read with the colour-map fields where the TGA format puts them; every other field agrees with the reading as written |
| TgaDecoder.FlipRows | src/utils/tgaDecoder.ts:30 | rows are flipped exactly when bit 5 of the image descriptor is clear |
| TgaDecoder.FlipCols | src/utils/tgaDecoder.ts:31 | columns are flipped exactly when bit 4 of the image descriptor is set |
| TgaDecoder.PixelOffsetAsWritten | src/utils/tgaDecoder.ts:34-40 | the pixels start after the header and the image id, and a missing or empty colour map adds nothing |
| TgaDecoder.EntryBytes | src/utils/tgaDecoder.ts:39 | a colour-map entry takes the fewest whole bytes that hold its bits |
| TgaDecoder.PixelOffset | src/utils/tgaDecoder.ts:34-40 | the pixels start after the header, the image id and, when there is a colour map, all of its entries |
| TgaDecoder.PlacementInverts | src/utils/tgaDecoder.ts:57-64 | the output pixel a stored pixel lands on is inside the image, and the stored pixel is recovered from it |
| TgaDecoder.PlacementOneToOne | src/utils/tgaDecoder.ts:57-64 | two different stored pixels never land on the same output pixel |
| TgaDecoder.PlacementOnto | src/utils/tgaDecoder.ts:57-64 | every output pixel is the landing place of some stored pixel |
| TgaDecoder.Rgba | src/utils/tgaDecoder.ts:48 | the output holds four bytes per pixel |
| TgaDecoder.DecodeFrom | src/utils/tgaDecoder.ts:20-46 | decoding succeeds exactly when the image is uncompressed true colour of depth 24 or 32 and the buffer holds every pixel; otherwise the error is the type error, then the depth error, then the length error, in that order; a decoded image keeps the header's width and height |
| TgaDecoder.DecodeAsWritten | src/utils/tgaDecoder.ts:2-75 | a buffer shorter than the header is refused; otherwise decoding succeeds exactly when the header as the decoder reads it passes the format checks and the buffer holds the pixels from the offset it computes |
| TgaDecoder.Decode | src/utils/tgaDecoder.ts:2-75 | the same with the colour map read and skipped as the format lays it out; a decoded image has four bytes per pixel |
| TgaDecoder.NoColorMapAgrees | src/utils/tgaDecoder.ts:10-12 | for a file without a colour map the decoder as written and the corrected one give the same result |
| TgaDecoder.Reorder | src/utils/tgaDecoder.ts:49-75 | the nested loop writes each stored pixel's red, green, blue and alpha (255 for 24-bit data) at the output pixel it lands on, and so produces exactly the specified image |
| TgaDecoder.AllPlaced | src/utils/tgaDecoder.ts:57-75 | once every stored pixel has been written where it lands, the output is the whole specified image |
| TgaDecoder.TopLeftInOrder | src/utils/tgaDecoder.ts:60-63 | a top-left image is copied in storage order |
| TgaDecoder.FirstPixel | src/utils/tgaDecoder.ts:65-72 | the first output pixel of a top-left image is the first stored pixel with blue and red swapped, opaque when there is no alpha |
| TgaDecoder.ColorMapMisread | src/utils/tgaDecoder.ts:10-12 | for a small colour-mapped file the decoder as written reads a wrong colour-map length and entry size and decodes a different image from the corrected decoder |
| TgaDecoder.MappedOffsets | src/utils/tgaDecoder.ts:34-46 | in that file the decoder as written reads the pixel from byte 18, inside the colour map, while the colour map really ends at byte 24 |
| TgaDecoder.DecodeSkipsColorMap | src/utils/tgaDecoder.ts:38-46 | a decoded image is read from the bytes right after the header, the image id and the whole colour map |
| CodeText.UnlinesJoin | src-tauri/src/lib.rs:379-386 | writing lines one after another, each ending in a newline, is joining them with newlines and adding a final newline |
| CodeText.UnlinesAppend | plugins/custom/example-plugin.ts:23-98 | writing two runs of lines is writing their concatenation |
| CodeText.Pad | src/plugins/builtin/typescript-export.ts:46 | the indentation is exactly `n` spaces |
| CodeText.Commas | src/plugins/builtin/typescript-export.ts:100-108 | every block keeps its lines, and only the last line of every block but the last gets a comma |
| CodeText.EscapedQuotesGuarded | src/plugins/builtin/typescript-export.ts:57 | after escaping, every single quote has a backslash before it |
| CodeText.EscapeQuotesRoundTrip | src/plugins/builtin/typescript-export.ts:57 | reading the escaped text back gives the original text; the example plugin escapes the same way at plugins/custom/example-plugin.ts:42 |
| CodeText.QuotedPropReadsBack | src/plugins/builtin/typescript-export.ts:57-61 | a quoted property line reads back as the value it was written from |
| JsText.TrimStart | src/composables/useExport.ts:659 | the result is a suffix of the input that does not start with white space, and everything dropped is white space |
| JsText.TrimEnd | src/composables/useExport.ts:659 | the result is a prefix of the input that does not end with white space, and everything dropped is white space |
| JsText.Trim | src/composables/useExport.ts:659 | the result is the slice left after dropping white space from both ends: it neither starts nor ends with white space, everything dropped is white space, and it is empty exactly when the input is all white space |
| JsText.TrimKeeps | src/composables/useExport.ts:659 | a string that neither starts nor ends with white space is its own trim |
| JsText.TrimIdempotent | src/composables/useExport.ts:659 | trimming twice is trimming once |
| JsText.ReplaceChar | src/plugins/builtin/lua-export.ts:16 | each occurrence of the character is replaced and every other character is kept in place |
| JsText.LastIndexOf | src/composables/useExport.ts:782-783 | the result is -1 or an index holding the character, and no later index holds it |
| JsText.SplitBy | src/composables/useExport.ts:301 | splitting gives at least one piece and no piece contains a separator |
| JsText.JoinSplit | src/composables/useExport.ts:301 | joining the pieces with the separator gives the string back |
| JsText.LastSegment | src/composables/useExport.ts:301 | the last path segment ends the string, holds no separator, and is preceded by a separator unless it is the whole string; `convertImagePath` takes the base name the same way at src/plugins/builtin/lua-export.ts:74 |
| JsText.Repeat | src/plugins/builtin/lua-export.ts:52 | repeating a string `n` times gives `n` times its length |
| JsText.NatToStringValue | src/plugins/builtin/lua-export.ts:119-125 | the printed digits of a natural number read back as that number |
| JsText.IntToStringReads | src/plugins/builtin/lua-export.ts:119-125 | the decimal text of any integer, with a minus sign when negative, reads back as that integer |
| JsText.LowerAscii | src/plugins/builtin/lua-export.ts:41 | upper-case ASCII letters become lower case and every other character is kept |
| JsText.DigitsRead | src/plugins/builtin/lua-export.ts:119-125 | a run of digits reads as its decimal value |
| JsText.MinusDigitsRead | src/plugins/builtin/lua-export.ts:119-125 | a minus sign before a run of digits reads as the negated value |
| Selection.Dedup | src/composables/useCanvasInteraction.ts:51-57 | the list through a `Set` has no repeats and holds exactly the values of the input |
| Selection.ToggleId | src/composables/useCanvasInteraction.ts:49-57 | a ctrl-click leaves a repeat-free selection holding the clicked id exactly when it was not selected, and every other id as before; the tree's `selectFromTree` toggles the same way at src/composables/useHierarchyTree.ts:77-85 and src/composables/useHierarchyTree.js:65-73 |
| Selection.Without | src/composables/useCanvasInteraction.ts:52-53 | deleting an id keeps the list repeat-free and removes exactly that id |
| Selection.ToggleTwice | src/composables/useHierarchyTree.ts:80-81 | ctrl-clicking the same id twice gives back the same set of selected ids |
| Selection.DedupDistinct | src/composables/useCanvasInteraction.ts:51-57 | a list without repeats goes through the `Set` unchanged |
| Selection.ToggleAppends | src/composables/useCanvasInteraction.ts:54-57 | ctrl-clicking an unselected id appends it at the end of a repeat-free selection |

## Left out

- File I/O and dialogs: saving a project and "save as", the file pickers, the FileReader path, directory creation, resource copying and the plugin editor's save all go through Tauri or the browser. The model takes their results as inputs. `refreshResourcePreviews` is left out for the same reason.
- JSON parsing and serialisation: `JSON.parse`, `JSON.stringify` and `structuredClone` are value copies. A parse failure or a non-array snapshot is a `Malformed` value.
- Map key order: the order of serde_json map keys on the Rust side is modelled as a given sequence. On the editor side `Object.keys` order is modelled, as sections 6.1.7 and 10.1.11.1 of ECMA-262 define it: array-index keys (integers below 2^32 - 1) first and ascending, then the other keys in creation order. The exporters walk `getAnimationsForExport()` in that order (`Animations.KeyIds`, `Animations.ExportedGroups`), and the duplicate-name check uses it too (`ExportPanel.KeyOrder`). The bound is taken from the standard, not from any engine.
- Unknown settings keys: the shallow settings merge covers the known settings fields only.
- Plugin loading: dynamic `import`, `import.meta.glob` scanning, `initializePlugins`, and `loadCustomPluginFromPath` with its `Date.now` timestamp are module loading. `getPluginError` and the `loadingPlugins` set are UI state.
- Export panel UI: `saveExportConfig`, the `selectExport*Path` pickers, plugin create/edit/save, confirm dialogs and `openPluginWithDefaultEditor`. The copy loop's progress messages and `send_f4_to_war3` (Windows process and window enumeration) are left out too.
- `getDefaultPluginCode` returns a fixed Lua template that only an external interpreter reads.
- Plugin metadata that is not a string is treated like a missing field, since the model's records hold strings.
- `JsText.LowerAscii`: lower-cases ASCII letters only; JavaScript `toLowerCase` also folds non-ASCII letters. The path comparison in `getRelativePath` is weaker than the source for non-ASCII names.
- LuaBridge.Escape: the corrected escape adds only `\n` and `\r` to the two escapes the source writes. Other control characters pass through, which Lua's quoted strings accept.
- Number printing: JavaScript `String(x)` for reals and Rust `f64` `to_string` are parameters (`showNum`, `showF64`), because they are floating-point formatting. Integers are printed by `JsText.IntToString`.
- Null animation params: a `null` params object is treated as absent. The TypeScript generator's `!== undefined` test would open an empty params block for an explicit `null` member.
- Rust side: finding `lua54`, spawning it, temp files with uuid names, the wrapper script, and the early `Err` messages of process failures are process I/O. So are `open_file_with_default_editor` and `run()`. `from_utf8_lossy` is the identity on the model's strings.
- TgaDecoder.Decode: stops at the RGBA bytes. The canvas, `ImageData` and `toDataURL` tail is browser drawing. The `RangeError` text that `DataView` throws for a short header is a fixed message, `ShortHeaderMessage`.
- Animation timing: `requestAnimationFrame`, `performance.now` and the canvas `rafId` throttling are host scheduling. Each frame is a call with `now` as a parameter, and the marquee updates at once.
- Easing.Ease: the sine, circ, back, bounce, expo and elastic curves between their endpoints depend on `Math.sin`, `cos`, `pow` and `sqrt`. These are parameters (`HostMath`), so only the endpoint guards and the algebraic curves are stated exactly.
- AnimationPreview.Frame: states which widgets and fields a frame changes, not the floating-point values it writes between the endpoints.
- AnimationPreview.Preview: identifies the previewed widgets by id. The source collects the widget objects themselves into `affected` (src/composables/useAnimations.ts:298-309), and its frames write to those objects. Undo, redo and opening a project replace the widget array with new objects (src/composables/useHistory.ts:17, src/composables/useProjectFile.ts:131). After that, the source's frames write to detached objects and nothing visible changes, while the model writes to the widgets that now carry those ids.
- AnimationPreview.Stop: the same identification by id. The source's stop function restores the saved state into the objects it collected (src/composables/useAnimations.ts:393-404), so after undo, redo or opening a project it changes nothing visible. The model restores the widgets that now carry those ids.
- AnimationPreview.Step: the same identification by id, for each frame's writes and for the final restore of a non-looping preview.
- DOM hit tests: `getBoundingClientRect`, `elementFromPoint`, `closest`, cursor styling and document listeners. Rectangles and hit results are inputs.
- `useResourceManager.ts`: drag-drop and directory import. It is I/O, and its merge-by-value rule is the one modelled from `useResources.ts`. The extension switch for previews and `triggerImportResources` are left out for the same reason.
- `useKeyboard`, `useContextMenu` and `useSettings`: key-event dispatch to operations modelled elsewhere, popup state from DOM rectangles, and localStorage.
- Plugins.Execute: the message of the `TypeError` raised by an `export` that is not a function is the V8 wording (`NotCallableMessage`); other JavaScript engines word it differently.
- Unbounded recursion: on widget lists whose parent links form a cycle, or whose ids repeat, the source's recursive walks (`renderWidgets`, `moveWidgetWithChildren` and `deleteRecursive` inside `deleteSelected` in src/composables/useWidgets.ts:28-134, and the exporters' tree walks) do not terminate and end in a stack overflow; the parent picker (src/composables/useWidgets.ts:21-25) does not rule such links out. The model bounds those walks by a fuel equal to the list length and returns a result, so on such lists it says nothing about the crash. The properties about the walks are stated for unique ids and acyclic links.

## Findings

| source | as written | input that shows it | evidently intended | confidence | as-written member | corrected member |
|---|---|---|---|---|---|---|
| src/composables/useHistory.ts:13-23 | restoring a snapshot replaces the widgets but keeps the id counter, which opening a file may have lowered (src/composables/useProjectFile.ts:133-134) | widgets 1 and 2; open a file holding only widget 1 (counter becomes 2); undo (widgets 1 and 2 again); add a widget: it gets id 2, a duplicate | a restored layout never shares an id with a new widget | high (not executed) | History.RestoreAsWritten, History.Undo, History.UndoBreaksWf, ProjectFile.OpenUndoAddAsWrittenReusesId | History.Restore, History.UndoCorrected, History.UndoCorrectedKeepsWf, ProjectFile.OpenUndoAddCorrected |
| src/composables/useBatchEdit.ts:22-29 | moves every selected widget whose parent is unselected, with its subtree | chain 1 <- 2 <- 3 with 1 and 3 selected: 3 moves as part of 1's subtree and again as its own root | every widget moves by the offset once | high (not executed) | BatchEdit.BatchMoveAsWritten, BatchEdit.BatchMoveAsWrittenDoubleMoves | BatchEdit.BatchMove, BatchEdit.BatchMoveOnce |
| src/composables/useCanvasInteraction.ts:221-232 | the multi-selection drag moves every selected widget whose parent is unselected, with its subtree | the same chain and selection, dragging 1: widget 3 moves twice as far | every covered widget moves once | high (not executed) | CanvasInteraction.DragShiftAsWritten, CanvasInteraction.DragMove, CanvasInteraction.MouseMove, CanvasInteraction.MultiDragCounts, CanvasInteraction.DragAsWrittenDoubleMoves | CanvasInteraction.DragShift, CanvasInteraction.DragMoveCorrected, CanvasInteraction.MouseMoveCorrected, CanvasInteraction.MultiDragCorrectedOnce, CanvasInteraction.DragMovesOnce |
| src-tauri/src/lib.rs:237 | strings are escaped for backslash and double quote only | a widget text holding a line break: the Lua text has a raw newline inside a quoted string, which the Lua 5.4 reader rejects (section 3.1 of the Lua 5.4 Reference Manual) | every string is written as a Lua literal that reads back as itself | high (not executed) | LuaBridge.EscapeAsWritten, LuaBridge.LineBreakUnreadable | LuaBridge.Escape, LuaBridge.ReadEscaped |
| src/composables/useAnimations.ts:374-387 | a finished preview leaves its stop function set, and calling it later writes the saved state back into the widget objects | preview an animation to the end, then move the widget in place (drag it, align it or batch-edit it), then start any preview: the stale stop puts the widget back where the old preview started. After undo, redo or opening a project the widget objects are new, and the stale stop changes nothing visible | a preview that has ended restores nothing later | high (not executed) | AnimationPreview.StepAsWritten, AnimationPreview.StaleHandleRestores | AnimationPreview.Step, AnimationPreview.FinishedHandleForgotten |
| src/plugins/builtin/typescript-export.ts:156-185 | each widget's animation list opens with `[` and closes with `}` | any project with one animation: the emitted TypeScript has mismatched brackets | each list is closed with `]` | high (not executed) | TypeScriptExport.GroupAsWritten, TypeScriptExport.GroupAsWrittenMismatch, TypeScriptExport.AnimBlock, TypeScriptExport.Export, TypeScriptExport.OneGroupRecord | TypeScriptExport.Group, TypeScriptExport.GroupBracketsMatch, TypeScriptExport.AnimBlockCorrected, TypeScriptExport.ExportCorrected |
| plugins/custom/example-plugin.ts:66-81 | the same: the list opens with `[` and closes with `}` | any project with one animation | each list is closed with `]` | high (not executed) | ExamplePlugin.GroupAsWritten, ExamplePlugin.GroupAsWrittenMismatch, ExamplePlugin.AnimBlock, ExamplePlugin.Export, ExamplePlugin.OneGroupObject | ExamplePlugin.Group, ExamplePlugin.GroupBracketsMatch, ExamplePlugin.AnimBlockCorrected, ExamplePlugin.ExportCorrected |
| src-tauri/src/lib.rs:5-20 | the `Widget` struct has no camelCase rename, so the editor's `parentId` and `selectedIndex` keys are ignored | a child widget: the Lua plugin sees `parentId = nil` | the plugin sees the parent link | high (not executed) | LuaBridge.FromEditorAsWritten, LuaBridge.ParentLinkDropped | LuaBridge.FromEditor, LuaBridge.ParentLinkDropped |
| src/utils/tgaDecoder.ts:10-12 | the colour-map length is read from bytes 7-8 and the entry size from byte 8; the Truevision TGA 2.0 header keeps them at bytes 5-6 and 7 | a 1x1 true-colour file with a two-entry 24-bit colour map: the pixel is read from byte 18, inside the colour map, not from byte 24 | the pixels are read after the whole colour map | medium (not executed) | TgaDecoder.DecodeAsWritten, TgaDecoder.ColorMapMisread | TgaDecoder.Decode, TgaDecoder.DecodeSkipsColorMap |
| src/composables/useExport.ts:657-667 | the names are counted in a plain `{}`, so a name that `Object.prototype` already carries starts from the inherited member and its count never reads as a number above one | two root widgets both named `toString`: the export goes ahead without a warning | every name shared under one parent is reported | high (not executed) | ExportPanel.DupPairsExact, ExportPanel.InheritedNameMissed | ExportPanel.DupPairsCorrectedExact |
