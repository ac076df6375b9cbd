/**
  The project file of `useProjectFile`: what `buildProjectJson` writes, the
  rules by which opening a file restores the editor from what it reads back,
  and `handleNewProject`. The parsed JSON is given as a `ProjectData` whose
  fields are `None` when the file lacks them (or, for the lists, holds
  something other than an array); reading the file, the dialogs and the
  message line are outside the model.
*/
module ProjectFile {
  import opened Wrappers
  import opened Types
  import opened WidgetStore
  import History
  import Animations
  import RecentProjects
  import ExportPanel

  /** The export configuration the editor keeps next to the project. */
  datatype ExportConfig = ExportConfig(
    resourcesEnabled: bool,
    resourcesPath: string,
    codeEnabled: bool,
    codePath: string,
    selectedPlugin: string,
    plugins: seq<ExportPanel.PluginEntry>)

  /** Everything a project file reads or writes, plus the undo stacks, the current path, the recent list and the welcome flag. */
  datatype Editor = Editor(
    doc: Doc,
    hist: History.Stacks,
    settings: Settings,
    resources: seq<ImageResource>,
    anims: Animations.Anims,
    output: ExportConfig,
    path: Option<string>,
    recent: seq<RecentProjects.Recent>,
    showWelcome: bool)

  /** A stored resource: label, value and local path only. */
  datatype SavedResource = SavedResource(caption: string, value: string, localPath: Option<string>)

  /** A stored `settings` object; each present field overrides the editor's. */
  datatype SettingsPatch = SettingsPatch(
    canvasWidth: Option<real>,
    canvasHeight: Option<real>,
    rulerStep: Option<real>,
    gridSnapStep: Option<real>,
    autoSave: Option<bool>,
    controlPanelWidth: Option<real>,
    canvasBgColor: Option<string>,
    canvasBgImage: Option<string>)

  /** A stored `exportConfig`, including the older `exportLua*` names. */
  datatype SavedConfig = SavedConfig(
    resourcesEnabled: Option<bool>,
    resourcesPath: Option<string>,
    codeEnabled: Option<bool>,
    codePath: Option<string>,
    luaEnabled: Option<bool>,
    luaPath: Option<string>,
    selectedPlugin: Option<string>,
    plugins: Option<seq<ExportPanel.PluginEntry>>)

  /** The parsed project file. */
  datatype ProjectData = ProjectData(
    widgets: Option<seq<Widget>>,
    settings: Option<SettingsPatch>,
    resources: Option<seq<SavedResource>>,
    animations: Option<seq<Animation>>,
    nextAnimId: Option<int>,
    exportConfig: Option<SavedConfig>)

  /** `s || d` on a possibly missing string: the empty string counts as missing. */
  function OrText(s: Option<string>, d: string): (r: string)
    ensures s.Some? && s.value != "" ==> r == s.value
    ensures s.None? || s.value == "" ==> r == d
  {
    if s.Some? && s.value != "" then s.value else d
  }

  /** The settings written out as a patch that sets every field. */
  function FullPatch(s: Settings): SettingsPatch {
    SettingsPatch(Some(s.canvasWidth), Some(s.canvasHeight), Some(s.rulerStep), Some(s.gridSnapStep),
      Some(s.autoSave), Some(s.controlPanelWidth), Some(s.canvasBgColor), Some(s.canvasBgImage))
  }


  /** `{ ...settings, ...patch }`: every field the patch holds wins, every other field is kept. */
  function MergeSettings(s: Settings, p: SettingsPatch): Settings {
    Settings(
      p.canvasWidth.GetOr(s.canvasWidth), p.canvasHeight.GetOr(s.canvasHeight),
      p.rulerStep.GetOr(s.rulerStep), p.gridSnapStep.GetOr(s.gridSnapStep),
      p.autoSave.GetOr(s.autoSave), p.controlPanelWidth.GetOr(s.controlPanelWidth),
      p.canvasBgColor.GetOr(s.canvasBgColor), p.canvasBgImage.GetOr(s.canvasBgImage))
  }

  /** Merging an empty patch keeps the settings; merging a complete patch yields exactly the patched settings. */
  lemma MergeSettingsLaws(s: Settings, t: Settings)
    ensures MergeSettings(s, SettingsPatch(None, None, None, None, None, None, None, None)) == s
    ensures MergeSettings(s, FullPatch(t)) == t
  {
  }

  /** `animations.reduce((m, a) => Math.max(m, a.id || 0), 0)`. */
  function MaxAnimId(list: seq<Animation>): (m: int)
    ensures m >= 0
    ensures forall k :: 0 <= k < |list| ==> list[k].id <= m
  {
    if list == [] then 0
    else
      var m := MaxAnimId(list[..|list| - 1]);
      var last := list[|list| - 1].id;
      if m < last then last else m
  }

  /** A resource as `buildProjectJson` stores it: the preview URL is dropped and a missing local path becomes `''`. */
  function Store(r: ImageResource): (s: SavedResource)
    ensures s.caption == r.caption && s.value == r.value
    ensures s.localPath == Some(OrText(r.localPath, ""))
  {
    SavedResource(r.caption, r.value, Some(OrText(r.localPath, "")))
  }

  /** A resource as opening a file rebuilds it: local path defaulting to `''` and an empty preview URL, to be refreshed from disk. */
  function Load(s: SavedResource): (r: ImageResource)
    ensures r.caption == s.caption && r.value == s.value
    ensures r.localPath == Some(OrText(s.localPath, "")) && r.previewUrl == Some("")
  {
    ImageResource(s.caption, s.value, Some(OrText(s.localPath, "")), Some(""))
  }

  /** `buildProjectJson`: widgets, settings, trimmed resources, animations with their counter, and the export configuration under its current names. */
  function Build(e: Editor): (d: ProjectData)
    ensures d.widgets == Some(e.doc.widgets) && d.animations == Some(e.anims.list)
    ensures d.settings == Some(FullPatch(e.settings))
    ensures d.resources.Some? && |d.resources.value| == |e.resources|
    ensures forall k :: 0 <= k < |e.resources| ==> d.resources.value[k] == Store(e.resources[k])
    ensures d.nextAnimId == Some(e.anims.nextAnimId)
    ensures d.exportConfig.Some? && d.exportConfig.value.luaEnabled.None? && d.exportConfig.value.luaPath.None?
  {
    ProjectData(
      Some(e.doc.widgets),
      Some(FullPatch(e.settings)),
      Some(seq(|e.resources|, k requires 0 <= k < |e.resources| => Store(e.resources[k]))),
      Some(e.anims.list),
      Some(e.anims.nextAnimId),
      Some(SavedConfig(
        Some(e.output.resourcesEnabled), Some(e.output.resourcesPath),
        Some(e.output.codeEnabled), Some(e.output.codePath), None, None,
        Some(e.output.selectedPlugin), Some(e.output.plugins))))
  }

  /**
    The stored export configuration over the current one: the two resource
    fields fall back to off and `''`, the code fields fall back to their older
    Lua names and then to on and `''`, and the plugin choice and plugin list
    are taken only when present (and, for the choice, non-empty).
  */
  function ApplyConfig(x: ExportConfig, c: SavedConfig): (r: ExportConfig)
    ensures r.resourcesEnabled == c.resourcesEnabled.GetOr(false)
    ensures r.resourcesPath == OrText(c.resourcesPath, "")
    ensures c.codeEnabled.Some? ==> r.codeEnabled == c.codeEnabled.value
    ensures c.codeEnabled.None? && c.luaEnabled.Some? ==> r.codeEnabled == c.luaEnabled.value
    ensures c.codeEnabled.None? && c.luaEnabled.None? ==> r.codeEnabled
    ensures r.codePath == OrText(c.codePath, OrText(c.luaPath, ""))
    ensures r.selectedPlugin == OrText(c.selectedPlugin, x.selectedPlugin)
    ensures r.plugins == c.plugins.GetOr(x.plugins)
  {
    ExportConfig(
      c.resourcesEnabled.GetOr(false),
      OrText(c.resourcesPath, ""),
      c.codeEnabled.GetOr(c.luaEnabled.GetOr(true)),
      OrText(c.codePath, OrText(c.luaPath, "")),
      OrText(c.selectedPlugin, x.selectedPlugin),
      c.plugins.GetOr(x.plugins))
  }

  /**
    The restore steps both ways of opening a file share. A widget array
    pushes history, replaces the widgets, clears the selection and sets the
    counter past the largest id; settings are shallow-merged; a resource
    array is rebuilt; an animation array replaces the list with its counter
    past the largest id, while anything else empties it and resets the
    counter to 1; an export configuration is applied. The stored
    `nextAnimId` is not read.
  */
  function Apply(e: Editor, data: ProjectData): (r: Editor)
    ensures data.widgets.None? ==> r.doc == e.doc && r.hist == e.hist
    ensures data.widgets.Some? ==>
      && r.hist == History.Push(e.doc, e.hist)
      && r.doc == Doc(data.widgets.value, MaxId(data.widgets.value) + 1, [])
    ensures data.widgets.Some? ==> forall i :: 0 <= i < |r.doc.widgets| ==> r.doc.widgets[i].id < r.doc.nextId
    ensures data.settings.None? ==> r.settings == e.settings
    ensures data.settings.Some? ==> r.settings == MergeSettings(e.settings, data.settings.value)
    ensures data.resources.None? ==> r.resources == e.resources
    ensures data.resources.Some? ==> |r.resources| == |data.resources.value|
    ensures data.resources.Some? ==> forall k :: 0 <= k < |r.resources| ==> r.resources[k] == Load(data.resources.value[k])
    ensures data.animations.None? ==> r.anims == Animations.Anims([], 1)
    ensures data.animations.Some? ==> r.anims.list == data.animations.value
    ensures Animations.Wf(r.anims) && r.anims.nextAnimId >= 1
    ensures data.exportConfig.None? ==> r.output == e.output
    ensures data.exportConfig.Some? ==> r.output == ApplyConfig(e.output, data.exportConfig.value)
    ensures r.path == e.path && r.recent == e.recent && r.showWelcome == e.showWelcome
  {
    var doc := if data.widgets.Some? then RestoredDoc(data.widgets.value) else e.doc;
    var hist := if data.widgets.Some? then History.Push(e.doc, e.hist) else e.hist;
    var settings := if data.settings.Some? then MergeSettings(e.settings, data.settings.value) else e.settings;
    var resources := if data.resources.Some? then LoadAll(data.resources.value) else e.resources;
    var anims := RestoredAnims(data.animations);
    var output := if data.exportConfig.Some? then ApplyConfig(e.output, data.exportConfig.value) else e.output;
    e.(doc := doc, hist := hist, settings := settings, resources := resources, anims := anims, output := output)
  }

  /** The document a stored widget array restores: no selection, the counter past every id. */
  function RestoredDoc(ws: seq<Widget>): (d: Doc)
    ensures d == Doc(ws, MaxId(ws) + 1, [])
    ensures forall i :: 0 <= i < |d.widgets| ==> d.widgets[i].id < d.nextId
  {
    Doc(ws, MaxId(ws) + 1, [])
  }

  /** The animation list a file restores: the stored array with its counter past every id, or an empty list. */
  function RestoredAnims(stored: Option<seq<Animation>>): (a: Animations.Anims)
    ensures stored.None? ==> a == Animations.Anims([], 1)
    ensures stored.Some? ==> a.list == stored.value
    ensures Animations.Wf(a) && a.nextAnimId >= 1
  {
    if stored.Some? then Animations.Anims(stored.value, MaxAnimId(stored.value) + 1) else Animations.Anims([], 1)
  }

  /** `resources.map(loadResource)`. */
  function LoadAll(rs: seq<SavedResource>): (r: seq<ImageResource>)
    ensures |r| == |rs| && forall k :: 0 <= k < |r| ==> r[k] == Load(rs[k])
  {
    seq(|rs|, k requires 0 <= k < |rs| => Load(rs[k]))
  }

  /**
    `openProjectFromPath`: a file that cannot be read or parsed changes
    nothing; otherwise the restore rules apply, the path becomes the current
    project path and goes to the head of the recent list, and the welcome
    screen closes.
  */
  function OpenFromPath(e: Editor, filePath: string, read: Option<ProjectData>): (r: Editor)
    ensures read.None? ==> r == e
    ensures read.Some? ==> r.path == Some(filePath) && !r.showWelcome
    ensures read.Some? ==> r.recent == RecentProjects.AddRecent(e.recent, filePath)
    ensures read.Some? ==> r.(path := e.path, recent := e.recent, showWelcome := e.showWelcome) == Apply(e, read.value)
  {
    match read
    case None => e
    case Some(data) =>
      Apply(e, data).(path := Some(filePath), recent := RecentProjects.AddRecent(e.recent, filePath), showWelcome := false)
  }

  /** `handleProjectFileSelected`: the same restore rules, but the project has no path afterwards and the recent list and welcome screen are untouched. */
  function OpenFromInput(e: Editor, read: Option<ProjectData>): (r: Editor)
    ensures read.None? ==> r == e
    ensures read.Some? ==> r.path.None? && r.recent == e.recent && r.showWelcome == e.showWelcome
    ensures read.Some? ==> r.(path := e.path) == Apply(e, read.value)
  {
    match read
    case None => e
    case Some(data) => Apply(e, data).(path := None)
  }

  /**
    `handleNewProject`: empty widgets, selection, animations and resources,
    both counters at 1, the export paths and switches at their defaults and no
    project path; the plugin choice, the plugin list and the settings stay.
    The empty document is then pushed onto the history.
  */
  function NewProject(e: Editor): (r: Editor)
    ensures r.doc == Doc([], 1, []) && r.anims == Animations.Anims([], 1) && r.resources == []
    ensures r.output == e.output.(resourcesEnabled := false, resourcesPath := "", codeEnabled := true, codePath := "")
    ensures r.path.None? && !r.showWelcome
    ensures r.settings == e.settings && r.recent == e.recent
    ensures r.hist == History.Push(Doc([], 1, []), e.hist)
  {
    var blank := Doc([], 1, []);
    e.(doc := blank, anims := Animations.Anims([], 1), resources := [],
       output := e.output.(resourcesEnabled := false, resourcesPath := "", codeEnabled := true, codePath := ""),
       path := None, hist := History.Push(blank, e.hist), showWelcome := false)
  }

  /**
    Saving and reopening restores the editor: the same widgets with the
    selection cleared and the counter just past the largest id, the same
    settings, the same resources with their local path filled in and the
    preview URL emptied, the same animations with the counter just past the
    largest id, and the same export configuration. The reopen pushes history.
  */
  lemma ReopenRestores(e: Editor)
    ensures var r := Apply(e, Build(e));
      && r.doc == Doc(e.doc.widgets, MaxId(e.doc.widgets) + 1, [])
      && r.hist == History.Push(e.doc, e.hist)
      && r.settings == e.settings
      && |r.resources| == |e.resources|
      && (forall k :: 0 <= k < |e.resources| ==>
            r.resources[k] == e.resources[k].(localPath := Some(OrText(e.resources[k].localPath, "")), previewUrl := Some("")))
      && r.anims == Animations.Anims(e.anims.list, MaxAnimId(e.anims.list) + 1)
      && r.output == e.output
  {
    var r := Apply(e, Build(e));
    MergeSettingsLaws(e.settings, e.settings);
  }

  /** Saving and reopening a second time changes none of the restored contents: the restored state is a fixed point. */
  lemma ReopenSettles(e: Editor)
    ensures var r1 := Apply(e, Build(e));
            var r2 := Apply(r1, Build(r1));
            r2.doc == r1.doc && r2.settings == r1.settings && r2.resources == r1.resources
            && r2.anims == r1.anims && r2.output == r1.output
  {
    ReopenRestores(e);
    var r1 := Apply(e, Build(e));
    ReopenRestores(r1);
    assert MaxId(r1.doc.widgets) == MaxId(e.doc.widgets);
  }

  /** A blank project survives saving and reopening unchanged. */
  lemma NewProjectReopens(e: Editor)
    ensures var n := NewProject(e);
            var r := Apply(n, Build(n));
            r.doc == n.doc && r.anims == n.anims && r.resources == [] && r.output == n.output
  {
    ReopenRestores(NewProject(e));
  }

  /** Undo straight after a new project gives back the empty document, since the blank state was the last push. */
  lemma NewProjectUndo(e: Editor)
    ensures var n := NewProject(e);
            History.Undo(n.doc, n.hist).0.widgets == []
  {
  }

  /**
    Opening a file whose ids are unique keeps the document well formed, and
    so does undoing back to the document that was open before, provided the
    undo raises the counter past the restored ids; the next widget added then
    gets a fresh id.
  */
  lemma OpenUndoAddFresh(e: Editor, data: ProjectData, kind: string)
    requires WidgetStore.Wf(e.doc) && History.SnapsUnique(e.hist)
    requires data.widgets.Some? && UniqueIds(data.widgets.value)
    ensures var o := Apply(e, data);
            var u := History.UndoCorrected(o.doc, o.hist);
            WidgetStore.Wf(o.doc) && WidgetStore.Wf(u.0) && WidgetStore.Wf(AddWidget(u.0, kind))
  {
    var o := Apply(e, data);
    History.PushKeepsSnapsUnique(e.doc, e.hist);
    History.UndoCorrectedKeepsWf(o.doc, o.hist);
    AddWidgetWf(History.UndoCorrected(o.doc, o.hist).0, kind);
  }

  /** An editor holding the widgets with ids 1 and 2, next id 3, and an empty history. */
  function TwoWidgets(e: Editor): Editor {
    e.(doc := Doc([NewWidget("panel", 1), NewWidget("panel", 2)], 3, []), hist := History.Stacks([], []))
  }

  /** A project file holding only the widget with id 1. */
  const OneWidgetFile := ProjectData(Some([NewWidget("panel", 1)]), None, None, None, None, None)

  /**
    With the source's undo the counter stays where the opened file put it:
    open a file holding only id 1 over a document holding ids 1 and 2 (the
    counter becomes 2), undo (ids 1 and 2 come back, the counter stays 2), and
    add a widget: it gets id 2, which is already taken.
  */
  lemma OpenUndoAddAsWrittenReusesId(e: Editor)
    ensures var o := Apply(TwoWidgets(e), OneWidgetFile);
            var u := History.Undo(o.doc, o.hist);
            var a := AddWidget(u.0, "button");
            && u.0.widgets == TwoWidgets(e).doc.widgets
            && a.widgets[2].id == 2 && a.widgets[1].id == 2
            && !UniqueIds(a.widgets)
  {
    var o := Apply(TwoWidgets(e), OneWidgetFile);
    assert MaxId([NewWidget("panel", 1)]) == 1 by {
      assert [NewWidget("panel", 1)][..0] == [];
    }
    assert o.doc.nextId == 2;
  }

  /** The same steps with the corrected undo give the new widget id 3. */
  lemma OpenUndoAddCorrected(e: Editor)
    ensures var o := Apply(TwoWidgets(e), OneWidgetFile);
            var u := History.UndoCorrected(o.doc, o.hist);
            var a := AddWidget(u.0, "button");
            a.widgets[2].id == 3 && UniqueIds(a.widgets)
  {
    var o := Apply(TwoWidgets(e), OneWidgetFile);
    var two := TwoWidgets(e).doc.widgets;
    assert MaxId([NewWidget("panel", 1)]) == 1 by {
      assert [NewWidget("panel", 1)][..0] == [];
    }
    assert MaxId(two) == 2 by {
      assert two[..1] == [NewWidget("panel", 1)];
      assert [NewWidget("panel", 1)][..0] == [];
    }
  }
}
