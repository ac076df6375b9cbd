/**
  The export-plugin registry of `usePluginSystem`: checking the shape of a
  plugin module, loading a module and recording why it failed, running a
  plugin's export function, and looking up, adding and removing plugins.
  Dynamic `import` is not modelled: its outcome is a parameter.
*/
module Plugins {
  import opened Wrappers
  import opened JsText

  /**
    The `metadata` object of a plugin module. A field that is missing or
    falsy is the empty string.
  */
  datatype Metadata = Metadata(id: string, name: string, outputFormat: string, kind: string)

  /** The `export` member of a module: absent or falsy, present but not a function, or a function. */
  datatype ExportSlot = Missing | NotCallable | Callable

  /** What a loaded module offers: its metadata object (`None` when falsy) and its `export` member. */
  datatype ModuleShape = ModuleShape(metadata: Option<Metadata>, exportFn: ExportSlot)

  datatype Validation = Validation(valid: bool, errors: seq<string>, warnings: seq<string>)

  const NoMetadata := "插件必须导出 metadata 对象"
  const NoId := "metadata 必须包含 id 字段"
  const NoName := "metadata 必须包含 name 字段"
  const NoFormat := "metadata 必须包含 outputFormat 字段"
  const NoKind := "metadata 必须包含 type 字段"
  const NoExport := "插件必须导出 export 函数"
  const NotFunction := "export 必须是一个函数"

  /** The metadata messages are told apart from each other and from the two export messages. */
  lemma MetadataErrorsFacts(md: Option<Metadata>)
    ensures md.None? ==> MetadataErrors(md) == [NoMetadata]
    ensures md.Some? ==>
              && |MetadataErrors(md)| == MissingFields(md.value)
              && (NoId in MetadataErrors(md) <==> md.value.id == "")
              && (NoName in MetadataErrors(md) <==> md.value.name == "")
              && (NoFormat in MetadataErrors(md) <==> md.value.outputFormat == "")
              && (NoKind in MetadataErrors(md) <==> md.value.kind == "")
              && NoMetadata !in MetadataErrors(md)
    ensures NoExport !in MetadataErrors(md) && NotFunction !in MetadataErrors(md)
  {
    MessagesDistinct();
    if md.Some? {
      var d := md.value;
      var a, b, c, k := d.id == "", d.name == "", d.outputFormat == "", d.kind == "";
      forall x | x in {NoId, NoName, NoFormat, NoKind, NoMetadata, NoExport, NotFunction} {
        InOpts(x, a, b, c, k, NoId, NoName, NoFormat, NoKind);
      }
    }
  }

  /** The seven messages differ from one another. */
  lemma MessagesDistinct()
    ensures NoMetadata != NoId && NoMetadata != NoName && NoMetadata != NoFormat && NoMetadata != NoKind
    ensures NoExport != NoId && NoExport != NoName && NoExport != NoFormat && NoExport != NoKind && NoExport != NoMetadata
    ensures NotFunction != NoId && NotFunction != NoName && NotFunction != NoFormat && NotFunction != NoKind
    ensures NotFunction != NoMetadata && NotFunction != NoExport
    ensures NoId != NoName && NoId != NoFormat && NoId != NoKind && NoName != NoFormat && NoName != NoKind && NoFormat != NoKind
  {
    assert NoMetadata[7] == 'm' && NoExport[7] == 'e' && NotFunction[0] == 'e';
    assert NoId[0] == 'm' && NoId[14] == 'i' && NoName[14] == 'n' && NoFormat[14] == 'o' && NoKind[14] == 't';
  }

  /** `[m]` when `b` holds, else nothing: one conditional `errors.push(m)`. */
  function Opt(b: bool, m: string): seq<string> {
    if b then [m] else []
  }

  /** What four conditional pushes leave: one entry per condition that held, each its own message. */
  lemma InOpts(x: string, a: bool, b: bool, c: bool, d: bool, ma: string, mb: string, mc: string, md: string)
    ensures var r := Opt(a, ma) + Opt(b, mb) + Opt(c, mc) + Opt(d, md);
            && |r| == (if a then 1 else 0) + (if b then 1 else 0) + (if c then 1 else 0) + (if d then 1 else 0)
            && (x in r <==> (a && x == ma) || (b && x == mb) || (c && x == mc) || (d && x == md))
  {
  }

  /** The export messages are told apart from each other and from the metadata messages. */
  lemma ExportErrorsFacts(e: ExportSlot)
    ensures |ExportErrors(e)| == if e == Callable then 0 else 1
    ensures NoExport in ExportErrors(e) <==> e == Missing
    ensures NotFunction in ExportErrors(e) <==> e == NotCallable
    ensures forall x :: x in ExportErrors(e) ==> x !in {NoMetadata, NoId, NoName, NoFormat, NoKind}
  {
    assert NoMetadata[7] == 'm' && NoExport[7] == 'e' && NotFunction[0] == 'e';
    assert NoId[0] == 'm' && NoName[0] == 'm' && NoFormat[0] == 'm' && NoKind[0] == 'm';
  }

  /** A module passes when it has metadata with all four fields and a callable `export`. */
  predicate WellFormed(m: ModuleShape) {
    && m.metadata.Some?
    && m.metadata.value.id != "" && m.metadata.value.name != ""
    && m.metadata.value.outputFormat != "" && m.metadata.value.kind != ""
    && m.exportFn == Callable
  }

  function MetadataErrors(md: Option<Metadata>): seq<string> {
    match md
    case None => [NoMetadata]
    case Some(d) =>
      Opt(d.id == "", NoId) + Opt(d.name == "", NoName) + Opt(d.outputFormat == "", NoFormat) + Opt(d.kind == "", NoKind)
  }

  function ExportErrors(e: ExportSlot): seq<string> {
    match e
    case Missing => [NoExport]
    case NotCallable => [NotFunction]
    case Callable => []
  }

  /** The missing metadata fields, counted. */
  function MissingFields(d: Metadata): nat {
    (if d.id == "" then 1 else 0) + (if d.name == "" then 1 else 0)
    + (if d.outputFormat == "" then 1 else 0) + (if d.kind == "" then 1 else 0)
  }

  /**
    `validatePlugin`: the metadata errors, then the export error. The
    module is valid exactly when it is well formed; there are never warnings.
  */
  function Validate(m: ModuleShape): (v: Validation)
    ensures v.warnings == []
    ensures v.valid <==> v.errors == []
    ensures v.valid <==> WellFormed(m)
    ensures m.metadata.None? ==> v.errors[0] == NoMetadata && |v.errors| == 1 + (if m.exportFn == Callable then 0 else 1)
    ensures m.metadata.Some? ==> |v.errors| == MissingFields(m.metadata.value) + (if m.exportFn == Callable then 0 else 1)
    ensures m.metadata.Some? ==>
              && (NoId in v.errors <==> m.metadata.value.id == "")
              && (NoName in v.errors <==> m.metadata.value.name == "")
              && (NoFormat in v.errors <==> m.metadata.value.outputFormat == "")
              && (NoKind in v.errors <==> m.metadata.value.kind == "")
              && NoMetadata !in v.errors
    ensures NoExport in v.errors <==> m.exportFn == Missing
    ensures NotFunction in v.errors <==> m.exportFn == NotCallable
  {
    MetadataErrorsFacts(m.metadata);
    ExportErrorsFacts(m.exportFn);
    var errors := MetadataErrors(m.metadata) + ExportErrors(m.exportFn);
    Validation(errors == [], errors, [])
  }

  /** Load errors, keyed by plugin path or by plugin id. */
  type Errors = map<string, string>

  /**
    `loadPlugin`: `imported` is the outcome of the dynamic import, its error
    being the thrown error's message. A failed import or a module that does
    not validate records why under the path and gives nothing; a valid
    module clears the path's earlier error.
  */
  function Load(path: string, imported: Result<ModuleShape>, errors: Errors): (r: (Option<ModuleShape>, Errors))
    ensures r.0.Some? <==> imported.Ok? && WellFormed(imported.value)
    ensures r.0.Some? ==> r.0.value == imported.value && r.1 == errors - {path}
    ensures r.0.None? ==> path in r.1 && r.1 - {path} == errors - {path}
    ensures imported.Err? ==> r.1[path] == "加载插件失败：" + imported.error
    ensures imported.Ok? && !WellFormed(imported.value) ==> r.1[path] == "插件验证失败：\n" + Join(Validate(imported.value).errors, "\n")
  {
    match imported
    case Err(msg) => (None, errors[path := "加载插件失败：" + msg])
    case Ok(m) =>
      var v := Validate(m);
      if !v.valid then (None, errors[path := "插件验证失败：\n" + Join(v.errors, "\n")])
      else (Some(m), errors - {path})
  }

  /** A registered plugin: id, display name, file (`None` or empty when absent), and its module once loaded. */
  datatype Plugin = Plugin(id: string, name: string, path: Option<string>, loaded: bool, shape: Option<ModuleShape>)

  /** What calling a plugin's `export` does: return a string, return something else, or throw with a message. */
  datatype CallOutcome = Returns(code: string) | NonString | Throws(message: string)

  /** The result of `executePlugin` with the plugin and the error map as they are afterwards. */
  datatype Execution = Execution(result: Result<string>, plugin: Plugin, errors: Errors)

  /**
    The message of the `TypeError` thrown when `export` is present but not a
    function, in the wording of the V8 engine behind the Chromium web view.
  */
  const NotCallableMessage := "plugin.module.export is not a function"

  /** The call of an available `export` fails: it is not a function, or it throws or returns a non-string. */
  predicate CallFails(p: Plugin, call: CallOutcome)
    requires p.shape.Some?
  {
    p.shape.value.exportFn == NotCallable || !call.Returns?
  }

  /** The message a failed call is recorded and rethrown with. */
  function CallFailure(p: Plugin, call: CallOutcome): string
    requires p.shape.Some? && CallFails(p, call)
  {
    "执行插件失败：" +
      (if p.shape.value.exportFn == NotCallable then NotCallableMessage
       else if call.NonString? then "插件 " + p.name + " 的 export 函数必须返回字符串"
       else call.message)
  }

  /** Running an available module: a string result is returned; any failure of the call is recorded under the plugin id. */
  function Run(p: Plugin, call: CallOutcome, errors: Errors): (x: Execution)
    requires p.shape.Some?
  {
    if p.shape.value.exportFn == Missing then Execution(Err("插件 " + p.name + " 没有有效的导出函数"), p, errors)
    else if !CallFails(p, call) then Execution(Ok(call.code), p, errors)
    else
      var msg := CallFailure(p, call);
      Execution(Err(msg), p, errors[p.id := msg])
  }

  /**
    `executePlugin`. A plugin without a module is first loaded from its path
    (`imported` is that import's outcome); `call` is what its `export`
    function does with the context, a non-function `export` throwing.
  */
  function Execute(p: Plugin, imported: Result<ModuleShape>, call: CallOutcome, errors: Errors): (x: Execution)
    ensures p.shape.None? && (p.path.None? || p.path.value == "") ==>
              x == Execution(Err("插件 " + p.name + " 没有指定路径"), p, errors)
    ensures x.result.Ok? <==>
              && (p.shape.Some? || (p.path.Some? && p.path.value != "" && imported.Ok? && WellFormed(imported.value)))
              && x.plugin.shape.Some? && x.plugin.shape.value.exportFn == Callable && call.Returns?
    ensures x.result.Ok? ==> x.result.value == call.code
    ensures x.plugin.id == p.id && x.plugin.name == p.name && x.plugin.path == p.path
    ensures p.shape.Some? ==> x.plugin == p
    ensures x.plugin.shape.Some? ==> x.plugin.loaded || p.shape.Some?
    ensures x.plugin.shape.Some? && x.plugin.shape.value.exportFn == NotCallable ==>
              x.result == Err("执行插件失败：" + NotCallableMessage) && p.id in x.errors && x.errors[p.id] == "执行插件失败：" + NotCallableMessage
  {
    if p.shape.Some? then Run(p, call, errors)
    else if p.path.None? || p.path.value == "" then Execution(Err("插件 " + p.name + " 没有指定路径"), p, errors)
    else
      var (m, errs) := Load(p.path.value, imported, errors);
      if m.None? then Execution(Err("无法加载插件 " + p.name), p, errs)
      else Run(p.(shape := m, loaded := true), call, errs)
  }

  /**
    A failed call of an available `export`, including the `TypeError` of an
    `export` that is not a function, is recorded under the plugin id with the
    message it is rethrown with.
  */
  lemma FailureRecorded(p: Plugin, imported: Result<ModuleShape>, call: CallOutcome, errors: Errors)
    requires p.shape.Some? && p.shape.value.exportFn != Missing && CallFails(p, call)
    ensures var x := Execute(p, imported, call, errors);
            && x.result == Err(CallFailure(p, call))
            && x.errors == errors[p.id := CallFailure(p, call)]
  {
  }

  /**
    After a successful load the plugin keeps its module, so running it again
    imports nothing: a second run gives the same result whatever the import
    would have done, and leaves the error map alone.
  */
  lemma LoadedOnce(p: Plugin, imported: Result<ModuleShape>, other: Result<ModuleShape>, call: CallOutcome, errors: Errors)
    requires p.shape.None? && p.path.Some? && p.path.value != ""
    requires imported.Ok? && WellFormed(imported.value) && call.Returns?
    ensures var x := Execute(p, imported, call, errors);
            && x.result == Ok(call.code)
            && x.errors == errors - {p.path.value}
            && Execute(x.plugin, other, call, x.errors) == x
  {
  }

  // ---------------------------------------------------------------------
  // The plugin list.

  /** `findIndex` by id: the first entry with that id, or -1. */
  function IndexOfId(ps: seq<Plugin>, id: string): (k: int)
    ensures -1 <= k < |ps|
    ensures k >= 0 ==> ps[k].id == id && forall j :: 0 <= j < k ==> ps[j].id != id
    ensures k == -1 <==> forall j :: 0 <= j < |ps| ==> ps[j].id != id
  {
    if ps == [] then -1
    else if ps[0].id == id then 0
    else
      var k := IndexOfId(ps[1..], id);
      assert forall j :: 1 <= j < |ps| ==> ps[1..][j - 1] == ps[j];
      if k == -1 then -1 else k + 1
  }

  /** `getPluginById`: the first entry carrying the id. */
  function GetById(ps: seq<Plugin>, id: string): (r: Option<Plugin>)
    ensures r.None? <==> forall j :: 0 <= j < |ps| ==> ps[j].id != id
    ensures r.Some? ==> r.value in ps && r.value.id == id
    ensures r.Some? ==> exists k :: 0 <= k < |ps| && ps[k] == r.value && forall j :: 0 <= j < k ==> ps[j].id != id
  {
    var k := IndexOfId(ps, id);
    if k == -1 then None else Some(ps[k])
  }

  predicate UniqueIds(ps: seq<Plugin>) {
    forall i, j :: 0 <= i < j < |ps| ==> ps[i].id != ps[j].id
  }

  /** `addPlugin`: replace the first entry with the same id in place, or append. */
  function Add(ps: seq<Plugin>, p: Plugin): (r: seq<Plugin>)
    ensures (exists j :: 0 <= j < |ps| && ps[j].id == p.id) ==> |r| == |ps|
    ensures (forall j :: 0 <= j < |ps| ==> ps[j].id != p.id) ==> r == ps + [p]
    ensures IndexOfId(ps, p.id) >= 0 ==> r == ps[IndexOfId(ps, p.id) := p]
    ensures forall j :: 0 <= j < |ps| && j < |r| && r[j] != ps[j] ==> r[j] == p && ps[j].id == p.id
    ensures p in r
    ensures UniqueIds(ps) ==> UniqueIds(r)
  {
    var k := IndexOfId(ps, p.id);
    if k == -1 then ps + [p] else ps[k := p]
  }

  /** After adding, looking the id up finds the added plugin. */
  lemma AddThenGet(ps: seq<Plugin>, p: Plugin)
    ensures GetById(Add(ps, p), p.id) == Some(p)
  {
    var k := IndexOfId(ps, p.id);
    var r := Add(ps, p);
    if k == -1 {
      assert r[|ps|] == p;
    } else {
      assert r[k] == p;
    }
    var i := IndexOfId(r, p.id);
    assert i == if k == -1 then |ps| else k;
  }

  /** `removePlugin`: the list without its first entry of that id, the errors without that id, and whether it was found. */
  function Remove(ps: seq<Plugin>, errors: Errors, id: string): (r: (seq<Plugin>, Errors, bool))
    ensures r.2 <==> exists j :: 0 <= j < |ps| && ps[j].id == id
    ensures !r.2 ==> r.0 == ps && r.1 == errors
    ensures r.2 ==> r.1 == errors - {id}
    ensures r.2 ==> exists k :: 0 <= k < |ps| && ps[k].id == id && (forall j :: 0 <= j < k ==> ps[j].id != id) && r.0 == ps[..k] + ps[k + 1..]
  {
    var k := IndexOfId(ps, id);
    if k == -1 then (ps, errors, false)
    else (ps[..k] + ps[k + 1..], errors - {id}, true)
  }

  /** With unique ids, removing an id leaves no entry with it, and ids stay unique. */
  lemma RemoveLeavesNone(ps: seq<Plugin>, errors: Errors, id: string)
    requires UniqueIds(ps)
    ensures var r := Remove(ps, errors, id).0;
            UniqueIds(r) && forall j :: 0 <= j < |r| ==> r[j].id != id
  {
    var k := IndexOfId(ps, id);
    var r := Remove(ps, errors, id).0;
    if k != -1 {
      assert forall j :: 0 <= j < |r| ==> r[j] == if j < k then ps[j] else ps[j + 1];
    }
  }

  /** Adding a plugin under a new id and removing it again gives back the list. */
  lemma AddThenRemove(ps: seq<Plugin>, errors: Errors, p: Plugin)
    requires forall j :: 0 <= j < |ps| ==> ps[j].id != p.id
    ensures Remove(Add(ps, p), errors, p.id) == (ps, errors - {p.id}, true)
  {
    var r := ps + [p];
    assert IndexOfId(ps, p.id) == -1 && Add(ps, p) == r;
    assert r[|ps|] == p && forall j :: 0 <= j < |ps| ==> r[j] == ps[j];
    assert IndexOfId(r, p.id) == |ps|;
    assert r[..|ps|] == ps && r[|ps| + 1..] == [];
    assert r[..|ps|] + r[|ps| + 1..] == ps;
    assert Remove(r, errors, p.id) == (ps, errors - {p.id}, true);
  }
}
