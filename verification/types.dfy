/**
  The records the editor keeps: widgets, canvas settings, image resources and
  animations. Optional JavaScript properties are `Option`s; `None` means the
  property is absent from the object.
*/
module Types {
  import opened Wrappers

  /** One control on the canvas. `kind` is the source's `type` field. */
  datatype Widget = Widget(
    id: int,
    name: string,
    kind: string,
    parentId: Option<int>,
    x: real, y: real, w: real, h: real,
    enable: bool, visible: bool, locked: bool,
    text: Option<string>,
    font: Option<string>,
    fontSize: Option<real>,
    outlineSize: Option<real>,
    textAlign: Option<string>,
    image: Option<string>,
    clickImage: Option<string>,
    hoverImage: Option<string>,
    draggable: Option<bool>,
    checked: Option<bool>,
    selectedIndex: Option<int>,
    /** The transient `_previewAlpha` an alpha preview writes onto the widget. */
    previewAlpha: Option<real>)

  datatype Settings = Settings(
    canvasWidth: real,
    canvasHeight: real,
    rulerStep: real,
    gridSnapStep: real,
    autoSave: bool,
    controlPanelWidth: real,
    canvasBgColor: string,
    canvasBgImage: string)

  /** An image resource; `caption` is the source's `label` field. */
  datatype ImageResource = ImageResource(
    caption: string,
    value: string,
    localPath: Option<string>,
    previewUrl: Option<string>)

  /** The optional `params` object of an animation. */
  datatype AnimParams = AnimParams(toX: Option<real>, toY: Option<real>, tweenType: Option<int>)

  datatype Animation = Animation(
    id: int,
    widgetId: int,
    name: string,
    kind: string,
    duration: Option<real>,
    delay: Option<real>,
    loop: Option<bool>,
    params: Option<AnimParams>)

  /** The ids of a widget list. */
  function Ids(ws: seq<Widget>): set<int> {
    set w | w in ws :: w.id
  }

  /** No two widgets share an id. */
  predicate UniqueIds(ws: seq<Widget>) {
    forall i, j :: 0 <= i < j < |ws| ==> ws[i].id != ws[j].id
  }

  /** `Math.round`: the nearest integer, halves rounded up. */
  function Round(x: real): (r: int)
    ensures x - 1.0 / 2.0 < r as real <= x + 1.0 / 2.0
  {
    (x + 1.0 / 2.0).Floor
  }

  function Max(a: real, b: real): real {
    if a < b then b else a
  }

  function Min(a: real, b: real): real {
    if a < b then a else b
  }

  /** `Math.max(lo, Math.min(hi, v))`. */
  function Clamp(v: real, lo: real, hi: real): (r: real)
    requires lo <= hi
    ensures lo <= r <= hi
    ensures lo <= v <= hi ==> r == v
  {
    Max(lo, Min(hi, v))
  }

  /** JavaScript truthiness of a number (NaN is not modelled): `n || d`. */
  function OrNum(n: real, d: real): real {
    if n != 0.0 then n else d
  }
}
