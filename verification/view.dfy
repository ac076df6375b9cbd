/**
  The view arithmetic around the canvas: wheel zoom (`useCanvas`), the
  interface zoom (`useUiZoom`), the grid (`useGrid`), the rulers (`useRuler`)
  and the resizable side panels (`usePanelResize`).
*/
module CanvasView {
  /** The canvas zoom and pan; a fresh canvas shows scale 1 and no pan. */
  datatype View = View(scale: real, panX: real, panY: real)

  const Initial := View(1.0, 0.0, 0.0)
  const MinScale := 0.2
  const MaxScale := 3.0

  predicate InRange(v: View) {
    MinScale <= v.scale <= MaxScale
  }

  /** The factor of one wheel notch: down zooms out, anything else zooms in. */
  function Factor(deltaY: real): real {
    if deltaY > 0.0 then 0.9 else 1.1
  }

  /** `onCanvasWheel`: only with Ctrl or Meta held, scale by one notch and clamp to [0.2, 3]; the pan never changes. */
  function Wheel(v: View, ctrl: bool, meta: bool, deltaY: real): (r: View)
    ensures !(ctrl || meta) ==> r == v
    ensures ctrl || meta ==> InRange(r) && r.panX == v.panX && r.panY == v.panY
    ensures (ctrl || meta) && MinScale <= v.scale * Factor(deltaY) <= MaxScale ==> r.scale == v.scale * Factor(deltaY)
    ensures (ctrl || meta) && v.scale * Factor(deltaY) < MinScale ==> r.scale == MinScale
    ensures (ctrl || meta) && v.scale * Factor(deltaY) > MaxScale ==> r.scale == MaxScale
  {
    if ctrl || meta then
      var next := v.scale * Factor(deltaY);
      var next := if next < MinScale then MinScale else next;
      var next := if next > MaxScale then MaxScale else next;
      v.(scale := next)
    else v
  }

  /**
    The scale starts in range and no wheel event leaves it; within range,
    zooming in never shrinks and zooming out never grows the scale.
  */
  lemma WheelMonotone(v: View, ctrl: bool, meta: bool, deltaY: real)
    requires InRange(v)
    ensures InRange(Initial)
    ensures InRange(Wheel(v, ctrl, meta, deltaY))
    ensures deltaY > 0.0 ==> Wheel(v, ctrl, meta, deltaY).scale <= v.scale
    ensures deltaY <= 0.0 ==> Wheel(v, ctrl, meta, deltaY).scale >= v.scale
  {
  }
}

module UiZoom {
  import opened Wrappers

  /** A JavaScript number, finite or NaN. */
  datatype JsNumber = NaN | Finite(value: real)

  const MinZoom := 0.5
  const MaxZoom := 2.0

  /** `Math.max(0.5, Math.min(2, z || 1))`: a zero or NaN zoom counts as 1. */
  function Clamped(z: JsNumber): (r: real)
    ensures MinZoom <= r <= MaxZoom
    ensures z == NaN || z == Finite(0.0) ==> r == 1.0
    ensures z.Finite? && MinZoom <= z.value <= MaxZoom ==> r == z.value
    ensures z.Finite? && z.value != 0.0 && z.value < MinZoom ==> r == MinZoom
    ensures z.Finite? && z.value > MaxZoom ==> r == MaxZoom
  {
    var v := if z.NaN? || z.value == 0.0 then 1.0 else z.value;
    if v > MaxZoom then MaxZoom else if v < MinZoom then MinZoom else v
  }

  /** `applyUiZoom`: clamping an already clamped zoom changes nothing. */
  lemma ClampIdempotent(z: JsNumber)
    ensures Clamped(Finite(Clamped(z))) == Clamped(z)
  {
  }

  /**
    `loadUiZoom`: with the stored text `raw` and `parsed` = `parseFloat(raw)`,
    a missing or empty entry, NaN or a value that is not positive leaves the
    zoom as it is; any other value is taken and clamped.
  */
  function Load(zoom: real, raw: Option<string>, parsed: JsNumber): (r: real)
    ensures raw.None? || raw == Some("") || parsed.NaN? || parsed.value <= 0.0 ==> r == zoom
    ensures raw.Some? && raw.value != "" && parsed.Finite? && parsed.value > 0.0 ==> r == Clamped(parsed) && MinZoom <= r <= MaxZoom
  {
    if raw.None? || raw.value == "" then zoom
    else if parsed.Finite? && parsed.value > 0.0 then Clamped(parsed)
    else zoom
  }
}

module Grid {
  import opened Wrappers

  /** `gridStep`: modes 1, 2 and 3 are 128, 64 and 32 pixels; any other mode uses the snap step from the settings. */
  function Step(mode: int, gridSnapStep: real): (r: real)
    ensures mode == 1 ==> r == 128.0
    ensures mode == 2 ==> r == 64.0
    ensures mode == 3 ==> r == 32.0
    ensures !(1 <= mode <= 3) ==> r == gridSnapStep
  {
    if mode == 1 then 128.0 else if mode == 2 then 64.0 else if mode == 3 then 32.0 else gridSnapStep
  }

  /** `Math.floor(size / step) + 1` as an array length: negative counts give no ticks. */
  function Count(size: real, step: real): nat
    requires step != 0.0
  {
    var n := (size / step).Floor + 1;
    if n < 0 then 0 else n
  }

  /**
    `gridXTicks`/`gridYTicks` over a canvas side of `size`: none while the grid
    is off (mode 0), otherwise `i * step` for `i` from 0 to
    `floor(size / step)`. A zero step gives `Infinity` as the length when the
    size is positive, which JavaScript rejects with a RangeError (`Err`), and
    NaN or `-Infinity` otherwise, which count as no ticks.
  */
  function Ticks(mode: int, gridSnapStep: real, size: real): (r: Result<seq<real>>)
    ensures mode == 0 ==> r == Ok([])
    ensures r.Err? <==> mode != 0 && Step(mode, gridSnapStep) == 0.0 && size > 0.0
    ensures r.Ok? && mode != 0 && Step(mode, gridSnapStep) != 0.0 ==>
      forall i :: 0 <= i < |r.value| ==> r.value[i] == i as real * Step(mode, gridSnapStep)
  {
    var step := Step(mode, gridSnapStep);
    if mode == 0 then Ok([])
    else if step == 0.0 then (if size > 0.0 then Err("RangeError: Invalid array length") else Ok([]))
    else Ok(seq(Count(size, step), i => i as real * step))
  }

  /**
    With a positive step the ticks cover the canvas side exactly: the first is
    0, every tick is at most `size`, and one more step would pass it.
  */
  lemma TicksCover(mode: int, gridSnapStep: real, size: real)
    requires mode != 0 && Step(mode, gridSnapStep) > 0.0 && size >= 0.0
    ensures var t := Ticks(mode, gridSnapStep, size).value;
            var step := Step(mode, gridSnapStep);
            && |t| >= 1 && t[0] == 0.0
            && (forall i :: 0 <= i < |t| ==> t[i] <= size)
            && t[|t| - 1] + step > size
  {
    var step := Step(mode, gridSnapStep);
    var t := Ticks(mode, gridSnapStep, size).value;
    var n := (size / step).Floor;
    FloorBetween(size, step, n);
    assert |t| == n + 1;
    forall i | 0 <= i < |t| ensures t[i] <= size {
      assert t[i] == i as real * step && i <= n;
      MulLe(i as real, n as real, step);
    }
    assert t[n] + step == (n + 1) as real * step;
  }

  /** `floor(size / step)` steps stay within `size`, one more passes it. */
  lemma FloorBetween(size: real, step: real, n: int)
    requires step > 0.0 && size >= 0.0 && n == (size / step).Floor
    ensures n >= 0 && n as real * step <= size < (n + 1) as real * step
  {
    var q := size / step;
    assert q * step == size;
    var u := (n + 1) as real;
    assert n as real <= q < u;
    MulLe(n as real, q, step);
    MulLt(q, u, step);
    assert size < u * step;
  }

  lemma MulLe(a: real, b: real, c: real)
    requires a <= b && c > 0.0
    ensures a * c <= b * c
  {
  }

  lemma MulLt(a: real, b: real, c: real)
    requires a < b && c > 0.0
    ensures a * c < b * c
  {
  }

  /** `toggleGridSnap`: toggling twice gives the setting back. */
  function ToggleSnap(enabled: bool): (r: bool)
    ensures r != enabled
  {
    !enabled
  }
}

module Ruler {
  import opened Wrappers

  /** `rulerStep || 50`. */
  function StepOf(rulerStep: real): real {
    if rulerStep != 0.0 then rulerStep else 50.0
  }

  function Ceil(x: real): int {
    -((-x).Floor)
  }

  /** The index `k` of the first tick `k * step` and of the last, before the extra step on each side. */
  function Bounds(width: real, margin: real, scale: real, pan: real, step: real): (int, int)
    requires scale != 0.0 && step != 0.0
  {
    var start := -pan / scale;
    var end := (width - margin - pan) / scale;
    ((start / step).Floor, Ceil(end / step))
  }

  /**
    The tick loop `for (x = startTick; x <= endTick; x += step)` with
    `startTick = (a - 1) * step` and `endTick = (b + 1) * step`. With a positive
    step the loop pushes `(a - 1 + k) * step` for every `k` up to `b - a + 2`.
    With a negative step it is empty when it starts past the end and never
    ends otherwise (`None`).
  */
  method TickLoop(a: int, b: int, step: real) returns (r: Option<seq<real>>)
    requires step != 0.0
    ensures step > 0.0 ==> r.Some? && |r.value| == (if b - a + 3 < 0 then 0 else b - a + 3)
    ensures step > 0.0 ==> forall k :: 0 <= k < |r.value| ==> r.value[k] == (a - 1 + k) as real * step
    ensures step < 0.0 ==> (r.None? <==> (a - 1) as real * step <= (b + 1) as real * step)
    ensures step < 0.0 && r.Some? ==> r.value == []
  {
    var startTick := (a - 1) as real * step;
    var endTick := (b + 1) as real * step;
    if step < 0.0 {
      if startTick <= endTick {
        return None;
      }
      return Some([]);
    }
    var ticks: seq<real> := [];
    var k := 0;
    var x := startTick;
    TickGuard(a, b, k, step, x, endTick);
    while x <= endTick
      invariant 0 <= k && x == Tick(a, k, step)
      invariant |ticks| == k
      invariant forall i :: 0 <= i < k ==> ticks[i] == Tick(a, i, step)
      invariant k <= (if b - a + 3 < 0 then 0 else b - a + 3)
      invariant x <= endTick <==> k < b - a + 3
      decreases b - a + 3 - k
    {
      ticks := ticks + [x];
      TickNext(a, k, step);
      k := k + 1;
      x := x + step;
      TickGuard(a, b, k, step, x, endTick);
    }
    return Some(ticks);
  }

  /** The tick with index `i` past `a - 1`. */
  function Tick(a: int, i: int, step: real): real {
    (a - 1 + i) as real * step
  }

  lemma TickNext(a: int, i: int, step: real)
    ensures Tick(a, i, step) + step == Tick(a, i + 1, step)
  {
    var n := (a - 1 + i) as real;
    assert (a - 1 + (i + 1)) as real == n + 1.0;
    assert (n + 1.0) * step == n * step + step;
  }

  /** The loop goes on exactly while the tick index has not passed `b + 1`. */
  lemma TickGuard(a: int, b: int, k: int, step: real, x: real, endTick: real)
    requires step > 0.0 && x == Tick(a, k, step) && endTick == (b + 1) as real * step
    ensures x <= endTick <==> k < b - a + 3
  {
    assert x == (a - 1 + k) as real * step;
    StepMonotone(a - 1 + k, b + 1, step);
  }

  lemma StepMonotone(i: int, j: int, step: real)
    requires step > 0.0
    ensures i <= j <==> i as real * step <= j as real * step
  {
    if i <= j {
      assert (j - i) as real * step >= 0.0;
    } else {
      assert (i - j) as real * step > 0.0;
    }
  }

  /**
    `rulerXTicks` (margin 26, over the canvas width) and `rulerYTicks` (margin
    20, over the height): no ticks while the canvas size is missing or zero or
    the scale is 0; otherwise the tick loop from one step before the first
    visible multiple of the step to one step after the last.
  */
  method Ticks(size: Option<real>, margin: real, scale: real, pan: real, rulerStep: real) returns (r: Option<seq<real>>)
    ensures size.None? || size.value == 0.0 || scale == 0.0 ==> r == Some([])
    ensures size.Some? && size.value != 0.0 && scale != 0.0 && StepOf(rulerStep) > 0.0 ==>
      var step := StepOf(rulerStep);
      var (a, b) := Bounds(size.value, margin, scale, pan, step);
      && r.Some?
      && (forall k :: 0 <= k < |r.value| ==> r.value[k] == (a - 1 + k) as real * step)
      && |r.value| == (if b - a + 3 < 0 then 0 else b - a + 3)
  {
    if size.None? || size.value == 0.0 || scale == 0.0 {
      return Some([]);
    }
    var step := StepOf(rulerStep);
    var (a, b) := Bounds(size.value, margin, scale, pan, step);
    r := TickLoop(a, b, step);
  }

  /**
    With a positive step the ticks are consecutive multiples of the step,
    and they reach at least one step past each end of the visible range.
  */
  lemma TicksCover(width: real, margin: real, scale: real, pan: real, step: real)
    requires scale != 0.0 && step > 0.0
    ensures var (a, b) := Bounds(width, margin, scale, pan, step);
            var start := -pan / scale;
            var end := (width - margin - pan) / scale;
            && (a - 1) as real * step <= start - step
            && (b + 1) as real * step >= end + step
  {
    var start := -pan / scale;
    var end := (width - margin - pan) / scale;
    var (a, b) := Bounds(width, margin, scale, pan, step);
    var qa := start / step;
    var qb := end / step;
    assert qa * step == start && qb * step == end;
    assert a as real <= qa;
    assert (a as real) * step <= qa * step;
    assert b as real >= qb;
    assert (b as real) * step >= qb * step;
  }
}

module PanelResize {
  /** Which divider is being dragged; `NoDrag` is the source's `type: null`. */
  datatype DragKind = NoDrag | LeftPanel | RightPanel | BottomPanel

  /** The drag state captured when a divider is grabbed. */
  datatype DragState = DragState(kind: DragKind, startX: real, startY: real, leftWidth: real, rightWidth: real, resourcesHeight: real)

  /** The panel sizes; `controlPanelWidth` is the copy kept in the settings. */
  datatype Panels = Panels(leftWidth: real, rightWidth: real, resourcesHeight: real, controlPanelWidth: real)

  const MinLeft := 140.0
  const MaxLeft := 500.0
  const MinRight := 180.0
  const MaxRight := 500.0
  const MinBottom := 120.0
  const MaxBottom := 400.0

  /** `Math.min(hi, Math.max(lo, v))`. */
  function Clamp(v: real, lo: real, hi: real): (r: real)
    requires lo <= hi
    ensures lo <= r <= hi
    ensures lo <= v <= hi ==> r == v
  {
    if v < lo then lo else if v > hi then hi else v
  }

  /** The sizes on start-up: the left panel from the settings (220 when unset or 0), 260 and 200 for the others. */
  function Initial(controlPanelWidth: real): (p: Panels)
    ensures p.leftWidth == (if controlPanelWidth != 0.0 then controlPanelWidth else 220.0)
    ensures p.rightWidth == 260.0 && p.resourcesHeight == 200.0 && p.controlPanelWidth == controlPanelWidth
  {
    Panels(if controlPanelWidth != 0.0 then controlPanelWidth else 220.0, 260.0, 200.0, controlPanelWidth)
  }

  /** `startDragLeft`/`startDragRight`/`startDragBottom`: remember the pointer and all three sizes. */
  function Grab(p: Panels, kind: DragKind, x: real, y: real): DragState {
    DragState(kind, x, y, p.leftWidth, p.rightWidth, p.resourcesHeight)
  }

  /**
    `handleDragMouseMove`: nothing without a drag; the left panel follows the
    pointer (and is copied into the settings), the right panel and the bottom
    panel grow as the pointer moves left or up; each is clamped to its range
    and the other sizes stay.
  */
  function Move(p: Panels, s: DragState, x: real, y: real): (r: Panels)
    ensures s.kind == NoDrag ==> r == p
    ensures s.kind == LeftPanel ==>
      r == p.(leftWidth := r.leftWidth, controlPanelWidth := r.leftWidth) && MinLeft <= r.leftWidth <= MaxLeft
    ensures s.kind == RightPanel ==> r == p.(rightWidth := r.rightWidth) && MinRight <= r.rightWidth <= MaxRight
    ensures s.kind == BottomPanel ==> r == p.(resourcesHeight := r.resourcesHeight) && MinBottom <= r.resourcesHeight <= MaxBottom
  {
    var dx := x - s.startX;
    var dy := y - s.startY;
    match s.kind
    case NoDrag => p
    case LeftPanel =>
      var w := Clamp(s.leftWidth + dx, MinLeft, MaxLeft);
      p.(leftWidth := w, controlPanelWidth := w)
    case RightPanel => p.(rightWidth := Clamp(s.rightWidth - dx, MinRight, MaxRight))
    case BottomPanel => p.(resourcesHeight := Clamp(s.resourcesHeight - dy, MinBottom, MaxBottom))
  }

  /** `stopDrag`: the drag ends; later moves change nothing. Saving the settings is host I/O. */
  function StopDrag(s: DragState): (r: DragState)
    ensures forall p, x, y :: Move(p, r, x, y) == p
    ensures r.(kind := s.kind) == s
  {
    s.(kind := NoDrag)
  }

  /**
    A drag depends only on where it started and where the pointer is now:
    the latest move decides, and moving back to the grab point gives the
    grabbed size back when it was within range.
  */
  lemma MoveLatestWins(p: Panels, kind: DragKind, gx: real, gy: real, x1: real, y1: real, x2: real, y2: real)
    ensures var s := Grab(p, kind, gx, gy);
            Move(Move(p, s, x1, y1), s, x2, y2) == Move(p, s, x2, y2)
    ensures var s := Grab(p, kind, gx, gy);
            && (MinLeft <= p.leftWidth <= MaxLeft ==> Move(p, s, gx, gy).leftWidth == p.leftWidth)
            && (MinRight <= p.rightWidth <= MaxRight ==> Move(p, s, gx, gy).rightWidth == p.rightWidth)
            && (MinBottom <= p.resourcesHeight <= MaxBottom ==> Move(p, s, gx, gy).resourcesHeight == p.resourcesHeight)
  {
  }
}
