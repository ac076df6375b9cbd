/**
  The in-editor animation preview of `useAnimations`: a preview saves the
  geometry and preview alpha of the animated widget and its descendants,
  writes one frame per display refresh, and puts the saved values back when
  it finishes or is stopped. At most one preview is remembered: starting a
  new one first stops the remembered one.

  The display refresh callback and the clock become explicit `Step` calls
  with a time stamp. A widget object is identified by its id: the object the
  source holds a reference to is the first widget with that id.
*/
module AnimationPreview {
  import opened Wrappers
  import opened Types
  import opened Forest
  import opened WidgetStore
  import opened Animations
  import opened Easing

  /** `PREVIEW_FPS`: frames (the unit of `duration` and `delay`) are turned into milliseconds at this rate. */
  const PreviewFps := 60.0
  const FrameMs := 1000.0 / PreviewFps

  /** The default distance of a move and the default growth of a scale. */
  const Distance := 40.0

  /** One entry of `originalState`. */
  datatype Saved = Saved(x: real, y: real, w: real, h: real, alpha: real)

  /** A widget's saved state; a widget without a preview alpha counts as fully opaque. */
  function Save(w: Widget): (s: Saved)
    ensures s.x == w.x && s.y == w.y && s.w == w.w && s.h == w.h
    ensures w.previewAlpha.None? ==> s.alpha == 1.0
  {
    Saved(w.x, w.y, w.w, w.h, w.previewAlpha.GetOr(1.0))
  }

  /** Put a saved state back onto a widget. */
  function Reset(w: Widget, s: Saved): (r: Widget)
    ensures Save(r) == s
    ensures r.(x := w.x, y := w.y, w := w.w, h := w.h, previewAlpha := w.previewAlpha) == w
  {
    w.(x := s.x, y := s.y, w := s.w, h := s.h, previewAlpha := Some(s.alpha))
  }

  /** The widget at `j` is the object the preview holds for one of the saved ids. */
  predicate Leads(ws: seq<Widget>, j: nat, orig: map<int, Saved>)
    requires j < |ws|
  {
    ws[j].id in orig && IndexOf(ws, ws[j].id) == j
  }

  /** The ids `collect(rootWidget.id)` gathers: the root and, recursively, every child found by id. */
  function AffectedIds(ws: seq<Widget>, rootId: int): set<int> {
    var v := MoveVisits(ws, rootId);
    set t | 0 <= t < |v| :: ws[v[t]].id
  }

  /** `originalState`: the saved state of each affected widget, under its id. */
  function OrigOf(ws: seq<Widget>, rootId: int): (orig: map<int, Saved>)
    ensures forall id :: id in orig ==> id in AffectedIds(ws, rootId)
  {
    map id | id in AffectedIds(ws, rootId) && IndexOf(ws, id) >= 0 :: Save(ws[IndexOf(ws, id)])
  }

  /** Only the affected widgets' geometry and preview alpha differ between `a` and `b`. */
  predicate Touches(a: seq<Widget>, b: seq<Widget>, orig: map<int, Saved>) {
    && |a| == |b|
    && forall j :: 0 <= j < |a| ==>
         b[j] == if Leads(a, j, orig) then a[j].(x := b[j].x, y := b[j].y, w := b[j].w, h := b[j].h, previewAlpha := b[j].previewAlpha) else a[j]
  }

  /** Restore every affected widget to its saved state (the body of `stopFn` and of the last frame). */
  function Restore(ws: seq<Widget>, orig: map<int, Saved>): (r: seq<Widget>)
    ensures Touches(ws, r, orig)
    ensures forall j :: 0 <= j < |ws| && Leads(ws, j, orig) ==> Save(r[j]) == orig[ws[j].id]
  {
    seq(|ws|, j requires 0 <= j < |ws| => if Leads(ws, j, orig) then Reset(ws[j], orig[ws[j].id]) else ws[j])
  }

  /** One started preview: what `step` and `stopFn` close over. */
  datatype Run = Run(
    rootId: int,
    kind: string,
    params: AnimParams,
    tweenType: int,
    orig: map<int, Saved>,
    start: Saved,
    startTime: real,
    durationMs: real)

  /** The root is among the saved widgets and the duration is positive. */
  predicate RunWf(run: Run) {
    run.rootId in run.orig && run.durationMs > 0.0
  }

  /**
    The editor side of the preview: the widget list, `currentPreviewStop` (the
    run whose stop function is remembered), and whether that run's frame loop
    is still going.
  */
  datatype Player = Player(ws: seq<Widget>, handle: Option<Run>, playing: bool)

  /** A frame loop only runs for the remembered preview. */
  predicate PlayerWf(p: Player) {
    (p.playing ==> p.handle.Some?) && (p.handle.Some? ==> RunWf(p.handle.value))
  }

  /** A stop function is remembered exactly while its preview plays. */
  predicate Settled(p: Player) {
    p.handle.Some? <==> p.playing
  }

  /** The widgets after a frame written with eased progress `e`. */
  function Frame(ws: seq<Widget>, run: Run, e: real): (r: seq<Widget>)
    requires RunWf(run)
    ensures Touches(ws, r, run.orig)
  {
    var r := IndexOf(ws, run.rootId);
    if run.kind == "move" then
      var dx := run.params.toX.GetOr(run.start.x + Distance) - run.start.x;
      var dy := run.params.toY.GetOr(run.start.y) - run.start.y;
      seq(|ws|, j requires 0 <= j < |ws| =>
        if Leads(ws, j, run.orig) then ws[j].(x := run.orig[ws[j].id].x + dx * e, y := run.orig[ws[j].id].y + dy * e) else ws[j])
    else if r < 0 then ws
    else if run.kind == "scale" then
      ws[r := ws[r].(w := run.start.w + Distance * e, h := run.start.h + Distance * e)]
    else if run.kind == "alpha" then
      ws[r := ws[r].(previewAlpha := Some(run.start.alpha * (1.0 - 0.5 * e)))]
    else ws
  }

  /**
    A move frame keeps the affected widgets' layout relative to the root:
    each is as far from the root as when the preview started. At no progress
    they stand where they were saved; at full progress the root stands on the
    target, which defaults to 40 to the right of where it started.
  */
  lemma MoveFrameKeepsLayout(ws: seq<Widget>, run: Run, e: real, i: nat, j: nat)
    requires RunWf(run) && run.kind == "move" && run.start == run.orig[run.rootId]
    requires i < |ws| && j < |ws| && ws[i].id == run.rootId && Leads(ws, i, run.orig) && Leads(ws, j, run.orig)
    ensures var r := Frame(ws, run, e);
            && r[j].x - r[i].x == run.orig[ws[j].id].x - run.orig[ws[i].id].x
            && r[j].y - r[i].y == run.orig[ws[j].id].y - run.orig[ws[i].id].y
            && (e == 0.0 ==> r[j].x == run.orig[ws[j].id].x && r[j].y == run.orig[ws[j].id].y)
            && (e == 1.0 ==> r[i].x == run.params.toX.GetOr(run.start.x + Distance) && r[i].y == run.params.toY.GetOr(run.start.y))
  {
  }

  /** `Math.min(1, (now - startTime) / durationMs)`. */
  function Progress(run: Run, now: real): real
    requires run.durationMs > 0.0
  {
    Min(1.0, (now - run.startTime) / run.durationMs)
  }

  /** Once the delay is over the progress lies in [0, 1], and it is 1 exactly when the duration has elapsed. */
  lemma ProgressBounds(run: Run, now: real)
    requires run.durationMs > 0.0 && now >= run.startTime
    ensures 0.0 <= Progress(run, now) <= 1.0
    ensures Progress(run, now) == 1.0 <==> now - run.startTime >= run.durationMs
  {
    var q := (now - run.startTime) / run.durationMs;
    assert q >= 1.0 <==> now - run.startTime >= run.durationMs by {
      assert q * run.durationMs == now - run.startTime;
    }
  }

  /** `stopFn` for the remembered preview, then `currentPreviewStop = null`; nothing when none is remembered. */
  function Stop(p: Player): (r: Player)
    ensures r.handle.None? && !r.playing
    ensures p.handle.None? ==> r.ws == p.ws
    ensures p.handle.Some? ==> Touches(p.ws, r.ws, p.handle.value.orig)
  {
    match p.handle
    case None => Player(p.ws, None, false)
    case Some(run) => Player(Restore(p.ws, run.orig), None, false)
  }

  /** Stopping changes geometry and alpha only, so the widget ids stay as they were. */
  lemma StopKeepsIds(p: Player)
    ensures Ids(Stop(p).ws) == Ids(p.ws)
  {
    if p.handle.Some? {
      assert SameLinks(p.ws, Stop(p).ws);
      SameLinksKeep(p.ws, Stop(p).ws);
    }
  }

  /**
    The run `previewAnimation` sets up for `anim` on the widgets `ws`: the
    duration (at least one frame, a missing or zero duration counting as one)
    and the delay (never negative) in milliseconds, the type defaulting to a
    move, and the tween type defaulting to linear.
  */
  function StartRun(ws: seq<Widget>, anim: Animation, now: real): (run: Run)
    requires anim.widgetId in Ids(ws)
    ensures RunWf(run) && run.rootId == anim.widgetId && run.orig == OrigOf(ws, anim.widgetId)
    ensures run.start == run.orig[run.rootId]
    ensures run.durationMs >= FrameMs && run.startTime >= now
  {
    RootAffected(ws, anim.widgetId);
    var frames := Max(1.0, OrNum(anim.duration.GetOr(0.0), 1.0));
    var delayFrames := Max(0.0, OrNum(anim.delay.GetOr(0.0), 0.0));
    RunFrom(anim, OrigOf(ws, anim.widgetId), now, frames, delayFrames)
  }

  /** The run for `anim` once its saved states and its frame counts are known. */
  function RunFrom(anim: Animation, orig: map<int, Saved>, now: real, frames: real, delayFrames: real): (run: Run)
    requires anim.widgetId in orig && frames >= 1.0 && delayFrames >= 0.0
    ensures RunWf(run) && run.rootId == anim.widgetId && run.orig == orig && run.start == orig[anim.widgetId]
    ensures run.durationMs >= FrameMs && run.startTime >= now
  {
    FramesToMs(frames, delayFrames);
    var kind := if anim.kind == "" then "move" else anim.kind;
    var params := anim.params.GetOr(AnimParams(None, None, None));
    Run(anim.widgetId, kind, params, params.tweenType.GetOr(0), orig, orig[anim.widgetId], now + delayFrames * FrameMs, frames * FrameMs)
  }

  /**
    `previewAnimation(id)` at time `now`: stop the remembered preview, then
    start one for the first animation with this id on the first widget with
    its widget id. An unknown animation or widget leaves the player stopped.
  */
  function Preview(p: Player, anims: seq<Animation>, id: int, now: real): (r: Player)
    ensures r.ws == Stop(p).ws
    ensures Settled(r) && PlayerWf(r)
    ensures r.handle.Some? ==> r.handle.value.orig == OrigOf(r.ws, r.handle.value.rootId)
    ensures r.handle.Some? <==> AnimIndex(anims, id) >= 0 && anims[AnimIndex(anims, id)].widgetId in Ids(p.ws)
  {
    var ws := Stop(p).ws;
    StopKeepsIds(p);
    var i := AnimIndex(anims, id);
    if i < 0 || anims[i].widgetId !in Ids(ws) then Player(ws, None, false)
    else Player(ws, Some(StartRun(ws, anims[i], now)), true)
  }

  lemma FramesToMs(frames: real, delayFrames: real)
    requires frames >= 1.0 && delayFrames >= 0.0
    ensures frames * FrameMs >= FrameMs > 0.0 && delayFrames * FrameMs >= 0.0
  {
  }

  /** The root itself is always saved when it exists. */
  lemma RootAffected(ws: seq<Widget>, rootId: int)
    requires rootId in Ids(ws)
    ensures rootId in OrigOf(ws, rootId)
  {
    var v := MoveVisits(ws, rootId);
    assert Find(ws, rootId).Some?;
    assert ws[v[0]].id == rootId;
  }

  /**
    One call of `step(now)` as written: before the start time it waits; then
    it writes a frame, and at full progress it restores the saved state and
    ends its loop. The remembered stop function stays in place.
  */
  function StepAsWritten(p: Player, now: real, m: HostMath): (r: Player)
    requires PlayerWf(p)
    ensures r.handle == p.handle
    ensures PlayerWf(r)
  {
    if !p.playing || now < p.handle.value.startTime then p
    else
      var run := p.handle.value;
      var t := Progress(run, now);
      var ws := Frame(p.ws, run, Ease(t, run.tweenType, m));
      if t < 1.0 then Player(ws, p.handle, true)
      else Player(Restore(ws, run.orig), p.handle, false)
  }

  /** `step(now)` with the stop function forgotten once the preview has finished. */
  function Step(p: Player, now: real, m: HostMath): (r: Player)
    requires PlayerWf(p)
    ensures PlayerWf(r)
    ensures Settled(p) ==> Settled(r)
    ensures r.ws == StepAsWritten(p, now, m).ws
  {
    var q := StepAsWritten(p, now, m);
    if p.playing && !q.playing then q.(handle := None) else q
  }

  /** Restoring forgets every change a frame or a restore made to the affected widgets. */
  lemma {:induction false} RestoreAfterTouches(a: seq<Widget>, b: seq<Widget>, orig: map<int, Saved>)
    requires Touches(a, b, orig)
    ensures Restore(b, orig) == Restore(a, orig)
  {
    assert SameLinks(a, b);
    forall j | 0 <= j < |a| ensures Leads(b, j, orig) == Leads(a, j, orig) {
      IndexOfSameLinks(a, b, a[j].id);
    }
  }

  lemma TouchesTrans(a: seq<Widget>, b: seq<Widget>, c: seq<Widget>, orig: map<int, Saved>)
    requires Touches(a, b, orig) && Touches(b, c, orig)
    ensures Touches(a, c, orig)
  {
    assert SameLinks(a, b);
    forall j | 0 <= j < |a| ensures Leads(b, j, orig) == Leads(a, j, orig) {
      IndexOfSameLinks(a, b, a[j].id);
    }
  }

  /**
    While a preview plays from `base`, only the affected widgets' geometry and
    alpha differ from `base`; the step that finishes it (the corrected one,
    which also forgets the stop function) leaves exactly `Restore(base)`.
  */
  lemma StepFromBase(p: Player, base: seq<Widget>, now: real, m: HostMath)
    requires PlayerWf(p) && p.playing && Touches(base, p.ws, p.handle.value.orig)
    ensures var r := Step(p, now, m);
            if r.playing then r.handle == p.handle && Touches(base, r.ws, p.handle.value.orig)
            else r.handle.None? && r.ws == Restore(base, p.handle.value.orig)
  {
    var run := p.handle.value;
    if now >= run.startTime {
      var ws := Frame(p.ws, run, Ease(Progress(run, now), run.tweenType, m));
      TouchesTrans(base, p.ws, ws, run.orig);
      RestoreAfterTouches(base, ws, run.orig);
    }
  }

  /**
    Restoring the state a preview saved gives back the widgets as they were
    when it started, except that an affected widget without a preview alpha
    now carries alpha 1.
  */
  lemma RestoreSettles(ws: seq<Widget>, rootId: int)
    ensures var r := Restore(ws, OrigOf(ws, rootId));
            forall j :: 0 <= j < |ws| ==>
              r[j] == if Leads(ws, j, OrigOf(ws, rootId)) then ws[j].(previewAlpha := Some(ws[j].previewAlpha.GetOr(1.0))) else ws[j]
  {
  }

  /**
    Under the corrected step, a playing preview stepped at or after its end
    time puts back exactly what it saved when it started (see
    `RestoreSettles`), and nothing remains to be stopped.
  */
  lemma FinishRestores(q: Player, now: real, m: HostMath)
    requires PlayerWf(q) && q.playing
    requires now >= q.handle.value.startTime + q.handle.value.durationMs
    ensures var r := Step(q, now, m);
            !r.playing && r.handle.None? && r.ws == Restore(q.ws, q.handle.value.orig)
  {
    ProgressBounds(q.handle.value, now);
    StepFromBase(q, q.ws, now, m);
  }

  lemma {:induction false} OccurrencesIn(s: seq<nat>, j: nat)
    ensures Occurrences(s, j) > 0 <==> j in s
  {
    if s != [] {
      OccurrencesIn(s[1..], j);
      assert s == [s[0]] + s[1..];
    }
  }

  /**
    With unique ids and acyclic parent links the preview saves, and so later
    restores, exactly the animated widget and its descendants.
  */
  lemma AffectedExactly(ws: seq<Widget>, rootId: int, j: nat)
    requires UniqueIds(ws) && Acyclic(ws) && rootId in Ids(ws) && j < |ws|
    ensures Leads(ws, j, OrigOf(ws, rootId)) <==> InSubtree(ws, ws[j].id, rootId)
  {
    var v := MoveVisits(ws, rootId);
    IndexOfUnique(ws, j);
    assert Find(ws, rootId).Some?;
    MoveVisitsCount(ws, rootId, j);
    OccurrencesIn(v, j);
    if j in v {
      var t :| 0 <= t < |v| && v[t] == j;
      assert ws[j].id in AffectedIds(ws, rootId);
    }
    if ws[j].id in AffectedIds(ws, rootId) {
      var t :| 0 <= t < |v| && ws[v[t]].id == ws[j].id;
      IndexOfUnique(ws, v[t]);
      assert v[t] == j;
    }
  }

  /** With the corrected step, a stopped player has nothing to undo: previewing an unknown animation changes no widget. */
  lemma IdlePreviewKeeps(p: Player, anims: seq<Animation>, id: int, now: real)
    requires p.handle.None? && AnimIndex(anims, id) < 0
    ensures Preview(p, anims, id, now) == Player(p.ws, None, false)
  {
  }

  /** A one-widget scene and a move animation for it. */
  function Scene(): seq<Widget> {
    [Widget(1, "w", "button", None, 0.0, 0.0, 10.0, 10.0, true, true, false,
            None, None, None, None, None, None, None, None, None, None, None, None)]
  }

  function SceneAnims(): seq<Animation> {
    [Animation(5, 1, "a", "move", Some(1.0), Some(0.0), Some(false), Some(AnimParams(None, None, Some(0))))]
  }

  /**
    A stale stop function undoes a later drag: preview animation 5 at time 0,
    let it finish at time 100 (one frame lasts 1000/60 ms), drag the widget to
    x = 100, then preview an unknown animation. As written, the finished
    preview's stop function still runs and moves the widget back to x = 0;
    with the stop function forgotten at the end, the drag stays.
  */
  lemma StaleStopUndoesDrag(m: HostMath)
    ensures var p := Preview(Player(Scene(), None, false), SceneAnims(), 5, 0.0);
            var a := StepAsWritten(p, 100.0, m);
            var c := Step(p, 100.0, m);
            var dragA := a.(ws := [a.ws[0].(x := 100.0)]);
            var dragC := c.(ws := [c.ws[0].(x := 100.0)]);
            && Preview(dragA, SceneAnims(), 99, 200.0).ws[0].x == 0.0
            && Preview(dragC, SceneAnims(), 99, 200.0).ws[0].x == 100.0
  {
    var p := Preview(Player(Scene(), None, false), SceneAnims(), 5, 0.0);
    SceneStarts(p);
    assert AnimIndex(SceneAnims(), 99) < 0;
    StaleHandleRestores(p, m);
    FinishedHandleForgotten(p, m);
  }

  /** Previewing animation 5 of the scene saves the widget as it stands, with x = 0, and plays one frame from time 0. */
  lemma SceneStarts(p: Player)
    requires p == Preview(Player(Scene(), None, false), SceneAnims(), 5, 0.0)
    ensures PlayerWf(p) && p.playing && |p.ws| == 1 && p.ws[0].id == 1
    ensures 1 in p.handle.value.orig && p.handle.value.orig[1].x == 0.0
    ensures p.handle.value.startTime == 0.0 && p.handle.value.durationMs == FrameMs
  {
    assert AnimIndex(SceneAnims(), 5) == 0;
    assert IndexOf(Scene(), 1) == 0;
    RootAffected(Scene(), 1);
    assert p.handle.value.orig[1] == Save(Scene()[0]);
  }

  /** As written, the finished preview keeps its handle, and stopping it puts the dragged widget back at the saved x. */
  lemma StaleHandleRestores(p: Player, m: HostMath)
    requires PlayerWf(p) && p.playing && |p.ws| == 1 && p.ws[0].id == 1
    requires 1 in p.handle.value.orig && p.handle.value.orig[1].x == 0.0
    requires p.handle.value.startTime == 0.0 && p.handle.value.durationMs == FrameMs
    requires AnimIndex(SceneAnims(), 99) < 0
    ensures var a := StepAsWritten(p, 100.0, m);
            var dragA := a.(ws := [a.ws[0].(x := 100.0)]);
            Preview(dragA, SceneAnims(), 99, 200.0).ws[0].x == 0.0
  {
    var run := p.handle.value;
    ProgressBounds(run, 100.0);
    var a := StepAsWritten(p, 100.0, m);
    var dragA := a.(ws := [a.ws[0].(x := 100.0)]);
    assert IndexOf(dragA.ws, 1) == 0;
    assert Leads(dragA.ws, 0, run.orig);
    assert Stop(dragA).ws[0].x == 0.0;
  }

  /** With the corrected step the finished preview leaves no handle, so the next preview call keeps the drag. */
  lemma FinishedHandleForgotten(p: Player, m: HostMath)
    requires PlayerWf(p) && p.playing && |p.ws| == 1
    requires p.handle.value.startTime == 0.0 && p.handle.value.durationMs == FrameMs
    requires AnimIndex(SceneAnims(), 99) < 0
    ensures var c := Step(p, 100.0, m);
            var dragC := c.(ws := [c.ws[0].(x := 100.0)]);
            Preview(dragC, SceneAnims(), 99, 200.0).ws[0].x == 100.0
  {
    FinishRestores(p, 100.0, m);
  }
}
