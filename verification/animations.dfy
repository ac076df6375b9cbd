/**
  The animation records of `useAnimations`: creation for the selected
  widget, removal, duplication, shallow patching, and the export grouping by
  widget.
*/
module Animations {
  import opened Wrappers
  import opened Types
  import opened JsText

  /** The animation list and the next animation id to hand out. */
  datatype Anims = Anims(list: seq<Animation>, nextAnimId: int)

  /** Every animation id is below the counter, so the next one handed out is fresh. */
  predicate Wf(a: Anims) {
    forall k :: 0 <= k < |a.list| ==> a.list[k].id < a.nextAnimId
  }

  /** `animations.findIndex(a => a.id === id)`. */
  function AnimIndex(list: seq<Animation>, id: int): (r: int)
    ensures -1 <= r < |list|
    ensures r >= 0 ==> list[r].id == id
    ensures forall k :: 0 <= k < |list| && (r < 0 || k < r) ==> list[k].id != id
  {
    if list == [] then -1
    else if list[0].id == id then 0
    else
      var k := AnimIndex(list[1..], id);
      if k < 0 then -1 else k + 1
  }

  /** The params a new animation starts with: no target and the linear tween. */
  const NewParams := AnimParams(None, None, Some(0))

  /**
    `addAnimationForSelected(kind)`: nothing happens without a selected widget
    (or when the first selected id is 0, which JavaScript reads as false);
    otherwise append a one-frame, undelayed, non-looping animation for the
    first selected widget under the next id, named after that id.
  */
  function AddForSelected(a: Anims, selected: seq<int>, kind: string): (r: Anims)
    ensures selected == [] || selected[0] == 0 ==> r == a
    ensures selected != [] && selected[0] != 0 ==>
      && r.nextAnimId == a.nextAnimId + 1
      && |r.list| == |a.list| + 1
      && r.list[..|a.list|] == a.list
      && var n := r.list[|a.list|];
         && n.id == a.nextAnimId && n.widgetId == selected[0] && n.kind == kind
         && n.name == "动画_" + IntToString(a.nextAnimId)
         && n.duration == Some(1.0) && n.delay == Some(0.0) && n.loop == Some(false)
         && n.params == Some(NewParams)
  {
    if selected == [] || selected[0] == 0 then a
    else
      var id := a.nextAnimId;
      var n := Animation(id, selected[0], "动画_" + IntToString(id), kind, Some(1.0), Some(0.0), Some(false), Some(NewParams));
      Anims(a.list + [n], id + 1)
  }

  /** `removeAnimation(id)`: keep the records with any other id, in order. */
  function Remove(list: seq<Animation>, id: int): (r: seq<Animation>)
    ensures forall x :: x in r <==> x in list && x.id != id
    ensures |r| <= |list|
  {
    if list == [] then [] else (if list[0].id != id then [list[0]] else []) + Remove(list[1..], id)
  }

  lemma {:induction false} RemoveConcat(a: seq<Animation>, b: seq<Animation>, id: int)
    ensures Remove(a + b, id) == Remove(a, id) + Remove(b, id)
  {
    if a == [] {
      assert a + b == b;
    } else {
      assert (a + b)[1..] == a[1..] + b;
      RemoveConcat(a[1..], b, id);
    }
  }

  lemma {:induction false} RemoveAbsent(list: seq<Animation>, id: int)
    requires forall k :: 0 <= k < |list| ==> list[k].id != id
    ensures Remove(list, id) == list
  {
    if list != [] {
      RemoveAbsent(list[1..], id);
    }
  }

  /** `duplicateAnimation(id)`: append a copy of the first record with that id under the next id, its name suffixed. */
  function Duplicate(a: Anims, id: int): (r: Anims)
    ensures AnimIndex(a.list, id) < 0 ==> r == a
    ensures AnimIndex(a.list, id) >= 0 ==>
      && r.nextAnimId == a.nextAnimId + 1
      && var src := a.list[AnimIndex(a.list, id)];
         r.list == a.list + [src.(id := a.nextAnimId, name := src.name + "_复制")]
  {
    var i := AnimIndex(a.list, id);
    if i < 0 then a
    else
      var src := a.list[i];
      Anims(a.list + [src.(id := a.nextAnimId, name := src.name + "_复制")], a.nextAnimId + 1)
  }

  /** Adding, duplicating and removing keep every id below the counter. */
  lemma EditsKeepWf(a: Anims, selected: seq<int>, kind: string, id: int)
    requires Wf(a)
    ensures Wf(AddForSelected(a, selected, kind))
    ensures Wf(Duplicate(a, id))
    ensures Wf(Anims(Remove(a.list, id), a.nextAnimId))
  {
    var r := Remove(a.list, id);
    forall k | 0 <= k < |r| ensures r[k].id < a.nextAnimId {
      assert r[k] in a.list;
    }
  }

  /** Removing a freshly added animation by its id gives the old list back. */
  lemma AddThenRemove(a: Anims, selected: seq<int>, kind: string)
    requires Wf(a) && selected != [] && selected[0] != 0
    ensures Remove(AddForSelected(a, selected, kind).list, a.nextAnimId) == a.list
  {
    var r := AddForSelected(a, selected, kind);
    assert r.list == a.list + [r.list[|a.list|]];
    RemoveConcat(a.list, [r.list[|a.list|]], a.nextAnimId);
    RemoveAbsent(a.list, a.nextAnimId);
  }

  /** Removing the copy a duplicate made gives the old list back. */
  lemma DuplicateThenRemove(a: Anims, id: int)
    requires Wf(a) && AnimIndex(a.list, id) >= 0
    ensures Remove(Duplicate(a, id).list, a.nextAnimId) == a.list
  {
    var r := Duplicate(a, id);
    assert r.list == a.list + [r.list[|a.list|]];
    RemoveConcat(a.list, [r.list[|a.list|]], a.nextAnimId);
    RemoveAbsent(a.list, a.nextAnimId);
  }

  /**
    A `Partial<Animation>` patch: each field is either absent (`None`) or
    present with the value it writes, which for an optional field may itself
    be missing.
  */
  datatype Patch = Patch(
    id: Option<int>,
    widgetId: Option<int>,
    name: Option<string>,
    kind: Option<string>,
    duration: Option<Option<real>>,
    delay: Option<Option<real>>,
    loop: Option<Option<bool>>,
    params: Option<Option<AnimParams>>)

  /** `{ ...a, ...patch }`: the patch's present fields win. */
  function Merge(a: Animation, p: Patch): Animation {
    Animation(
      p.id.GetOr(a.id), p.widgetId.GetOr(a.widgetId), p.name.GetOr(a.name), p.kind.GetOr(a.kind),
      p.duration.GetOr(a.duration), p.delay.GetOr(a.delay), p.loop.GetOr(a.loop), p.params.GetOr(a.params))
  }

  /** `updateAnimation(id, patch)`: merge the patch into the first record with that id; an unknown id changes nothing. */
  function Update(list: seq<Animation>, id: int, p: Patch): (r: seq<Animation>)
    ensures AnimIndex(list, id) < 0 ==> r == list
    ensures |r| == |list|
    ensures forall k :: 0 <= k < |list| && k != AnimIndex(list, id) ==> r[k] == list[k]
    ensures AnimIndex(list, id) >= 0 ==> r[AnimIndex(list, id)] == Merge(list[AnimIndex(list, id)], p)
  {
    var i := AnimIndex(list, id);
    if i < 0 then list else list[i := Merge(list[i], p)]
  }

  /** A patch with no fields changes nothing. */
  lemma EmptyPatch(list: seq<Animation>, id: int)
    ensures Update(list, id, Patch(None, None, None, None, None, None, None, None)) == list
  {
    var i := AnimIndex(list, id);
    if i >= 0 {
      assert Merge(list[i], Patch(None, None, None, None, None, None, None, None)) == list[i];
    }
  }

  /** Applying the same patch twice is applying it once, as long as the patch keeps the id. */
  lemma UpdateIdempotent(list: seq<Animation>, id: int, p: Patch)
    requires p.id.None? || p.id == Some(id)
    ensures Update(Update(list, id, p), id, p) == Update(list, id, p)
  {
    var i := AnimIndex(list, id);
    var u := Update(list, id, p);
    if i >= 0 {
      assert AnimIndex(u, id) == i;
    } else {
      assert u == list;
    }
  }

  /** An exported record: the animation without its editor-internal id. */
  datatype Exported = Exported(
    widgetId: int,
    name: string,
    kind: string,
    duration: Option<real>,
    delay: Option<real>,
    loop: Option<bool>,
    params: Option<AnimParams>)

  function Strip(a: Animation): (e: Exported)
    ensures e.widgetId == a.widgetId && e.name == a.name && e.kind == a.kind
    ensures a.(id := 0) == Animation(0, e.widgetId, e.name, e.kind, e.duration, e.delay, e.loop, e.params)
  {
    Exported(a.widgetId, a.name, a.kind, a.duration, a.delay, a.loop, a.params)
  }

  /** The records of widget `w`, without ids, in list order. */
  function ForWidget(list: seq<Animation>, w: int): (r: seq<Exported>)
    ensures |r| <= |list|
    ensures forall e :: e in r ==> e.widgetId == w
    ensures r == [] <==> forall k :: 0 <= k < |list| ==> list[k].widgetId != w
  {
    if list == [] then []
    else
      assert forall k :: 0 <= k < |list| - 1 ==> list[..|list| - 1][k] == list[k];
      ForWidget(list[..|list| - 1], w) + (if list[|list| - 1].widgetId == w then [Strip(list[|list| - 1])] else [])
  }

  /**
    `getAnimationsForExport`: walk the list once, appending each record
    without its id to its widget's entry and creating the entry on first use.
    (The source keys the object by the widget id's decimal text.)
  */
  function ExportGroups(list: seq<Animation>): map<int, seq<Exported>>
  {
    if list == [] then map[]
    else
      var prev := ExportGroups(list[..|list| - 1]);
      var a := list[|list| - 1];
      prev[a.widgetId := (if a.widgetId in prev then prev[a.widgetId] else []) + [Strip(a)]]
  }

  /**
    The export has one entry per widget that has animations, and that entry
    holds exactly the widget's records without their ids, in list order.
  */
  lemma {:induction false} ExportGroupsExact(list: seq<Animation>, w: int)
    ensures w in ExportGroups(list) <==> exists k :: 0 <= k < |list| && list[k].widgetId == w
    ensures w in ExportGroups(list) ==> ExportGroups(list)[w] == ForWidget(list, w)
  {
    if list != [] {
      var last := |list| - 1;
      var init := list[..last];
      ExportGroupsExact(init, w);
      assert forall k :: 0 <= k < last ==> init[k] == list[k];
      var prev := ExportGroups(init);
      var a := list[last];
      if a.widgetId == w {
        assert list[last].widgetId == w;
        if w !in prev {
          assert ForWidget(init, w) == [];
        }
        assert ExportGroups(list)[w] == ForWidget(init, w) + [Strip(a)];
      } else {
        assert ForWidget(list, w) == ForWidget(init, w) + [];
        assert w in ExportGroups(list) <==> w in prev;
        if exists k :: 0 <= k < |list| && list[k].widgetId == w {
          var k :| 0 <= k < |list| && list[k].widgetId == w;
          assert k < last;
        }
      }
    }
  }

  /** Every record is exported, under its widget, without its id. */
  lemma {:induction false} ExportKeepsEveryRecord(list: seq<Animation>, k: nat)
    requires k < |list|
    ensures Strip(list[k]) in ForWidget(list, list[k].widgetId)
  {
    var last := |list| - 1;
    if k < last {
      ExportKeepsEveryRecord(list[..last], k);
    }
  }

  /** The groups hold no more records than the list. */
  lemma {:induction false} ExportCountsRecords(list: seq<Animation>, w: int)
    ensures |ForWidget(list, w)| == |set k | 0 <= k < |list| && list[k].widgetId == w|
  {
    if list != [] {
      var last := |list| - 1;
      var init := list[..last];
      ExportCountsRecords(init, w);
      var before := set k | 0 <= k < |init| && init[k].widgetId == w;
      var after := set k | 0 <= k < |list| && list[k].widgetId == w;
      if list[last].widgetId == w {
        assert after == before + {last};
      } else {
        assert after == before;
      }
    }
  }

  // ---------------------------------------------------------------------
  // The order the exporters visit the export's keys in.

  /**
    Whether `Object.keys` treats the key of widget `w` as an array index:
    the decimal text of an integer below 2^32 - 1 (section 6.1.7 of
    ECMA-262). Such keys are listed first, in ascending order, and every
    other key follows in the order it was created (section 10.1.11.1,
    OrdinaryOwnPropertyKeys).
  */
  predicate IsIndexId(w: int) {
    0 <= w < 0xFFFF_FFFF
  }

  /** The position of widget `w`'s first record, or -1 when it has none. */
  function FirstRecord(list: seq<Animation>, w: int): (r: int)
    ensures -1 <= r < |list|
    ensures r >= 0 ==> list[r].widgetId == w
    ensures forall k :: 0 <= k < |list| && (r < 0 || k < r) ==> list[k].widgetId != w
  {
    if list == [] then -1
    else
      var init := list[..|list| - 1];
      assert forall k :: 0 <= k < |init| ==> init[k] == list[k];
      var p := FirstRecord(init, w);
      if p >= 0 then p else if list[|list| - 1].widgetId == w then |list| - 1 else -1
  }

  /**
    The ids whose key is (`index`) or is not (`!index`) an array index, each
    once, in the order `getAnimationsForExport` creates their keys: the order
    of their first records (`SeenOrder`).
  */
  function Seen(list: seq<Animation>, index: bool): (ids: seq<int>)
    ensures forall w :: w in ids <==> IsIndexId(w) == index && FirstRecord(list, w) >= 0
  {
    if list == [] then []
    else
      var prev := Seen(list[..|list| - 1], index);
      var w := list[|list| - 1].widgetId;
      if IsIndexId(w) != index || w in prev then prev else prev + [w]
  }

  /** The ids of `ids` come in the order of their first records in `list`. */
  predicate ByFirstRecord(list: seq<Animation>, ids: seq<int>) {
    forall i, j :: 0 <= i < j < |ids| ==> FirstRecord(list, ids[i]) < FirstRecord(list, ids[j])
  }

  /** No id is listed twice. */
  predicate Distinct(ids: seq<int>) {
    forall i, j :: 0 <= i < j < |ids| ==> ids[i] != ids[j]
  }

  /** The ids seen come in the order of their first records, so none twice. */
  lemma {:induction false} SeenOrder(list: seq<Animation>, index: bool)
    ensures ByFirstRecord(list, Seen(list, index)) && Distinct(Seen(list, index))
  {
    if list != [] {
      var init := list[..|list| - 1];
      SeenOrder(init, index);
      assert forall v :: FirstRecord(init, v) >= 0 ==> FirstRecord(list, v) == FirstRecord(init, v);
    }
  }

  /** `x` put into the strictly ascending `s` at its place. */
  function InsertId(x: int, s: seq<int>): (r: seq<int>)
    requires forall i, j :: 0 <= i < j < |s| ==> s[i] < s[j]
    requires x !in s
    ensures forall y :: y in r <==> y == x || y in s
    ensures forall i, j :: 0 <= i < j < |r| ==> r[i] < r[j]
    ensures r != [] && (r[0] == x || (s != [] && r[0] == s[0]))
  {
    if s == [] || x < s[0] then [x] + s
    else
      assert s[0] in s && s[0] < x;
      var t := InsertId(x, s[1..]);
      assert s[0] < t[0];
      [s[0]] + t
  }

  /** The distinct ids of `s`, ascending. */
  function SortIds(s: seq<int>): (r: seq<int>)
    requires Distinct(s)
    ensures forall y :: y in r <==> y in s
    ensures forall i, j :: 0 <= i < j < |r| ==> r[i] < r[j]
  {
    if s == [] then []
    else
      var init := s[..|s| - 1];
      assert forall y :: y in init ==> y in s && y != s[|s| - 1];
      InsertId(s[|s| - 1], SortIds(init))
  }

  /**
    The keys of `getAnimationsForExport()` in the order `Object.keys`
    visits them: the array-index ids ascending, then the others as created.
  */
  function KeyIds(list: seq<Animation>): (ids: seq<int>)
    ensures forall w :: w in ids <==> FirstRecord(list, w) >= 0
    ensures ids == [] <==> list == []
  {
    SeenOrder(list, true);
    assert list != [] ==> FirstRecord(list, list[0].widgetId) >= 0;
    SortIds(Seen(list, true)) + Seen(list, false)
  }

  /** The keys are distinct, array indexes first and ascending, the rest in creation order. */
  lemma KeyIdsOrder(list: seq<Animation>)
    ensures KeyOrdered(list, KeyIds(list))
  {
    SeenOrder(list, true);
    SeenOrder(list, false);
    AppendOrdered(list, SortIds(Seen(list, true)), Seen(list, false));
  }

  /**
    `ids` lists each key once, the array indexes first and ascending, and
    the rest in the order their first records come in `list`.
  */
  predicate KeyOrdered(list: seq<Animation>, ids: seq<int>) {
    Distinct(ids)
    && (forall i, j :: 0 <= i < j < |ids| && IsIndexId(ids[j]) ==> IsIndexId(ids[i]) && ids[i] < ids[j])
    && (forall i, j :: 0 <= i < j < |ids| && !IsIndexId(ids[i]) ==>
          !IsIndexId(ids[j]) && FirstRecord(list, ids[i]) < FirstRecord(list, ids[j]))
  }

  /** Ascending array indexes followed by the other keys in creation order are in key order. */
  lemma AppendOrdered(list: seq<Animation>, a: seq<int>, b: seq<int>)
    requires forall y :: y in a ==> IsIndexId(y)
    requires forall y :: y in b ==> !IsIndexId(y)
    requires forall i, j :: 0 <= i < j < |a| ==> a[i] < a[j]
    requires ByFirstRecord(list, b)
    ensures KeyOrdered(list, a + b)
  {
    assert forall k :: 0 <= k < |a| ==> IsIndexId(a[k]) by {
      forall k | 0 <= k < |a| ensures IsIndexId(a[k]) { assert a[k] in a; }
    }
    assert forall k :: 0 <= k < |b| ==> !IsIndexId(b[k]) by {
      forall k | 0 <= k < |b| ensures !IsIndexId(b[k]) { assert b[k] in b; }
    }
  }

  /**
    What the exporters iterate over: `Object.keys(animMap)` with
    `animMap[wid]` beside each key, where `animMap` is
    `getAnimationsForExport()`.
  */
  function ExportedGroups(list: seq<Animation>): (gs: seq<(int, seq<Exported>)>)
    ensures |gs| == |KeyIds(list)|
    ensures forall k :: 0 <= k < |gs| ==> gs[k] == (KeyIds(list)[k], ForWidget(list, KeyIds(list)[k]))
  {
    var ids := KeyIds(list);
    seq(|ids|, k requires 0 <= k < |ids| => (ids[k], ForWidget(list, ids[k])))
  }

  /** A widget with a first record has a non-empty group. */
  lemma Animated(list: seq<Animation>, w: int)
    requires FirstRecord(list, w) >= 0
    ensures ForWidget(list, w) != []
  {
    var r := FirstRecord(list, w);
    assert list[r].widgetId == w;
  }

  /**
    The groups the exporters visit are exactly the entries of the export:
    each animated widget once, with its records, array-index ids first in
    ascending order and every other id after them in creation order.
  */
  lemma ExportedGroupsExact(list: seq<Animation>)
    ensures var gs := ExportedGroups(list);
            forall k :: 0 <= k < |gs| ==> gs[k].0 in ExportGroups(list) && gs[k].1 == ExportGroups(list)[gs[k].0]
    ensures var gs := ExportedGroups(list);
            forall w :: w in ExportGroups(list) ==> exists k :: 0 <= k < |gs| && gs[k].0 == w
    ensures KeyOrdered(list, Keys(ExportedGroups(list)))
  {
    var ids := KeyIds(list);
    KeyIdsOrder(list);
    GroupsMatch(list, ids, ExportedGroups(list));
  }

  /** The keys of a sequence of groups. */
  function Keys(gs: seq<(int, seq<Exported>)>): (ks: seq<int>)
    ensures |ks| == |gs| && forall k :: 0 <= k < |gs| ==> ks[k] == gs[k].0
  {
    seq(|gs|, k requires 0 <= k < |gs| => gs[k].0)
  }

  /** Groups built from every animated widget's id hold that widget's entry of the export, and miss none. */
  lemma GroupsMatch(list: seq<Animation>, ids: seq<int>, gs: seq<(int, seq<Exported>)>)
    requires forall w :: w in ids <==> FirstRecord(list, w) >= 0
    requires |gs| == |ids| && forall k :: 0 <= k < |gs| ==> gs[k] == (ids[k], ForWidget(list, ids[k]))
    ensures forall k :: 0 <= k < |gs| ==> gs[k].0 in ExportGroups(list) && gs[k].1 == ExportGroups(list)[gs[k].0]
    ensures forall w :: w in ExportGroups(list) ==> exists k :: 0 <= k < |gs| && gs[k].0 == w
    ensures Keys(gs) == ids
  {
    forall k | 0 <= k < |gs|
      ensures gs[k].0 in ExportGroups(list) && gs[k].1 == ExportGroups(list)[gs[k].0]
    {
      assert ids[k] in ids;
      ExportGroupsExact(list, ids[k]);
    }
    forall w | w in ExportGroups(list)
      ensures exists k :: 0 <= k < |gs| && gs[k].0 == w
    {
      ExportGroupsExact(list, w);
      var n :| 0 <= n < |list| && list[n].widgetId == w;
      assert w in ids;
      var k :| 0 <= k < |ids| && ids[k] == w;
      assert gs[k].0 == w;
    }
  }

  /** When every record belongs to widget `w`, the export visits `w` alone, with all the records. */
  lemma OneWidgetGroups(list: seq<Animation>, w: int)
    requires list != []
    requires forall k :: 0 <= k < |list| ==> list[k].widgetId == w
    ensures ExportedGroups(list) == [(w, ForWidget(list, w))]
  {
    OneWidgetKey(list, w);
  }

  /** With every record on widget `w`, `w` is the only key. */
  lemma OneWidgetKey(list: seq<Animation>, w: int)
    requires list != []
    requires forall k :: 0 <= k < |list| ==> list[k].widgetId == w
    ensures KeyIds(list) == [w]
  {
    SeenOne(list, w, true);
    SeenOne(list, w, false);
    SortOne(w);
  }

  /** One id sorted is itself. */
  lemma SortOne(w: int)
    ensures SortIds([]) == [] && SortIds([w]) == [w]
  {
    assert [w][..0] == [];
  }

  /** With every record on widget `w`, `w` is the only key seen. */
  lemma {:induction false} SeenOne(list: seq<Animation>, w: int, index: bool)
    requires list != []
    requires forall k :: 0 <= k < |list| ==> list[k].widgetId == w
    ensures Seen(list, index) == if IsIndexId(w) == index then [w] else []
  {
    if |list| > 1 {
      SeenOne(list[..|list| - 1], w, index);
    }
  }
}
