/**
  The parent links of a widget list read as a forest. Every walk in the editor
  goes through two primitives: "the first widget with this id" (`find`) and
  "the widgets whose parentId is this id, in list order" (`filter`).

  `Lift(ws, x, k)` is the id reached after `k` parent steps from `x`, and
  `Desc(ws, id, fuel)` lists, as indices into `ws`, the descendants of `id` in
  the depth-first pre-order that the source's recursive walks follow. The
  source recurses without bound; `fuel` stands for that, and the lemmas below
  show that `|ws| + 1` is always enough when the parent links are acyclic.
*/
module Forest {
  import opened Wrappers
  import opened Types

  /** `ws.findIndex(w => w.id === id)`: the first index holding `id`, or -1. */
  function IndexOf(ws: seq<Widget>, id: int): (r: int)
    ensures -1 <= r < |ws|
    ensures r >= 0 ==> ws[r].id == id
    ensures forall j :: 0 <= j < |ws| && (r < 0 || j < r) ==> ws[j].id != id
  {
    if ws == [] then -1
    else if ws[0].id == id then 0
    else
      var k := IndexOf(ws[1..], id);
      if k < 0 then -1 else k + 1
  }

  /** `ws.find(w => w.id === id)`. */
  function Find(ws: seq<Widget>, id: int): (r: Option<Widget>)
    ensures r.Some? <==> id in Ids(ws)
    ensures r.Some? ==> r.value.id == id && r.value == ws[IndexOf(ws, id)]
  {
    var i := IndexOf(ws, id);
    if i < 0 then None else Some(ws[i])
  }

  lemma IndexOfUnique(ws: seq<Widget>, j: int)
    requires UniqueIds(ws) && 0 <= j < |ws|
    ensures IndexOf(ws, ws[j].id) == j
  {
  }

  /** The parentId of the first widget with id `id`; `None` when there is no such widget or it is a root. */
  function ParentOf(ws: seq<Widget>, id: int): Option<int> {
    var i := IndexOf(ws, id);
    if i < 0 then None else ws[i].parentId
  }

  /** The id reached from `id` after `k` steps up the parent chain, or `None` if the chain ends first. */
  function Lift(ws: seq<Widget>, id: int, k: nat): Option<int> {
    if k == 0 then Some(id)
    else
      var below := Lift(ws, id, k - 1);
      if below.None? then None else ParentOf(ws, below.value)
  }

  /** `a` is a proper ancestor of `x`, at most `f` steps up. */
  predicate Under(ws: seq<Widget>, x: int, a: int, f: nat) {
    exists k :: 1 <= k <= f && Lift(ws, x, k) == Some(a)
  }

  /** `a` is a proper ancestor of `x`: some positive number of parent steps from `x` reaches `a`. */
  ghost predicate Above(ws: seq<Widget>, a: int, x: int) {
    exists k: nat :: k >= 1 && Lift(ws, x, k) == Some(a)
  }

  /** Every parent chain leaves the list within `|ws|` steps: the parent links hold no cycle. */
  ghost predicate Acyclic(ws: seq<Widget>) {
    forall x :: Escapes(ws, x)
  }

  /** The chain from `x` ends within `|ws|` steps. */
  predicate Escapes(ws: seq<Widget>, x: int) {
    Lift(ws, x, |ws| + 1).None?
  }

  /** Once a chain has ended it stays ended. */
  lemma {:induction false} LiftNoneStays(ws: seq<Widget>, id: int, a: nat, b: nat)
    requires a <= b && Lift(ws, id, a).None?
    ensures Lift(ws, id, b).None?
    decreases b
  {
    if a < b {
      LiftNoneStays(ws, id, a, b - 1);
    }
  }

  /** Climbing `a + b` steps is climbing `a` steps and then `b` more. */
  lemma {:induction false} LiftAdd(ws: seq<Widget>, id: int, a: nat, b: nat)
    ensures Lift(ws, id, a).None? ==> Lift(ws, id, a + b).None?
    ensures Lift(ws, id, a).Some? ==> Lift(ws, id, a + b) == Lift(ws, Lift(ws, id, a).value, b)
    decreases b
  {
    if b > 0 {
      LiftAdd(ws, id, a, b - 1);
    }
  }

  /** Two points on one chain: the lower one reaches the higher one. */
  lemma LiftMeet(ws: seq<Widget>, x: int, k1: nat, k2: nat, a: int, b: int)
    requires k1 <= k2 && Lift(ws, x, k1) == Some(a) && Lift(ws, x, k2) == Some(b)
    ensures Lift(ws, a, k2 - k1) == Some(b)
  {
    LiftAdd(ws, x, k1, k2 - k1);
  }

  /** In an acyclic list no chain is longer than the list. */
  lemma LiftBound(ws: seq<Widget>, x: int, k: nat)
    requires Acyclic(ws) && Lift(ws, x, k).Some?
    ensures k <= |ws|
  {
    if k > |ws| {
      assert Escapes(ws, x);
      LiftNoneStays(ws, x, |ws| + 1, k);
    }
  }

  lemma {:induction false} LiftRepeat(ws: seq<Widget>, m: int, n: nat, j: nat)
    requires Lift(ws, m, n) == Some(m)
    ensures Lift(ws, m, Rounds(j, n)) == Some(m)
    decreases j
  {
    if j > 0 {
      var a := Rounds(j - 1, n);
      LiftRepeat(ws, m, n, j - 1);
      LiftCompose(ws, m, a, n);
      assert Rounds(j, n) == a + n;
    }
  }

  /** Two climbs that each come back to `m` make one that does. */
  lemma LiftCompose(ws: seq<Widget>, m: int, a: nat, b: nat)
    requires Lift(ws, m, a) == Some(m) && Lift(ws, m, b) == Some(m)
    ensures Lift(ws, m, a + b) == Some(m)
  {
    LiftAdd(ws, m, a, b);
  }

  /** `j` rounds of `n` steps. */
  function Rounds(j: nat, n: nat): (r: nat)
    ensures n >= 1 ==> r >= j
  {
    if j == 0 then 0 else Rounds(j - 1, n) + n
  }

  /** In an acyclic list no id is its own proper ancestor. */
  lemma NoCycle(ws: seq<Widget>, m: int, n: nat)
    requires Acyclic(ws) && n >= 1
    ensures Lift(ws, m, n) != Some(m)
  {
    if Lift(ws, m, n) == Some(m) {
      var far := Rounds(|ws| + 1, n);
      LiftRepeat(ws, m, n, |ws| + 1);
      LiftBound(ws, m, far);
    }
  }

  /** The indices `j >= from` whose widget has `parentId === id`, ascending. */
  function ChildrenFrom(ws: seq<Widget>, p: Option<int>, from: nat): (cs: seq<nat>)
    requires from <= |ws|
    ensures forall t :: 0 <= t < |cs| ==> from <= cs[t] < |ws| && ws[cs[t]].parentId == p
    ensures forall j {:trigger j in cs} :: from <= j < |ws| && ws[j].parentId == p ==> j in cs
    ensures forall s, t :: 0 <= s < t < |cs| ==> cs[s] < cs[t]
    decreases |ws| - from
  {
    if from == |ws| then []
    else if ws[from].parentId == p then [from] + ChildrenFrom(ws, p, from + 1)
    else ChildrenFrom(ws, p, from + 1)
  }

  /** `ws.filter(w => w.parentId === id)`, as indices. */
  function Children(ws: seq<Widget>, id: int): (cs: seq<nat>)
    ensures forall j {:trigger j in cs} :: 0 <= j < |ws| ==> (j in cs <==> ws[j].parentId == Some(id))
  {
    ChildrenFrom(ws, Some(id), 0)
  }

  /** `ws.filter(w => w.parentId == null)`, as indices. */
  function Roots(ws: seq<Widget>): (cs: seq<nat>)
    ensures forall t :: 0 <= t < |cs| ==> cs[t] < |ws|
    ensures forall j :: 0 <= j < |ws| ==> (j in cs <==> ws[j].parentId.None?)
  {
    ChildrenFrom(ws, None, 0)
  }

  /** The descendants of `id` in depth-first pre-order, children in list order, at most `fuel` levels deep. */
  function Desc(ws: seq<Widget>, id: int, fuel: nat): (d: seq<nat>)
    ensures forall t :: 0 <= t < |d| ==> d[t] < |ws|
    decreases fuel, 0, 0
  {
    if fuel == 0 then [] else DescAll(ws, Children(ws, id), fuel - 1)
  }

  /** Each index of `cs` followed by its descendants, one block after another. */
  function DescAll(ws: seq<Widget>, cs: seq<nat>, fuel: nat): (d: seq<nat>)
    requires forall t :: 0 <= t < |cs| ==> cs[t] < |ws|
    ensures forall t :: 0 <= t < |d| ==> d[t] < |ws|
    decreases fuel, 1, |cs|
  {
    if cs == [] then [] else [cs[0]] + Desc(ws, ws[cs[0]].id, fuel) + DescAll(ws, cs[1..], fuel)
  }

  predicate NoDup(s: seq<nat>) {
    forall a, b :: 0 <= a < b < |s| ==> s[a] != s[b]
  }

  predicate Increasing(s: seq<nat>) {
    forall a, b :: 0 <= a < b < |s| ==> s[a] < s[b]
  }

  /** What `DescAll` holds: the block heads and their descendants. */
  lemma {:induction false} DescAllMembers(ws: seq<Widget>, cs: seq<nat>, f: nat, j: nat)
    requires forall t :: 0 <= t < |cs| ==> cs[t] < |ws|
    ensures j in DescAll(ws, cs, f) <==> exists t :: 0 <= t < |cs| && (j == cs[t] || j in Desc(ws, ws[cs[t]].id, f))
    decreases |cs|
  {
    if cs != [] {
      DescAllMembers(ws, cs[1..], f, j);
      if j in DescAll(ws, cs[1..], f) {
        var t :| 0 <= t < |cs| - 1 && (j == cs[1..][t] || j in Desc(ws, ws[cs[1..][t]].id, f));
        assert j == cs[t + 1] || j in Desc(ws, ws[cs[t + 1]].id, f);
      }
      if exists t :: 0 <= t < |cs| && (j == cs[t] || j in Desc(ws, ws[cs[t]].id, f)) {
        var t :| 0 <= t < |cs| && (j == cs[t] || j in Desc(ws, ws[cs[t]].id, f));
        if t > 0 {
          assert j == cs[1..][t - 1] || j in Desc(ws, ws[cs[1..][t - 1]].id, f);
        }
      }
    }
  }

  /** The block of `DescAll` that holds `j`. */
  lemma DescWitness(ws: seq<Widget>, cs: seq<nat>, f: nat, j: nat) returns (t: nat)
    requires forall t :: 0 <= t < |cs| ==> cs[t] < |ws|
    requires j in DescAll(ws, cs, f)
    ensures t < |cs| && (j == cs[t] || j in Desc(ws, ws[cs[t]].id, f))
  {
    DescAllMembers(ws, cs, f, j);
    t :| 0 <= t < |cs| && (j == cs[t] || j in Desc(ws, ws[cs[t]].id, f));
  }

  /** The walk finds exactly the widgets that have `id` as an ancestor within `f` steps. */
  lemma DescMembers(ws: seq<Widget>, id: int, f: nat, j: nat)
    requires UniqueIds(ws) && j < |ws|
    ensures j in Desc(ws, id, f) <==> Under(ws, ws[j].id, id, f)
  {
    if j in Desc(ws, id, f) {
      DescSound(ws, id, f, j);
    }
    if Under(ws, ws[j].id, id, f) {
      DescComplete(ws, id, f, j);
    }
  }

  lemma DescSound(ws: seq<Widget>, id: int, f: nat, j: nat)
    requires UniqueIds(ws) && j < |ws| && j in Desc(ws, id, f)
    ensures Under(ws, ws[j].id, id, f)
  {
    var k := DescDepth(ws, id, f, j);
  }

  /** How many steps up from a widget the walk from `id` found lead back to `id`. */
  lemma {:induction false} DescDepth(ws: seq<Widget>, id: int, f: nat, j: nat) returns (k: nat)
    requires UniqueIds(ws) && j < |ws| && j in Desc(ws, id, f)
    ensures 1 <= k <= f && Lift(ws, ws[j].id, k) == Some(id)
    decreases f
  {
    var c := DescChild(ws, id, f, j);
    ParentStep(ws, c, id);
    if j == c {
      k := 1;
    } else {
      var m := DescDepth(ws, ws[c].id, f - 1, j);
      LiftAdd(ws, ws[j].id, m, 1);
      k := m + 1;
    }
  }

  /** The child of `id` whose block of the walk holds `j`. */
  lemma DescChild(ws: seq<Widget>, id: int, f: nat, j: nat) returns (c: nat)
    requires j in Desc(ws, id, f)
    ensures f > 0 && c < |ws| && ws[c].parentId == Some(id) && (j == c || j in Desc(ws, ws[c].id, f - 1))
  {
    var cs := Children(ws, id);
    var t := DescWitness(ws, cs, f - 1, j);
    c := cs[t];
    assert c in cs;
  }

  /** A child's first step up reaches its parent. */
  lemma ParentStep(ws: seq<Widget>, c: nat, id: int)
    requires UniqueIds(ws) && c < |ws| && ws[c].parentId == Some(id)
    ensures Lift(ws, ws[c].id, 1) == Some(id)
  {
    IndexOfUnique(ws, c);
  }

  lemma {:induction false} DescComplete(ws: seq<Widget>, id: int, f: nat, j: nat)
    requires UniqueIds(ws) && j < |ws| && Under(ws, ws[j].id, id, f)
    ensures j in Desc(ws, id, f)
    decreases f, 1
  {
    IndexOfUnique(ws, j);
    var k :| 1 <= k <= f && Lift(ws, ws[j].id, k) == Some(id);
    if k == 1 {
      assert Lift(ws, ws[j].id, 1) == ParentOf(ws, ws[j].id);
      assert ws[j].parentId == Some(id);
      DescFromChild(ws, id, f, IndexIn(Children(ws, id), j), j);
    } else {
      DescCompleteDeeper(ws, id, f, j, k);
    }
  }

  lemma {:induction false} DescCompleteDeeper(ws: seq<Widget>, id: int, f: nat, j: nat, k: nat)
    requires UniqueIds(ws) && j < |ws| && 2 <= k <= f && Lift(ws, ws[j].id, k) == Some(id)
    ensures j in Desc(ws, id, f)
    decreases f, 0
  {
    var m := Lift(ws, ws[j].id, k - 1).value;
    assert Lift(ws, ws[j].id, k) == ParentOf(ws, m);
    var c := IndexOf(ws, m);
    assert c >= 0 && ws[c].parentId == Some(id) && ws[c].id == m;
    assert Lift(ws, ws[j].id, k - 1) == Some(m);
    DescComplete(ws, m, f - 1, j);
    DescFromChild(ws, id, f, IndexIn(Children(ws, id), c), j);
  }

  /** Whatever the walk from a child reaches, the walk from its parent reaches too. */
  lemma DescFromChild(ws: seq<Widget>, id: int, f: nat, t: nat, j: nat)
    requires f > 0 && t < |Children(ws, id)|
    requires j == Children(ws, id)[t] || j in Desc(ws, ws[Children(ws, id)[t]].id, f - 1)
    ensures j in Desc(ws, id, f)
  {
    DescAllMembers(ws, Children(ws, id), f - 1, j);
  }

  /** The position of an element known to be in a sequence. */
  function IndexIn(s: seq<nat>, x: nat): (t: nat)
    requires x in s
    ensures t < |s| && s[t] == x
  {
    if s[0] == x then 0 else 1 + IndexIn(s[1..], x)
  }

  /** With acyclic links, `|ws|` levels reach every descendant, so deeper fuel changes nothing. */
  lemma DescDeepEnough(ws: seq<Widget>, id: int, f: nat, j: nat)
    requires UniqueIds(ws) && Acyclic(ws) && j < |ws| && f >= |ws|
    ensures j in Desc(ws, id, f) <==> Above(ws, id, ws[j].id)
  {
    DescMembers(ws, id, f, j);
    if Above(ws, id, ws[j].id) {
      var k: nat :| k >= 1 && Lift(ws, ws[j].id, k) == Some(id);
      LiftBound(ws, ws[j].id, k);
    }
  }

  /** One walk block: `c` itself (`k = 0`) or a descendant of `c`. */
  predicate InBlock(ws: seq<Widget>, j: nat, c: nat, f: nat)
    requires j < |ws| && c < |ws|
  {
    exists k :: 0 <= k <= f && Lift(ws, ws[j].id, k) == Some(ws[c].id)
  }

  /** Blocks of two different siblings share no widget. */
  lemma BlocksDisjoint(ws: seq<Widget>, c1: nat, c2: nat, j: nat, f: nat)
    requires UniqueIds(ws) && Acyclic(ws)
    requires c1 < |ws| && c2 < |ws| && j < |ws| && c1 != c2
    requires ws[c1].parentId == ws[c2].parentId
    ensures !(InBlock(ws, j, c1, f) && InBlock(ws, j, c2, f))
  {
    forall k1, k2 | 0 <= k1 <= f && 0 <= k2 <= f
      ensures !(Lift(ws, ws[j].id, k1) == Some(ws[c1].id) && Lift(ws, ws[j].id, k2) == Some(ws[c2].id))
    {
      SiblingsApart(ws, ws[j].id, k1, k2, c1, c2);
    }
  }

  /** One chain never passes through two different siblings. */
  lemma SiblingsApart(ws: seq<Widget>, x: int, k1: nat, k2: nat, c1: nat, c2: nat)
    requires UniqueIds(ws) && Acyclic(ws)
    requires c1 < |ws| && c2 < |ws| && c1 != c2 && ws[c1].parentId == ws[c2].parentId
    ensures !(Lift(ws, x, k1) == Some(ws[c1].id) && Lift(ws, x, k2) == Some(ws[c2].id))
  {
    IndexOfUnique(ws, c1);
    IndexOfUnique(ws, c2);
    if k1 < k2 {
      if Lift(ws, x, k1) == Some(ws[c1].id) {
        SiblingNotAbove(ws, x, k1, k2, c1, c2);
      }
    } else if k2 < k1 {
      if Lift(ws, x, k2) == Some(ws[c2].id) {
        SiblingNotAbove(ws, x, k2, k1, c2, c1);
      }
    }
  }

  /** Above a widget's sibling on a chain there is never the widget itself. */
  lemma SiblingNotAbove(ws: seq<Widget>, x: int, k1: nat, k2: nat, c1: nat, c2: nat)
    requires UniqueIds(ws) && Acyclic(ws)
    requires c1 < |ws| && c2 < |ws| && ws[c1].parentId == ws[c2].parentId
    requires k1 < k2 && Lift(ws, x, k1) == Some(ws[c1].id)
    ensures Lift(ws, x, k2) != Some(ws[c2].id)
  {
    var a := ws[c1].id;
    var d := k2 - k1;
    LiftAdd(ws, x, k1, d);
    assert Lift(ws, x, k2) == Lift(ws, a, d);
    IndexOfUnique(ws, c1);
    IndexOfUnique(ws, c2);
    LiftFirst(ws, a, d);
    if ws[c1].parentId.Some? {
      var p := ws[c1].parentId.value;
      NoCycle(ws, p, d);
      assert Lift(ws, p, d) == (var b := Lift(ws, p, d - 1); if b.None? then None else ParentOf(ws, b.value));
    }
  }

  /** Climbing from `a` is one parent step followed by the rest. */
  lemma LiftFirst(ws: seq<Widget>, a: int, n: nat)
    requires n >= 1
    ensures Lift(ws, a, n) == (if ParentOf(ws, a).None? then None else Lift(ws, ParentOf(ws, a).value, n - 1))
  {
    LiftAdd(ws, a, 1, n - 1);
  }

  /** Membership in a block, in terms of the walk. */
  lemma BlockMembers(ws: seq<Widget>, j: nat, c: nat, f: nat)
    requires UniqueIds(ws) && j < |ws| && c < |ws|
    ensures InBlock(ws, j, c, f) <==> (j == c || j in Desc(ws, ws[c].id, f))
  {
    DescMembers(ws, ws[c].id, f, j);
    if j == c {
      assert Lift(ws, ws[j].id, 0) == Some(ws[c].id);
    }
    if InBlock(ws, j, c, f) {
      var k :| 0 <= k <= f && Lift(ws, ws[j].id, k) == Some(ws[c].id);
      if k == 0 {
        assert ws[j].id == ws[c].id;
      }
    }
  }

  /** Walking several siblings visits every widget at most once. */
  lemma {:induction false} DescAllNoDup(ws: seq<Widget>, cs: seq<nat>, p: Option<int>, f: nat)
    requires UniqueIds(ws) && Acyclic(ws)
    requires forall t :: 0 <= t < |cs| ==> cs[t] < |ws| && ws[cs[t]].parentId == p
    requires Increasing(cs)
    ensures NoDup(DescAll(ws, cs, f))
    decreases f, 1, |cs|
  {
    if cs != [] {
      var c := cs[0];
      var d0 := Desc(ws, ws[c].id, f);
      var rest := DescAll(ws, cs[1..], f);
      DescNoDup(ws, ws[c].id, f);
      DescAllNoDup(ws, cs[1..], p, f);
      forall j | j in [c] + d0
        ensures j !in rest
      {
        BlockMembers(ws, j, c, f);
        if j in rest {
          DescAllMembers(ws, cs[1..], f, j);
          var t :| 0 <= t < |cs[1..]| && (j == cs[1..][t] || j in Desc(ws, ws[cs[1..][t]].id, f));
          BlockMembers(ws, j, cs[t + 1], f);
          BlocksDisjoint(ws, c, cs[t + 1], j, f);
        }
      }
      if c in d0 {
        DescMembers(ws, ws[c].id, f, c);
        var k :| 1 <= k <= f && Lift(ws, ws[c].id, k) == Some(ws[c].id);
        NoCycle(ws, ws[c].id, k);
      }
      NoDupConcat([c], d0);
      NoDupConcat([c] + d0, rest);
    }
  }

  /** Walking one id visits every widget at most once. */
  lemma {:induction false} DescNoDup(ws: seq<Widget>, id: int, f: nat)
    requires UniqueIds(ws) && Acyclic(ws)
    ensures NoDup(Desc(ws, id, f))
    decreases f, 0, 0
  {
    if f > 0 {
      DescAllNoDup(ws, Children(ws, id), Some(id), f - 1);
    }
  }

  lemma NoDupConcat(a: seq<nat>, b: seq<nat>)
    requires NoDup(a) && NoDup(b)
    requires forall j :: j in a ==> j !in b
    ensures NoDup(a + b)
  {
    forall x, y | 0 <= x < y < |a + b|
      ensures (a + b)[x] != (a + b)[y]
    {
      if x < |a| && y >= |a| {
        assert (a + b)[x] in a && (a + b)[y] in b;
      }
    }
  }

  /**
    In a run of sibling blocks whose heads all have parent `p`, every widget
    that does not have parent `p` comes after a widget that is its parent.
  */
  predicate ParentsFirst(ws: seq<Widget>, s: seq<nat>, p: Option<int>)
    requires forall t :: 0 <= t < |s| ==> s[t] < |ws|
  {
    forall t :: 0 <= t < |s| && ws[s[t]].parentId != p ==>
      exists u :: 0 <= u < t && ws[s[t]].parentId == Some(ws[s[u]].id)
  }

  lemma {:induction false} DescAllParentsFirst(ws: seq<Widget>, cs: seq<nat>, p: Option<int>, f: nat)
    requires forall t :: 0 <= t < |cs| ==> cs[t] < |ws| && ws[cs[t]].parentId == p
    ensures ParentsFirst(ws, DescAll(ws, cs, f), p)
    decreases f, |cs|
  {
    if cs != [] {
      var c := cs[0];
      DescAllParentsFirst(ws, cs[1..], p, f);
      if f > 0 {
        DescAllParentsFirst(ws, Children(ws, ws[c].id), Some(ws[c].id), f - 1);
      }
      ParentsFirstBlock(ws, c, Desc(ws, ws[c].id, f), DescAll(ws, cs[1..], f), p);
    }
  }

  /** A head, the run below it, and a run of its siblings keep parents first. */
  lemma ParentsFirstBlock(ws: seq<Widget>, c: nat, d0: seq<nat>, rest: seq<nat>, p: Option<int>)
    requires c < |ws| && ws[c].parentId == p
    requires forall t :: 0 <= t < |d0| ==> d0[t] < |ws|
    requires forall t :: 0 <= t < |rest| ==> rest[t] < |ws|
    requires ParentsFirst(ws, d0, Some(ws[c].id)) && ParentsFirst(ws, rest, p)
    ensures ParentsFirst(ws, [c] + d0 + rest, p)
  {
    var s := [c] + d0 + rest;
    forall t | 0 <= t < |s| && ws[s[t]].parentId != p
      ensures exists u :: 0 <= u < t && ws[s[t]].parentId == Some(ws[s[u]].id)
    {
      if t == 0 {
        assert false;
      } else if t <= |d0| {
        assert s[t] == d0[t - 1];
        if ws[d0[t - 1]].parentId == Some(ws[c].id) {
          assert s[0] == c;
        } else {
          var u :| 0 <= u < t - 1 && ws[d0[t - 1]].parentId == Some(ws[d0[u]].id);
          assert s[u + 1] == d0[u];
        }
      } else {
        var r := t - 1 - |d0|;
        assert s[t] == rest[r];
        var u :| 0 <= u < r && ws[rest[r]].parentId == Some(ws[rest[u]].id);
        assert s[u + 1 + |d0|] == rest[u];
      }
    }
  }

  /** Two lists with the same ids and parent links in the same places; only geometry or other fields differ. */
  predicate SameLinks(a: seq<Widget>, b: seq<Widget>) {
    |a| == |b| && forall i :: 0 <= i < |a| ==> a[i].id == b[i].id && a[i].parentId == b[i].parentId
  }

  lemma {:induction false} IndexOfSameLinks(a: seq<Widget>, b: seq<Widget>, id: int)
    requires SameLinks(a, b)
    ensures IndexOf(a, id) == IndexOf(b, id)
  {
    if a != [] {
      IndexOfSameLinks(a[1..], b[1..], id);
    }
  }

  lemma {:induction false} LiftSameLinks(a: seq<Widget>, b: seq<Widget>, x: int, k: nat)
    requires SameLinks(a, b)
    ensures Lift(a, x, k) == Lift(b, x, k)
  {
    if k > 0 {
      LiftSameLinks(a, b, x, k - 1);
      var below := Lift(a, x, k - 1);
      if below.Some? {
        IndexOfSameLinks(a, b, below.value);
      }
    }
  }

  /** Everything the forest walks look at is shared by two lists with the same links. */
  lemma SameLinksKeep(a: seq<Widget>, b: seq<Widget>)
    requires SameLinks(a, b)
    ensures Ids(a) == Ids(b)
    ensures UniqueIds(a) ==> UniqueIds(b)
    ensures Acyclic(a) ==> Acyclic(b)
    ensures forall r, x :: Above(a, r, x) <==> Above(b, r, x)
  {
    forall x, k: nat ensures Lift(a, x, k) == Lift(b, x, k) {
      LiftSameLinks(a, b, x, k);
    }
    assert forall x :: Escapes(a, x) <==> Escapes(b, x);
    forall i | i in Ids(a) ensures i in Ids(b) {
      var w :| w in a && w.id == i;
      var t :| 0 <= t < |a| && a[t] == w;
      assert b[t].id == i;
    }
    forall i | i in Ids(b) ensures i in Ids(a) {
      var w :| w in b && w.id == i;
      var t :| 0 <= t < |b| && b[t] == w;
      assert a[t].id == i;
    }
  }

  /**
    The walk from the roots reaches every widget once: with unique ids and
    acyclic links it lists exactly the roots and the widgets below a root,
    without repeats.
  */
  lemma RootWalkComplete(ws: seq<Widget>)
    requires UniqueIds(ws) && Acyclic(ws)
    ensures NoDup(DescAll(ws, Roots(ws), |ws|))
    ensures forall j :: 0 <= j < |ws| ==>
              (j in DescAll(ws, Roots(ws), |ws|) <==> ws[j].parentId.None? || exists r :: 0 <= r < |ws| && ws[r].parentId.None? && Above(ws, ws[r].id, ws[j].id))
  {
    var roots := Roots(ws);
    DescAllNoDup(ws, roots, None, |ws|);
    forall j | 0 <= j < |ws|
      ensures j in DescAll(ws, roots, |ws|) <==> ws[j].parentId.None? || exists r :: 0 <= r < |ws| && ws[r].parentId.None? && Above(ws, ws[r].id, ws[j].id)
    {
      DescAllMembers(ws, roots, |ws|, j);
      if ws[j].parentId.None? {
        assert roots[IndexIn(roots, j)] == j;
      }
      if exists r :: 0 <= r < |ws| && ws[r].parentId.None? && Above(ws, ws[r].id, ws[j].id) {
        var r :| 0 <= r < |ws| && ws[r].parentId.None? && Above(ws, ws[r].id, ws[j].id);
        DescDeepEnough(ws, ws[r].id, |ws|, j);
        assert roots[IndexIn(roots, r)] == r;
      }
      if j in DescAll(ws, roots, |ws|) && ws[j].parentId.Some? {
        var t :| 0 <= t < |roots| && (j == roots[t] || j in Desc(ws, ws[roots[t]].id, |ws|));
        DescDeepEnough(ws, ws[roots[t]].id, |ws|, j);
      }
    }
  }
}
