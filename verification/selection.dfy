/**
  Selection lists. The editor keeps the selected ids as a list whose first
  entry is the reference widget; a ctrl-click (on the canvas or in the
  hierarchy tree) goes through a `Set` and back, which drops repeats and
  keeps first occurrences in order.
*/
module Selection {
  /** No value occurs twice. */
  predicate Distinct(s: seq<int>) {
    forall a, b :: 0 <= a < b < |s| ==> s[a] != s[b]
  }

  /** `Array.from(new Set(s))`: the first occurrence of each value, in order. */
  function Dedup(s: seq<int>): (r: seq<int>)
    ensures Distinct(r)
    ensures forall x :: x in r <==> x in s
    ensures |r| <= |s|
  {
    if s == [] then []
    else
      var r := Dedup(s[..|s| - 1]);
      assert forall x :: x in s <==> x in s[..|s| - 1] || x == s[|s| - 1];
      if s[|s| - 1] in r then r else r + [s[|s| - 1]]
  }

  /** A ctrl-click: drop the id from the selection when it is there, add it at the end when it is not. */
  function ToggleId(sel: seq<int>, id: int): (r: seq<int>)
    ensures Distinct(r)
    ensures forall x :: x in r <==> if x == id then id !in sel else x in sel
  {
    var d := Dedup(sel);
    if id in d then Without(d, id) else d + [id]
  }

  /** `set.delete(id)` on a duplicate-free list. */
  function Without(s: seq<int>, id: int): (r: seq<int>)
    requires Distinct(s)
    ensures Distinct(r)
    ensures forall x :: x in r <==> x in s && x != id
  {
    if s == [] then []
    else if s[0] == id then Without(s[1..], id)
    else
      var t := Without(s[1..], id);
      assert s[0] !in t;
      assert forall b :: 0 <= b < |t| ==> ([s[0]] + t)[b + 1] == t[b];
      [s[0]] + t
  }

  /** Toggling the same id twice leaves the same set of selected ids. */
  lemma ToggleTwice(sel: seq<int>, id: int)
    ensures forall x :: x in ToggleId(ToggleId(sel, id), id) <==> x in sel
  {
  }

  /** A list without repeats goes through the `Set` unchanged. */
  lemma {:induction false} DedupDistinct(s: seq<int>)
    requires Distinct(s)
    ensures Dedup(s) == s
  {
    if s != [] {
      var p := s[..|s| - 1];
      assert Distinct(p);
      DedupDistinct(p);
      assert s[|s| - 1] !in p;
      assert p + [s[|s| - 1]] == s;
    }
  }

  /** Ctrl-clicking an unselected id appends it to a repeat-free selection. */
  lemma ToggleAppends(sel: seq<int>, id: int)
    requires Distinct(sel) && id !in sel
    ensures ToggleId(sel, id) == sel + [id]
  {
    DedupDistinct(sel);
  }
}
