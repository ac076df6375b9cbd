/**
  The two small lists the editor keeps besides the widgets: the most recently
  opened projects (`useRecentProjects`) and the image resources
  (`useResources`, whose TypeScript and JavaScript versions differ only in
  what they return when no file is chosen).
*/
module RecentProjects {
  import opened Wrappers
  import opened JsText

  datatype Recent = Recent(path: string, name: string)

  /** `MAX_RECENT_PROJECTS`. */
  const MaxRecent := 5

  /** `filePath.split(/[/\\]/).pop() || filePath`: the last path segment, or the whole path when that is empty. */
  function NameOf(path: string): string {
    var s := LastSegment(path);
    if s == "" then path else s
  }

  /** The name is a non-empty tail of the path: the file name, or the whole path when it ends in a separator. */
  lemma NameOfTail(path: string)
    requires path != ""
    ensures var n := NameOf(path);
            && n != "" && EndsWith(path, n)
            && (n != path ==> IsPathSep(path[|path| - |n| - 1]) && forall i :: 0 <= i < |n| ==> !IsPathSep(n[i]))
  {
    var s := LastSegment(path);
    if s == "" {
      assert path[|path| - |path|..] == path;
    }
  }

  predicate UniquePaths(list: seq<Recent>) {
    forall i, j :: 0 <= i < j < |list| ==> list[i].path != list[j].path
  }

  /** `list.filter(p => p.path !== path)`. */
  function Without(list: seq<Recent>, path: string): (r: seq<Recent>)
    ensures |r| <= |list|
    ensures forall i :: 0 <= i < |r| ==> r[i].path != path && r[i] in list
  {
    if list == [] then [] else (if list[0].path != path then [list[0]] else []) + Without(list[1..], path)
  }

  /**
    `addRecentProject(path)`: an empty path changes nothing; otherwise the
    path moves to (or enters at) the front under its file name, the other
    entries keep their order, and only the first five are kept.
  */
  function AddRecent(list: seq<Recent>, path: string): (r: seq<Recent>)
    ensures path == "" ==> r == list
    ensures path != "" ==>
      && 1 <= |r| <= MaxRecent
      && |r| == (if |Without(list, path)| + 1 < MaxRecent then |Without(list, path)| + 1 else MaxRecent)
      && r[0] == Recent(path, NameOf(path))
      && r[1..] == Without(list, path)[..|r| - 1]
  {
    if path == "" then list
    else
      var w := Without(list, path);
      var n := if |w| + 1 < MaxRecent then |w| + 1 else MaxRecent;
      var r := ([Recent(path, NameOf(path))] + w)[..n];
      assert r[1..] == w[..n - 1];
      r
  }

  lemma {:induction false} WithoutAbsent(list: seq<Recent>, path: string)
    requires forall i :: 0 <= i < |list| ==> list[i].path != path
    ensures Without(list, path) == list
  {
    if list != [] {
      WithoutAbsent(list[1..], path);
    }
  }

  /** After an addition no two entries share a path, provided none did before. */
  lemma AddRecentUnique(list: seq<Recent>, path: string)
    requires UniquePaths(list)
    ensures UniquePaths(AddRecent(list, path))
  {
    if path != "" {
      var r := AddRecent(list, path);
      var w := Without(list, path);
      WithoutUnique(list, path);
      forall i, j | 0 <= i < j < |r| ensures r[i].path != r[j].path {
        assert r[j] == w[j - 1];
        if i > 0 {
          assert r[i] == w[i - 1];
        }
      }
    }
  }

  lemma {:induction false} WithoutUnique(list: seq<Recent>, path: string)
    requires UniquePaths(list)
    ensures UniquePaths(Without(list, path))
  {
    if list != [] {
      WithoutUnique(list[1..], path);
      var rest := Without(list[1..], path);
      forall i | 0 <= i < |rest| ensures rest[i].path != list[0].path {
        var k :| 0 <= k < |list[1..]| && list[1..][k] == rest[i];
        assert list[k + 1] == rest[i];
      }
    }
  }

  /** Adding the same path twice in a row is adding it once. */
  lemma AddRecentIdempotent(list: seq<Recent>, path: string)
    ensures AddRecent(AddRecent(list, path), path) == AddRecent(list, path)
  {
    if path != "" {
      var r := AddRecent(list, path);
      var w := Without(list, path);
      forall i | 1 <= i < |r| ensures r[i].path != path {
        assert r[i] == r[1..][i - 1] == w[i - 1];
      }
      AlreadyFront(r, path);
    }
  }

  /** A list that already starts with the path, and has it nowhere else, is left as it is by adding the path. */
  lemma AlreadyFront(r: seq<Recent>, path: string)
    requires path != "" && 1 <= |r| <= MaxRecent && r[0] == Recent(path, NameOf(path))
    requires forall i :: 1 <= i < |r| ==> r[i].path != path
    ensures AddRecent(r, path) == r
  {
    var rest := r[1..];
    assert Without(r, path) == rest by {
      WithoutAbsent(rest, path);
      assert r == [r[0]] + rest;
      WithoutCons(r[0], rest, path);
    }
    assert [Recent(path, NameOf(path))] + rest == r;
  }

  lemma WithoutCons(e: Recent, rest: seq<Recent>, path: string)
    requires e.path == path
    ensures Without([e] + rest, path) == Without(rest, path)
  {
    assert ([e] + rest)[1..] == rest;
  }

  /** What the stored text parses to: not JSON at all, JSON that is not an array, or an array of entries. */
  datatype Parsed = ParseError | NotArray | Array(items: seq<Recent>)

  /**
    `loadRecentProjects`: a missing or empty entry, unparsable text or a value
    that is not an array leaves the list as it is; an array replaces it.
  */
  function Load(list: seq<Recent>, raw: Option<string>, parsed: Parsed): (r: seq<Recent>)
    ensures raw.None? || raw == Some("") || !parsed.Array? ==> r == list
    ensures raw.Some? && raw.value != "" && parsed.Array? ==> r == parsed.items
  {
    if raw.None? || raw.value == "" then list
    else if parsed.Array? then parsed.items
    else list
  }
}

module Resources {
  import opened Wrappers
  import opened Types
  import opened JsText

  /**
    A chosen file as the browser describes it: its name, its
    `webkitRelativePath` (empty when the file was not picked from a folder),
    its desktop `path` (empty when the host gives none), and the preview URL
    that reading or decoding it produced (empty when there is none).
  */
  datatype FileInfo = FileInfo(name: string, relativePath: string, path: string, preview: string)

  /** The resource value: the relative path, or the file name, with every '/' turned into '\'. */
  function ResourceValue(f: FileInfo): (v: string)
    ensures |v| == |(if f.relativePath != "" then f.relativePath else f.name)|
    ensures '/' !in v
  {
    ReplaceChar(if f.relativePath != "" then f.relativePath else f.name, '/', '\\')
  }

  function NewResource(f: FileInfo): (r: ImageResource)
    ensures r.caption == f.name && r.value == ResourceValue(f)
    ensures r.localPath == Some(f.path) && r.previewUrl == Some(f.preview)
  {
    ImageResource(f.name, ResourceValue(f), Some(f.path), Some(f.preview))
  }

  function Values(m: seq<ImageResource>): set<string> {
    set r | r in m :: r.value
  }

  predicate DistinctValues(m: seq<ImageResource>) {
    forall i, j :: 0 <= i < j < |m| ==> m[i].value != m[j].value
  }

  /** The position of the entry keyed `v` in an insertion-ordered map, or -1. */
  function KeyIndex(m: seq<ImageResource>, v: string): (r: int)
    ensures -1 <= r < |m|
    ensures r >= 0 ==> m[r].value == v
    ensures r < 0 <==> v !in Values(m)
  {
    if m == [] then -1
    else if m[|m| - 1].value == v then |m| - 1
    else KeyIndex(m[..|m| - 1], v)
  }

  /** `map.set(r.value, r)` on a JavaScript `Map`: an existing key keeps its place and takes the new entry. */
  function MapSet(m: seq<ImageResource>, r: ImageResource): (m': seq<ImageResource>)
    ensures Values(m') == Values(m) + {r.value}
  {
    var i := KeyIndex(m, r.value);
    if i < 0 then
      ValuesAppend(m, r);
      m + [r]
    else
      ValuesUpdate(m, i, r);
      m[i := r]
  }

  lemma ValuesAppend(m: seq<ImageResource>, r: ImageResource)
    ensures Values(m + [r]) == Values(m) + {r.value}
  {
    assert forall x :: x in m + [r] <==> x in m || x == r;
  }

  /** Replacing an entry by one with the same key keeps the keys. */
  lemma ValuesUpdate(m: seq<ImageResource>, i: nat, r: ImageResource)
    requires i < |m| && m[i].value == r.value
    ensures Values(m[i := r]) == Values(m) + {r.value}
  {
    var m' := m[i := r];
    forall v | v in Values(m) ensures v in Values(m') {
      var x :| x in m && x.value == v;
      var k :| 0 <= k < |m| && m[k] == x;
      assert m'[k].value == v;
    }
    forall v | v in Values(m') ensures v in Values(m) {
      var x :| x in m' && x.value == v;
      var k :| 0 <= k < |m'| && m'[k] == x;
      assert m[k].value == v;
    }
  }

  lemma InValues(m: seq<ImageResource>, k: nat)
    requires k < |m|
    ensures m[k].value in Values(m)
  {
    assert m[k] in m;
  }

  /** `if (!map.has(r.value)) map.set(r.value, r)`. */
  function MapAdd(m: seq<ImageResource>, r: ImageResource): seq<ImageResource> {
    if r.value in Values(m) then m else m + [r]
  }

  function SetAll(m: seq<ImageResource>, rs: seq<ImageResource>): seq<ImageResource>
    decreases |rs|
  {
    if rs == [] then m else SetAll(MapSet(m, rs[0]), rs[1..])
  }

  function AddAll(m: seq<ImageResource>, rs: seq<ImageResource>): seq<ImageResource>
    decreases |rs|
  {
    if rs == [] then m else AddAll(MapAdd(m, rs[0]), rs[1..])
  }

  /** The merge of `handleResourcesSelected`: the existing resources into a fresh map, then the new ones that are not there yet. */
  function Merge(existing: seq<ImageResource>, incoming: seq<ImageResource>): seq<ImageResource> {
    AddAll(SetAll([], existing), incoming)
  }

  /** The entries of `rs` whose value is neither in `seen` nor on an earlier entry: first occurrence wins. */
  function Fresh(rs: seq<ImageResource>, seen: set<string>): seq<ImageResource>
    decreases |rs|
  {
    if rs == [] then []
    else if rs[0].value in seen then Fresh(rs[1..], seen)
    else [rs[0]] + Fresh(rs[1..], seen + {rs[0].value})
  }

  lemma {:induction false} MapSetKeepsDistinct(m: seq<ImageResource>, r: ImageResource)
    requires DistinctValues(m)
    ensures DistinctValues(MapSet(m, r))
  {
    var i := KeyIndex(m, r.value);
    if i < 0 {
      forall k | 0 <= k < |m| ensures m[k].value != r.value {
        InValues(m, k);
      }
    }
  }

  lemma {:induction false} SetAllDistinct(m: seq<ImageResource>, rs: seq<ImageResource>)
    requires DistinctValues(m)
    ensures DistinctValues(SetAll(m, rs))
    ensures Values(SetAll(m, rs)) == Values(m) + Values(rs)
    decreases |rs|
  {
    if rs != [] {
      MapSetKeepsDistinct(m, rs[0]);
      SetAllDistinct(MapSet(m, rs[0]), rs[1..]);
      assert rs == [rs[0]] + rs[1..];
      assert Values(rs) == {rs[0].value} + Values(rs[1..]);
    }
  }

  /** Setting entries with pairwise different keys into an empty map keeps them as they are, in order. */
  lemma {:induction false} SetAllDistinctKeeps(m: seq<ImageResource>, rs: seq<ImageResource>)
    requires DistinctValues(m + rs)
    ensures SetAll(m, rs) == m + rs
    decreases |rs|
  {
    if rs != [] {
      forall k | 0 <= k < |m| ensures m[k].value != rs[0].value {
        assert (m + rs)[k] == m[k] && (m + rs)[|m|] == rs[0];
      }
      assert rs[0].value !in Values(m);
      assert MapSet(m, rs[0]) == m + [rs[0]];
      assert m + [rs[0]] + rs[1..] == m + rs;
      SetAllDistinctKeeps(m + [rs[0]], rs[1..]);
    }
  }

  /** Adding only absent keys appends exactly the fresh entries. */
  lemma {:induction false} AddAllFresh(m: seq<ImageResource>, rs: seq<ImageResource>)
    ensures AddAll(m, rs) == m + Fresh(rs, Values(m))
    decreases |rs|
  {
    if rs != [] {
      var r := rs[0];
      AddAllFresh(MapAdd(m, r), rs[1..]);
      if r.value !in Values(m) {
        assert Values(m + [r]) == Values(m) + {r.value};
        assert m + [r] + Fresh(rs[1..], Values(m) + {r.value}) == m + ([r] + Fresh(rs[1..], Values(m) + {r.value}));
      }
    }
  }

  lemma {:induction false} FreshFacts(rs: seq<ImageResource>, seen: set<string>)
    ensures DistinctValues(Fresh(rs, seen))
    ensures Values(Fresh(rs, seen)) == Values(rs) - seen
    decreases |rs|
  {
    if rs != [] {
      var r := rs[0];
      ValuesCons(rs);
      if r.value in seen {
        FreshFacts(rs[1..], seen);
      } else {
        var seen' := seen + {r.value};
        FreshFacts(rs[1..], seen');
        var f := Fresh(rs[1..], seen');
        assert Fresh(rs, seen) == [r] + f;
        forall k | 0 <= k < |f| ensures f[k].value != r.value {
          InValues(f, k);
        }
        ValuesConsOf(r, f);
      }
    }
  }

  lemma ValuesCons(rs: seq<ImageResource>)
    requires rs != []
    ensures Values(rs) == {rs[0].value} + Values(rs[1..])
  {
    assert rs == [rs[0]] + rs[1..];
    ValuesConsOf(rs[0], rs[1..]);
  }

  lemma ValuesConcat(a: seq<ImageResource>, b: seq<ImageResource>)
    ensures Values(a + b) == Values(a) + Values(b)
  {
    assert forall x :: x in a + b <==> x in a || x in b;
  }

  lemma ValuesConsOf(r: ImageResource, rest: seq<ImageResource>)
    ensures Values([r] + rest) == {r.value} + Values(rest)
  {
    assert forall x :: x in [r] + rest <==> x == r || x in rest;
  }

  /**
    The merged list keeps the existing resources first, unchanged and in
    order (when their values were already distinct), then the new resources
    whose value is not yet present, first occurrence winning; no two entries
    share a value, and every value of either list is there.
  */
  lemma MergeSpec(existing: seq<ImageResource>, incoming: seq<ImageResource>)
    ensures DistinctValues(Merge(existing, incoming))
    ensures Values(Merge(existing, incoming)) == Values(existing) + Values(incoming)
    ensures DistinctValues(existing) ==> Merge(existing, incoming) == existing + Fresh(incoming, Values(existing))
  {
    var base := SetAll([], existing);
    SetAllDistinct([], existing);
    assert Values([]) == {};
    AddAllFresh(base, incoming);
    FreshFacts(incoming, Values(base));
    var f := Fresh(incoming, Values(base));
    forall i, j | 0 <= i < j < |base + f| ensures (base + f)[i].value != (base + f)[j].value {
      if i < |base| && j >= |base| {
        assert (base + f)[j] == f[j - |base|];
        InValues(f, j - |base|);
        InValues(base, i);
      } else if i >= |base| {
        assert (base + f)[j] == f[j - |base|] && (base + f)[i] == f[i - |base|];
      }
    }
    ValuesConcat(base, f);
    if DistinctValues(existing) {
      assert [] + existing == existing;
      SetAllDistinctKeeps([], existing);
    }
  }

  /**
    `handleResourcesSelected` (TypeScript): with no files it returns 0 and
    keeps the list; otherwise it merges the new resources and returns how
    many files were processed, whether or not they were added.
  */
  function Import(existing: seq<ImageResource>, files: seq<FileInfo>): (r: (seq<ImageResource>, nat))
    ensures files == [] ==> r == (existing, 0)
    ensures r.1 == |files|
    ensures files != [] ==> r.0 == Merge(existing, seq(|files|, i requires 0 <= i < |files| => NewResource(files[i])))
  {
    if files == [] then (existing, 0)
    else (Merge(existing, seq(|files|, i requires 0 <= i < |files| => NewResource(files[i]))), |files|)
  }

  /** The JavaScript twin: the same merge, but nothing (`undefined`) is returned when no file is chosen. */
  function ImportJs(existing: seq<ImageResource>, files: seq<FileInfo>): (r: (seq<ImageResource>, Option<nat>))
    ensures files == [] ==> r == (existing, None)
    ensures files != [] ==> r == (Import(existing, files).0, Some(|files|))
  {
    if files == [] then (existing, None) else (Import(existing, files).0, Some(|files|))
  }

  /** Importing the same files again adds nothing: every value is already there. */
  lemma ImportTwice(existing: seq<ImageResource>, files: seq<FileInfo>)
    ensures var once := Import(existing, files).0;
            Import(once, files).0 == once
  {
    var once := Import(existing, files).0;
    if files != [] {
      var rs := seq(|files|, i requires 0 <= i < |files| => NewResource(files[i]));
      MergeSpec(existing, rs);
      MergeSpec(once, rs);
      FreshNone(rs, Values(once));
      assert once + [] == once;
    }
  }

  lemma {:induction false} FreshNone(rs: seq<ImageResource>, seen: set<string>)
    requires Values(rs) <= seen
    ensures Fresh(rs, seen) == []
    decreases |rs|
  {
    if rs != [] {
      assert rs[0] in rs;
      assert Values(rs[1..]) <= Values(rs) by {
        forall v | v in Values(rs[1..]) ensures v in Values(rs) {
          var r :| r in rs[1..] && r.value == v;
        }
      }
      FreshNone(rs[1..], seen);
    }
  }
}
