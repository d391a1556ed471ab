/** `merge_dicts` and `merge_all_dicts` of dmutils.py: the recursive merge of
    nested dictionaries in which the second dictionary wins every conflict
    that is not between two dictionaries. A dictionary value is a `Value`:
    a nested dictionary, or any other Python object as a leaf. */
module DictMerge {
  import opened Wrappers

  datatype Value<K, L> = Leaf(leaf: L) | Dict(entries: map<K, Value<K, L>>)

  /** `dict(merge_dicts(d1, d2))`. */
  function Merge<K, L>(d1: map<K, Value<K, L>>, d2: map<K, Value<K, L>>): (r: map<K, Value<K, L>>)
    ensures r.Keys == d1.Keys + d2.Keys
    ensures forall k :: k in d1 && k !in d2 ==> r[k] == d1[k]
    ensures forall k :: k in d2 && k !in d1 ==> r[k] == d2[k]
    ensures forall k :: k in d1 && k in d2 && !(d1[k].Dict? && d2[k].Dict?) ==> r[k] == d2[k]
    ensures forall k :: k in d1 && k in d2 && d1[k].Dict? && d2[k].Dict? ==>
      r[k].Dict? && r[k].entries.Keys == d1[k].entries.Keys + d2[k].entries.Keys
    decreases Dict(d1)
  {
    map k | k in d1.Keys + d2.Keys ::
      if k in d1 && k in d2 then
        if d1[k].Dict? && d2[k].Dict? then Dict(Merge(d1[k].entries, d2[k].entries)) else d2[k]
      else if k in d1 then d1[k]
      else d2[k]
  }

  /** Merging into an empty dictionary copies the other one. */
  lemma MergeEmptyLeft<K, L>(d: map<K, Value<K, L>>)
    ensures Merge(map[], d) == d
  {
  }

  lemma MergeEmptyRight<K, L>(d: map<K, Value<K, L>>)
    ensures Merge(d, map[]) == d
  {
  }

  /** Merging a dictionary with itself gives it back, at every depth. */
  lemma {:induction false} MergeIdempotent<K, L>(d: map<K, Value<K, L>>)
    ensures Merge(d, d) == d
    decreases Dict(d)
  {
    forall k | k in d && d[k].Dict?
      ensures Merge(d, d)[k] == d[k]
    {
      MergeIdempotent(d[k].entries);
    }
  }

  /** The value reached from `d` by following the keys of a non-empty `path`. */
  function Lookup<K, L>(d: map<K, Value<K, L>>, path: seq<K>): Option<Value<K, L>>
    requires path != []
    decreases |path|
  {
    if path[0] !in d then None
    else if |path| == 1 then Some(d[path[0]])
    else if d[path[0]].Dict? then Lookup(d[path[0]].entries, path[1..])
    else None
  }

  /** Every path of the second dictionary survives the merge, and wherever it
      ends in a leaf the merged dictionary holds that same leaf. */
  lemma {:induction false} SecondDictWins<K, L>(d1: map<K, Value<K, L>>, d2: map<K, Value<K, L>>, path: seq<K>)
    requires path != [] && Lookup(d2, path).Some?
    ensures Lookup(Merge(d1, d2), path).Some?
    ensures Lookup(d2, path).value.Leaf? ==> Lookup(Merge(d1, d2), path) == Lookup(d2, path)
    decreases |path|
  {
    var k := path[0];
    if |path| > 1 {
      var m := Merge(d1, d2);
      if k in d1 && d1[k].Dict? {
        SecondDictWins(d1[k].entries, d2[k].entries, path[1..]);
      } else {
        assert m[k] == d2[k];
      }
    }
  }

  /** Along `path` the two dictionaries share only keys that hold a
      dictionary on both sides, until a key the second one lacks. */
  predicate OnlyFirstBelow<K, L>(d1: map<K, Value<K, L>>, d2: map<K, Value<K, L>>, path: seq<K>)
    requires path != []
    decreases |path|
  {
    var k := path[0];
    k !in d2 ||
    (&& |path| > 1 && k in d1 && d1[k].Dict? && d2[k].Dict?
     && OnlyFirstBelow(d1[k].entries, d2[k].entries, path[1..]))
  }

  /** A path of the first dictionary survives the merge, with its value,
      when the second dictionary leaves it alone: every key on it that both
      dictionaries hold is a dictionary on both sides, so that level is
      merged recursively, down to a key the second dictionary lacks. */
  lemma {:induction false} FirstOnlyKept<K, L>(d1: map<K, Value<K, L>>, d2: map<K, Value<K, L>>, path: seq<K>)
    requires path != [] && Lookup(d1, path).Some? && OnlyFirstBelow(d1, d2, path)
    ensures Lookup(Merge(d1, d2), path) == Lookup(d1, path)
    decreases |path|
  {
    var k := path[0];
    var m := Merge(d1, d2);
    if k !in d2 {
      assert m[k] == d1[k];
      if |path| > 1 {
        LookupSame(m[k].entries, d1[k].entries, path[1..]);
      }
    } else {
      assert m[k] == Dict(Merge(d1[k].entries, d2[k].entries));
      FirstOnlyKept(d1[k].entries, d2[k].entries, path[1..]);
    }
  }

  /** The nested case of the docstring example: `{b: {x: 2}}` merged with
      `{b: {y: 3}}` keeps `b.x` as 2. */
  lemma NestedKept<K, L>(b: K, x: K, y: K, v2: L, v3: L)
    requires x != y
    ensures Lookup(Merge(map[b := Dict(map[x := Leaf(v2)])], map[b := Dict(map[y := Leaf(v3)])]), [b, x]) == Some(Leaf(v2))
  {
    var d1 := map[b := Dict(map[x := Leaf(v2)])];
    var d2 := map[b := Dict(map[y := Leaf(v3)])];
    assert [b, x][1..] == [x];
    FirstOnlyKept(d1, d2, [b, x]);
  }

  /** The merge invents no path: every path of the merged dictionary is a
      path of the first dictionary or of the second. */
  lemma {:induction false} NoInventedPaths<K, L>(d1: map<K, Value<K, L>>, d2: map<K, Value<K, L>>, path: seq<K>)
    requires path != [] && Lookup(Merge(d1, d2), path).Some?
    ensures Lookup(d1, path).Some? || Lookup(d2, path).Some?
    decreases |path|
  {
    var k := path[0];
    var m := Merge(d1, d2);
    if |path| > 1 {
      if k in d1 && k in d2 && d1[k].Dict? && d2[k].Dict? {
        assert m[k] == Dict(Merge(d1[k].entries, d2[k].entries));
        NoInventedPaths(d1[k].entries, d2[k].entries, path[1..]);
      } else if k in d2 {
        assert m[k] == d2[k];
        LookupSame(m[k].entries, d2[k].entries, path[1..]);
      } else {
        assert m[k] == d1[k];
        LookupSame(m[k].entries, d1[k].entries, path[1..]);
      }
    }
  }

  lemma LookupSame<K, L>(a: map<K, Value<K, L>>, b: map<K, Value<K, L>>, path: seq<K>)
    requires a == b && path != []
    ensures Lookup(a, path) == Lookup(b, path)
  {
  }

  /** The docstring example of `merge_dicts`, for any distinct keys `a`, `b`,
      `c` and `x`, `y` and any leaves: `{a: 1, b: {x: 2}}` merged with
      `{b: {y: 3}, c: 4}` is `{a: 1, b: {x: 2, y: 3}, c: 4}`. */
  lemma MergeExample<K, L>(a: K, b: K, c: K, x: K, y: K, v1: L, v2: L, v3: L, v4: L)
    requires a != b && b != c && a != c && x != y
    ensures Merge(map[a := Leaf(v1), b := Dict(map[x := Leaf(v2)])], map[b := Dict(map[y := Leaf(v3)]), c := Leaf(v4)])
         == map[a := Leaf(v1), b := Dict(map[x := Leaf(v2), y := Leaf(v3)]), c := Leaf(v4)]
  {
    var d1 := map[a := Leaf(v1), b := Dict(map[x := Leaf(v2)])];
    var d2 := map[b := Dict(map[y := Leaf(v3)]), c := Leaf(v4)];
    MergeTwoLeaves(x, y, v2, v3);
    var m := Merge(d1, d2);
    assert m.Keys == {a, b, c};
    assert m[a] == Leaf(v1) && m[c] == Leaf(v4);
    assert m[b] == Dict(Merge(map[x := Leaf(v2)], map[y := Leaf(v3)]));
    MapOfThree(m, a, b, c);
  }

  /** Two one-key dictionaries with different keys merge into their union. */
  lemma MergeTwoLeaves<K, L>(x: K, y: K, v2: L, v3: L)
    requires x != y
    ensures Merge(map[x := Leaf(v2)], map[y := Leaf(v3)]) == map[x := Leaf(v2), y := Leaf(v3)]
  {
    var m := Merge(map[x := Leaf(v2)], map[y := Leaf(v3)]);
    assert m.Keys == {x, y} && m[x] == Leaf(v2) && m[y] == Leaf(v3);
  }

  /** A map on three keys is its display. */
  lemma MapOfThree<K, V>(m: map<K, V>, a: K, b: K, c: K)
    requires m.Keys == {a, b, c}
    ensures m == map[a := m[a], b := m[b], c := m[c]]
  {
  }

  /** The merge is not associative, so the order in which `merge_all_dicts`
      folds matters: a leaf between two dictionaries cuts the first one off
      when merged from the left, not when merged from the right. */
  lemma MergeNotAssociative()
    ensures var a, b, c := map["k" := Dict(map["x" := Leaf(1)])], map["k" := Leaf(2)], map["k" := Dict(map["y" := Leaf(3)])];
      Merge(Merge(a, b), c) != Merge(a, Merge(b, c))
  {
    var a, b, c := map["k" := Dict(map["x" := Leaf(1)])], map["k" := Leaf(2)], map["k" := Dict(map["y" := Leaf(3)])];
    CutFromLeft(a, b, c);
    KeptFromRight(a, b, c);
  }

  lemma CutFromLeft(a: map<string, Value<string, int>>, b: map<string, Value<string, int>>, c: map<string, Value<string, int>>)
    requires a == map["k" := Dict(map["x" := Leaf(1)])] && b == map["k" := Leaf(2)] && c == map["k" := Dict(map["y" := Leaf(3)])]
    ensures "x" !in Merge(Merge(a, b), c)["k"].entries
  {
    var ab := Merge(a, b);
    assert ab["k"] == Leaf(2);
    assert Merge(ab, c)["k"] == Dict(map["y" := Leaf(3)]);
  }

  lemma KeptFromRight(a: map<string, Value<string, int>>, b: map<string, Value<string, int>>, c: map<string, Value<string, int>>)
    requires a == map["k" := Dict(map["x" := Leaf(1)])] && b == map["k" := Leaf(2)] && c == map["k" := Dict(map["y" := Leaf(3)])]
    ensures "x" in Merge(a, Merge(b, c))["k"].entries
  {
    var bc := Merge(b, c);
    assert bc["k"] == Dict(map["y" := Leaf(3)]);
    assert "x" in Merge(a, bc)["k"].entries;
  }

  /** The left fold `merge(...merge(merge({}, d0), d1)..., dn)`. */
  function MergeLeft<K, L>(ds: seq<map<K, Value<K, L>>>): (r: map<K, Value<K, L>>)
    ensures forall i :: 0 <= i < |ds| ==> ds[i].Keys <= r.Keys
  {
    if ds == [] then map[] else Merge(MergeLeft(ds[..|ds| - 1]), ds[|ds| - 1])
  }

  /** The fold of one dictionary is that dictionary. */
  lemma MergeLeftSingle<K, L>(d: map<K, Value<K, L>>)
    ensures MergeLeft([d]) == d
  {
    assert [d][..0] == [];
    MergeEmptyLeft(d);
  }

  /** The merged key set is the union of all key sets. */
  lemma {:induction false} MergeLeftKeys<K, L>(ds: seq<map<K, Value<K, L>>>, k: K)
    ensures k in MergeLeft(ds) <==> exists i :: 0 <= i < |ds| && k in ds[i]
  {
    if ds != [] {
      var init := ds[..|ds| - 1];
      MergeLeftKeys(init, k);
      if k in MergeLeft(init) {
        var i :| 0 <= i < |init| && k in init[i];
        assert ds[i] == init[i];
      }
      forall i | 0 <= i < |ds| - 1 && k in ds[i] ensures k in MergeLeft(init) {
        assert init[i] == ds[i];
      }
    }
  }

  /** A key whose last holder maps it to a leaf ends up with that leaf. */
  lemma {:induction false} MergeLeftLastLeaf<K, L>(ds: seq<map<K, Value<K, L>>>, k: K)
    requires ds != [] && k in ds[|ds| - 1] && ds[|ds| - 1][k].Leaf?
    ensures k in MergeLeft(ds) && MergeLeft(ds)[k] == ds[|ds| - 1][k]
  {
  }

  /** `merge_all_dicts(dict_container)`: the list's own dictionary for one
      element, `{}` for none, and otherwise `merge(d0, d1)` merged with each
      later dictionary in turn. */
  method MergeAllDicts<K, L>(container: seq<map<K, Value<K, L>>>) returns (r: map<K, Value<K, L>>)
    ensures r == MergeLeft(container)
  {
    if |container| > 1 {
      var temp: map<K, Value<K, L>> := map[];
      for idx := 0 to |container|
        invariant idx >= 1 ==> temp == MergeLeft(container[..(if idx == 1 then 2 else idx)])
      {
        if idx == 0 {
          temp := Merge(container[0], container[1]);
          assert container[..2][..1] == [container[0]];
          MergeLeftSingle(container[0]);
        } else if idx == 1 {
        } else {
          assert container[..idx + 1][..idx] == container[..idx];
          temp := Merge(temp, container[idx]);
        }
      }
      assert container[..|container|] == container;
      r := temp;
    } else if |container| == 1 {
      MergeLeftSingle(container[0]);
      assert container == [container[0]];
      r := container[0];
    } else {
      r := map[];
    }
  }
}
