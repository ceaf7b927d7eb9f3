/** Flattening of nested dictionaries in `pytest_snapshot/_utils.py`: `flatten_dict` and its
    worker `_flatten_dict`, and `flatten_filesystem_dict`, which checks every key on a leaf's
    path and joins the path with `/`. */
module Flatten {
  import opened Wrappers
  import Strings
  import Filenames

  /** A value of a nested dictionary: a non-dict value, or a dict given by its
      `(key, value)` items in insertion order. */
  datatype Tree<K, V> = Leaf(value: V) | Node(items: seq<(K, Tree<K, V>)>)

  /** A measure for recursion over nested dictionaries: every item counts one, plus the
      items below it. */
  function Size<K, V>(items: seq<(K, Tree<K, V>)>): nat
    decreases items
  {
    if items == [] then 0 else EntrySize(items[0]) + Size(items[1..])
  }

  function EntrySize<K, V>(e: (K, Tree<K, V>)): nat
    decreases e
  {
    match e.1
    case Leaf(_) => 1
    case Node(sub) => 1 + Size(sub)
  }

  /** The items of a sub-dict are fewer than those of the dict that holds it. */
  lemma {:induction false} SizeOfChild<K, V>(items: seq<(K, Tree<K, V>)>, i: nat)
    requires i < |items| && items[i].1.Node?
    ensures Size(items[i].1.items) < Size(items)
  {
    if i > 0 {
      SizeOfChild(items[1..], i - 1);
    }
  }

  /** Python dicts hold each key once, at every level of nesting. */
  ghost predicate UniqueKeys<K, V>(items: seq<(K, Tree<K, V>)>)
    decreases Size(items)
  {
    items != [] ==>
    assert Size(items) == EntrySize(items[0]) + Size(items[1..]);
    ((forall j :: 1 <= j < |items| ==> items[j].0 != items[0].0) &&
     (items[0].1.Node? ==> UniqueKeys(items[0].1.items)) &&
     UniqueKeys(items[1..]))
  }

  /** The pairs `_flatten_dict(items, result, prefix)` appends to `result`: one
      `(prefix + key path, value)` per non-dict value, depth first, in insertion order. */
  function Flat<K, V>(prefix: seq<K>, items: seq<(K, Tree<K, V>)>): seq<(seq<K>, V)>
    decreases Size(items)
  {
    if items == [] then []
    else
      assert Size(items) == EntrySize(items[0]) + Size(items[1..]);
      var k := items[0].0;
      (match items[0].1
       case Leaf(v) => [(prefix + [k], v)]
       case Node(sub) => Flat(prefix + [k], sub))
      + Flat(prefix, items[1..])
  }

  /** The number of non-dict values in a nested dictionary. */
  function LeafCount<K, V>(items: seq<(K, Tree<K, V>)>): nat
    decreases Size(items)
  {
    if items == [] then 0
    else
      assert Size(items) == EntrySize(items[0]) + Size(items[1..]);
      (match items[0].1
       case Leaf(_) => 1
       case Node(sub) => LeafCount(sub))
      + LeafCount(items[1..])
  }

  lemma {:induction false} FlatAppend<K, V>(prefix: seq<K>, a: seq<(K, Tree<K, V>)>, b: seq<(K, Tree<K, V>)>)
    ensures Flat(prefix, a + b) == Flat(prefix, a) + Flat(prefix, b)
    decreases |a|
  {
    if a != [] {
      assert (a + b)[0] == a[0];
      assert (a + b)[1..] == a[1..] + b;
      FlatAppend(prefix, a[1..], b);
    } else {
      assert a + b == b;
    }
  }

  /** The pairs of one item: its own, or those of the sub-dict below it. */
  lemma FlatOne<K, V>(prefix: seq<K>, e: (K, Tree<K, V>))
    ensures Flat(prefix, [e]) ==
      match e.1
      case Leaf(v) => [(prefix + [e.0], v)]
      case Node(sub) => Flat(prefix + [e.0], sub)
  {
    assert [e][1..] == [];
  }

  /** `_flatten_dict`: loops over `obj`'s items, pushing each key on the shared `prefix`,
      recursing into sub-dicts and appending a copy of the path with each other value to the
      shared `result`, then popping the key again. */
  method FlattenInto<K, V>(obj: seq<(K, Tree<K, V>)>, result: seq<(seq<K>, V)>, prefix: seq<K>)
    returns (result': seq<(seq<K>, V)>, prefix': seq<K>)
    ensures result' == result + Flat(prefix, obj)
    ensures prefix' == prefix
    decreases Size(obj)
  {
    result', prefix' := result, prefix;
    for i := 0 to |obj|
      invariant prefix' == prefix
      invariant result' == result + Flat(prefix, obj[..i])
    {
      ghost var before := result';
      var k := obj[i].0;
      var v := obj[i].1;
      prefix' := prefix' + [k];
      match v {
        case Node(sub) =>
          SizeOfChild(obj, i);
          result', prefix' := FlattenInto(sub, result', prefix');
        case Leaf(x) =>
          result' := result' + [(prefix', x)];
      }
      assert prefix'[..|prefix'| - 1] == prefix;
      prefix' := prefix'[..|prefix'| - 1];
      FlatOne(prefix, obj[i]);
      assert result' == before + Flat(prefix, [obj[i]]);
      assert obj[..i + 1] == obj[..i] + [obj[i]];
      FlatAppend(prefix, obj[..i], [obj[i]]);
    }
    assert obj[..|obj|] == obj;
  }

  /** `flatten_dict`. */
  method FlattenDict<K, V>(d: seq<(K, Tree<K, V>)>) returns (result: seq<(seq<K>, V)>)
    ensures result == Flat([], d)
  {
    var prefix;
    result, prefix := FlattenInto(d, [], []);
  }

  /** One pair per non-dict value. */
  lemma {:induction false} FlatLength<K, V>(prefix: seq<K>, items: seq<(K, Tree<K, V>)>)
    ensures |Flat(prefix, items)| == LeafCount(items)
    decreases Size(items)
  {
    if items != [] {
      assert Size(items) == EntrySize(items[0]) + Size(items[1..]);
      FlatLength(prefix, items[1..]);
      match items[0].1 {
        case Leaf(_) =>
        case Node(sub) => FlatLength(prefix + [items[0].0], sub);
      }
    }
  }

  /** Every pair's path extends `prefix` by a key of `items` and, possibly, more keys. */
  lemma {:induction false} FlatPathShape<K, V>(prefix: seq<K>, items: seq<(K, Tree<K, V>)>, n: nat)
    requires n < |Flat(prefix, items)|
    ensures |Flat(prefix, items)[n].0| > |prefix|
    ensures Flat(prefix, items)[n].0[..|prefix|] == prefix
    ensures exists i :: 0 <= i < |items| && items[i].0 == Flat(prefix, items)[n].0[|prefix|]
    decreases Size(items)
  {
    assert Size(items) == EntrySize(items[0]) + Size(items[1..]);
    var k := items[0].0;
    var head := match items[0].1
      case Leaf(v) => [(prefix + [k], v)]
      case Node(sub) => Flat(prefix + [k], sub);
    assert Flat(prefix, items) == head + Flat(prefix, items[1..]);
    if n < |head| {
      match items[0].1 {
        case Leaf(_) =>
        case Node(sub) =>
          FlatPathShape(prefix + [k], sub, n);
          var p := head[n].0;
          assert p[..|prefix| + 1][..|prefix|] == p[..|prefix|];
          assert p[|prefix|] == p[..|prefix| + 1][|prefix|];
      }
      assert items[0].0 == Flat(prefix, items)[n].0[|prefix|];
    } else {
      FlatPathShape(prefix, items[1..], n - |head|);
      var i :| 0 <= i < |items[1..]| && items[1..][i].0 == Flat(prefix, items)[n].0[|prefix|];
      assert items[i + 1].0 == Flat(prefix, items)[n].0[|prefix|];
    }
  }

  /** No two pairs of the list share a path. */
  ghost predicate DistinctPaths<K, V>(pairs: seq<(seq<K>, V)>)
  {
    forall i, j :: 0 <= i < j < |pairs| ==> pairs[i].0 != pairs[j].0
  }

  lemma DistinctConcat<K, V>(a: seq<(seq<K>, V)>, b: seq<(seq<K>, V)>)
    requires DistinctPaths(a) && DistinctPaths(b)
    requires forall i, j :: 0 <= i < |a| && 0 <= j < |b| ==> a[i].0 != b[j].0
    ensures DistinctPaths(a + b)
  {
    var all := a + b;
    forall i, j | 0 <= i < j < |all| ensures all[i].0 != all[j].0 {
      if j < |a| {
        assert all[i] == a[i] && all[j] == a[j];
      } else if i >= |a| {
        assert all[i] == b[i - |a|] && all[j] == b[j - |a|];
      } else {
        assert all[i] == a[i] && all[j] == b[j - |a|];
      }
    }
  }

  /** The paths below key `k` carry `k` right after the prefix. */
  lemma SubtreePathKey<K, V>(prefix: seq<K>, k: K, sub: seq<(K, Tree<K, V>)>, n: nat)
    requires n < |Flat(prefix + [k], sub)|
    ensures |Flat(prefix + [k], sub)[n].0| > |prefix|
    ensures Flat(prefix + [k], sub)[n].0[|prefix|] == k
  {
    FlatPathShape(prefix + [k], sub, n);
    var p := Flat(prefix + [k], sub)[n].0;
    assert p[|prefix|] == p[..|prefix| + 1][|prefix|];
  }

  /** With the keys of a real dict, every leaf has its own key path. */
  lemma {:induction false} FlatDistinct<K, V>(prefix: seq<K>, items: seq<(K, Tree<K, V>)>)
    requires UniqueKeys(items)
    ensures DistinctPaths(Flat(prefix, items))
    decreases Size(items)
  {
    if items != [] {
      assert Size(items) == EntrySize(items[0]) + Size(items[1..]);
      var k := items[0].0;
      var head := match items[0].1
        case Leaf(v) => [(prefix + [k], v)]
        case Node(sub) => Flat(prefix + [k], sub);
      var tail := Flat(prefix, items[1..]);
      assert Flat(prefix, items) == head + tail;
      FlatDistinct(prefix, items[1..]);
      match items[0].1 {
        case Leaf(_) =>
        case Node(sub) => FlatDistinct(prefix + [k], sub);
      }
      // A path from the first item carries its key at position |prefix|; no path from the
      // other items does.
      forall i, j | 0 <= i < |head| && 0 <= j < |tail| ensures head[i].0 != tail[j].0 {
        FlatPathShape(prefix, items[1..], j);
        var m :| 0 <= m < |items[1..]| && items[1..][m].0 == tail[j].0[|prefix|];
        assert items[m + 1].0 != k;
        match items[0].1 {
          case Leaf(_) =>
          case Node(sub) => SubtreePathKey(prefix, k, sub, i);
        }
      }
      DistinctConcat(head, tail);
    }
  }

  /** An empty sub-dict, inserted anywhere among the items, adds nothing to the
      flattening, so its key is never looked at. */
  lemma FlatIgnoresEmptySubdict<K, V>(prefix: seq<K>, a: seq<(K, Tree<K, V>)>, k: K, b: seq<(K, Tree<K, V>)>)
    ensures Flat(prefix, a + [(k, Node([]))] + b) == Flat(prefix, a + b)
  {
    var single: seq<(K, Tree<K, V>)> := [(k, Node([]))];
    var e: seq<(K, Tree<K, V>)> := [];
    FlatOne(prefix, single[0]);
    assert Flat(prefix, single) == [] by {
      assert Flat(prefix + [k], e) == [];
    }
    FlatAppend(prefix, a, single);
    assert Flat(prefix, a + single) == Flat(prefix, a);
    FlatAppend(prefix, a + single, b);
    FlatAppend(prefix, a, b);
  }

  /** The doctest of `flatten_dict`: `{'a': 1, 'b': {'c': 2}, 'd': {}}` flattens to
      `[(['a'], 1), (['b', 'c'], 2)]`. */
  lemma FlatDoctest()
    ensures Flat([], [("a", Leaf(1)), ("b", Node([("c", Leaf(2))])), ("d", Node([]))])
         == [(["a"], 1), (["b", "c"], 2)]
  {
    var d: seq<(string, Tree<string, int>)> := [("a", Leaf(1)), ("b", Node([("c", Leaf(2))])), ("d", Node([]))];
    var p: seq<string> := [];
    assert d == [("a", Leaf(1)), ("b", Node([("c", Leaf(2))]))] + [("d", Node([]))] + [];
    FlatIgnoresEmptySubdict(p, [("a", Leaf(1)), ("b", Node([("c", Leaf(2))]))], "d", []);
    var ab: seq<(string, Tree<string, int>)> := [("a", Leaf(1)), ("b", Node([("c", Leaf(2))]))];
    assert ab + [] == ab;
    assert ab[1..] == [("b", Node([("c", Leaf(2))]))];
    var bc: seq<(string, Tree<string, int>)> := [("c", Leaf(2))];
    assert Flat(["b"], bc) == [(["b", "c"], 2)] by {
      assert bc[1..] == [];
      assert ["b"] + ["c"] == ["b", "c"];
    }
    assert Flat(p, ab[1..]) == [(["b", "c"], 2)] by {
      assert ab[1..][1..] == [];
      assert p + ["b"] == ["b"];
    }
    assert p + ["a"] == ["a"];
  }

  // ---------------------------------------------------------------------------------
  // flatten_filesystem_dict

  /** The `ValueError` of `flatten_filesystem_dict`: the offending key and the keys above
      it, which its message prints as `d['k1']['k2']…`. */
  datatype InvalidKey = InvalidKey(key: string, parents: seq<string>)

  /** The index of the first key of `keys` that fails `might_be_valid_filename`, or `|keys|`. */
  function FirstInvalid(keys: seq<string>): (i: nat)
    ensures i <= |keys|
    ensures forall j :: 0 <= j < i ==> Filenames.MightBeValidFilename(keys[j])
    ensures i < |keys| ==> !Filenames.MightBeValidFilename(keys[i])
  {
    if keys == [] then 0
    else if !Filenames.MightBeValidFilename(keys[0]) then 0
    else 1 + FirstInvalid(keys[1..])
  }

  /** The outer loop of `flatten_filesystem_dict` over the flattened pairs: the first pair
      with an invalid key raises, every other pair is stored under its `/`-joined path. */
  function FsFold<V>(pairs: seq<(seq<string>, V)>, acc: map<string, V>): Result<map<string, V>, InvalidKey>
    decreases |pairs|
  {
    if pairs == [] then Ok(acc)
    else
      var keys := pairs[0].0;
      var i := FirstInvalid(keys);
      if i < |keys| then Err(InvalidKey(keys[i], keys[..i]))
      else FsFold(pairs[1..], acc[Strings.Join(keys, '/') := pairs[0].1])
  }

  /** `flatten_filesystem_dict` as a value. */
  function FlattenFs<V>(d: seq<(string, Tree<string, V>)>): Result<map<string, V>, InvalidKey>
  {
    FsFold(Flat([], d), map[])
  }

  /** `flatten_filesystem_dict`: checks each key of each flattened path in turn and fills
      the result dict. */
  method FlattenFilesystemDict<V>(d: seq<(string, Tree<string, V>)>) returns (r: Result<map<string, V>, InvalidKey>)
    ensures r == FlattenFs(d)
  {
    var pairs := FlattenDict(d);
    var result: map<string, V> := map[];
    var n := 0;
    while n < |pairs|
      invariant 0 <= n <= |pairs|
      invariant FsFold(pairs[n..], result) == FsFold(pairs, map[])
    {
      var keyList := pairs[n].0;
      var i := 0;
      while i < |keyList|
        invariant 0 <= i <= |keyList|
        invariant forall j :: 0 <= j < i ==> Filenames.MightBeValidFilename(keyList[j])
      {
        if !Filenames.MightBeValidFilename(keyList[i]) {
          assert FirstInvalid(keyList) == i by { FirstInvalidAt(keyList, i); }
          return Err(InvalidKey(keyList[i], keyList[..i]));
        }
        i := i + 1;
      }
      assert FirstInvalid(keyList) == |keyList| by { FirstInvalidAt(keyList, |keyList|); }
      assert pairs[n..][1..] == pairs[n + 1..];
      result := result[Strings.Join(keyList, '/') := pairs[n].1];
      n := n + 1;
    }
    return Ok(result);
  }

  lemma {:induction false} FirstInvalidAt(keys: seq<string>, i: nat)
    requires i <= |keys|
    requires forall j :: 0 <= j < i ==> Filenames.MightBeValidFilename(keys[j])
    requires i < |keys| ==> !Filenames.MightBeValidFilename(keys[i])
    ensures FirstInvalid(keys) == i
  {
    if i > 0 {
      FirstInvalidAt(keys[1..], i - 1);
    }
  }

  /** Every key on every path of the list passes `might_be_valid_filename`. */
  ghost predicate AllKeysValid<V>(pairs: seq<(seq<string>, V)>)
  {
    forall n, i :: 0 <= n < |pairs| && 0 <= i < |pairs[n].0| ==>
      Filenames.MightBeValidFilename(pairs[n].0[i])
  }

  /** The fold raises exactly when some key on some path is invalid, and then it reports the
      first invalid key of the first such path, with the keys above it. */
  lemma {:induction false} FsFoldErr<V>(pairs: seq<(seq<string>, V)>, acc: map<string, V>)
    ensures FsFold(pairs, acc).Err? <==> !AllKeysValid(pairs)
    ensures FsFold(pairs, acc).Err? ==>
      exists n :: 0 <= n < |pairs| && AllKeysValid(pairs[..n]) &&
        var i := FirstInvalid(pairs[n].0);
        i < |pairs[n].0| && FsFold(pairs, acc).error == InvalidKey(pairs[n].0[i], pairs[n].0[..i])
    decreases |pairs|
  {
    if pairs != [] {
      var keys := pairs[0].0;
      var i := FirstInvalid(keys);
      if i < |keys| {
        assert AllKeysValid(pairs[..0]);
      } else {
        FsFoldErr(pairs[1..], acc[Strings.Join(keys, '/') := pairs[0].1]);
        if AllKeysValid(pairs[1..]) {
          forall n, j | 0 <= n < |pairs| && 0 <= j < |pairs[n].0|
            ensures Filenames.MightBeValidFilename(pairs[n].0[j])
          {
            if n > 0 { assert pairs[n] == pairs[1..][n - 1]; }
          }
        } else {
          var n, j :| 0 <= n < |pairs[1..]| && 0 <= j < |pairs[1..][n].0| &&
            !Filenames.MightBeValidFilename(pairs[1..][n].0[j]);
          assert pairs[n + 1] == pairs[1..][n];
          var m :| 0 <= m < |pairs[1..]| && AllKeysValid(pairs[1..][..m]) &&
            var i := FirstInvalid(pairs[1..][m].0);
            i < |pairs[1..][m].0| &&
            FsFold(pairs[1..], acc[Strings.Join(keys, '/') := pairs[0].1]).error ==
              InvalidKey(pairs[1..][m].0[i], pairs[1..][m].0[..i]);
          assert pairs[m + 1] == pairs[1..][m];
          var firstM := pairs[..m + 1];
          forall n' | 0 <= n' < m + 1
            ensures forall j' :: 0 <= j' < |firstM[n'].0| ==>
              Filenames.MightBeValidFilename(firstM[n'].0[j'])
          {
            if n' > 0 { assert firstM[n'] == pairs[1..][..m][n' - 1]; }
          }
        }
      }
    }
  }

  /** All paths of the list, joined with `/`. */
  function JoinedPaths<V>(pairs: seq<(seq<string>, V)>): set<string>
  {
    set n | 0 <= n < |pairs| :: Strings.Join(pairs[n].0, '/')
  }

  lemma JoinedPathsCons<V>(pairs: seq<(seq<string>, V)>)
    requires pairs != []
    ensures JoinedPaths(pairs) == {Strings.Join(pairs[0].0, '/')} + JoinedPaths(pairs[1..])
  {
    var key := Strings.Join(pairs[0].0, '/');
    forall x | x in JoinedPaths(pairs) ensures x in {key} + JoinedPaths(pairs[1..]) {
      var n :| 0 <= n < |pairs| && x == Strings.Join(pairs[n].0, '/');
      if n > 0 { assert pairs[n] == pairs[1..][n - 1]; }
    }
    forall x | x in JoinedPaths(pairs[1..]) ensures x in JoinedPaths(pairs) {
      var n :| 0 <= n < |pairs[1..]| && x == Strings.Join(pairs[1..][n].0, '/');
      assert pairs[1..][n] == pairs[n + 1];
    }
  }

  /** On success the fold adds one key per path, the `/`-joined path, and a path that occurs
      once is stored with its own value. */
  lemma {:induction false} FsFoldOk<V>(pairs: seq<(seq<string>, V)>, acc: map<string, V>)
    requires FsFold(pairs, acc).Ok?
    ensures FsFold(pairs, acc).value.Keys == acc.Keys + JoinedPaths(pairs)
    ensures forall n :: (0 <= n < |pairs| &&
      (forall m :: n < m < |pairs| ==> Strings.Join(pairs[m].0, '/') != Strings.Join(pairs[n].0, '/'))) ==>
      FsFold(pairs, acc).value[Strings.Join(pairs[n].0, '/')] == pairs[n].1
    decreases |pairs|
  {
    if pairs != [] {
      var key := Strings.Join(pairs[0].0, '/');
      var acc' := acc[key := pairs[0].1];
      FsFoldOk(pairs[1..], acc');
      assert FsFold(pairs, acc) == FsFold(pairs[1..], acc');
      JoinedPathsCons(pairs);
      forall n | 0 <= n < |pairs| &&
        (forall m :: n < m < |pairs| ==> Strings.Join(pairs[m].0, '/') != Strings.Join(pairs[n].0, '/'))
        ensures FsFold(pairs, acc).value[Strings.Join(pairs[n].0, '/')] == pairs[n].1
      {
        if n == 0 {
          assert key !in JoinedPaths(pairs[1..]);
          FsFoldKeeps(pairs[1..], acc', key);
        } else {
          assert pairs[n] == pairs[1..][n - 1];
          forall m | n - 1 < m < |pairs[1..]|
            ensures Strings.Join(pairs[1..][m].0, '/') != Strings.Join(pairs[1..][n - 1].0, '/')
          {
            assert pairs[1..][m] == pairs[m + 1];
          }
        }
      }
    }
  }

  /** A key that no later path produces keeps the value it has in the accumulator. */
  lemma {:induction false} FsFoldKeeps<V>(pairs: seq<(seq<string>, V)>, acc: map<string, V>, key: string)
    requires FsFold(pairs, acc).Ok?
    requires key in acc && key !in JoinedPaths(pairs)
    ensures key in FsFold(pairs, acc).value && FsFold(pairs, acc).value[key] == acc[key]
    decreases |pairs|
  {
    if pairs != [] {
      var k0 := Strings.Join(pairs[0].0, '/');
      JoinedPathsCons(pairs);
      FsFoldKeeps(pairs[1..], acc[k0 := pairs[0].1], key);
    }
  }

  /** `flatten_filesystem_dict` raises exactly when some key on the path of some non-dict
      value is not a valid file name; the error names the first such key in flattening
      order, with the keys above it. */
  lemma FlattenFsErr<V>(d: seq<(string, Tree<string, V>)>)
    ensures FlattenFs(d).Err? <==> !AllKeysValid(Flat([], d))
    ensures FlattenFs(d).Err? ==>
      var pairs := Flat([], d);
      exists n :: 0 <= n < |pairs| && AllKeysValid(pairs[..n]) &&
        var i := FirstInvalid(pairs[n].0);
        i < |pairs[n].0| && FlattenFs(d).error == InvalidKey(pairs[n].0[i], pairs[n].0[..i])
  {
    FsFoldErr(Flat([], d), map[]);
  }

  /** Valid keys hold no `/` and leaf paths are never empty, so distinct leaf paths join to
      distinct flat keys. */
  lemma JoinsDistinct<V>(pairs: seq<(seq<string>, V)>)
    requires AllKeysValid(pairs) && DistinctPaths(pairs)
    requires forall n :: 0 <= n < |pairs| ==> |pairs[n].0| >= 1
    ensures forall n, m :: 0 <= n < m < |pairs| ==>
      Strings.Join(pairs[n].0, '/') != Strings.Join(pairs[m].0, '/')
  {
    forall n | 0 <= n < |pairs| ensures Strings.NoneContains(pairs[n].0, '/') {
      forall i | 0 <= i < |pairs[n].0| ensures '/' !in pairs[n].0[i] {
        Filenames.ValidFilenameHasNoSlash(pairs[n].0[i]);
      }
    }
    forall n, m | 0 <= n < m < |pairs|
      ensures Strings.Join(pairs[n].0, '/') != Strings.Join(pairs[m].0, '/')
    {
      if Strings.Join(pairs[n].0, '/') == Strings.Join(pairs[m].0, '/') {
        Strings.JoinInjective(pairs[n].0, pairs[m].0, '/');
      }
    }
  }

  lemma {:induction false} JoinedPathsCount<V>(pairs: seq<(seq<string>, V)>)
    requires forall n, m :: 0 <= n < m < |pairs| ==>
      Strings.Join(pairs[n].0, '/') != Strings.Join(pairs[m].0, '/')
    ensures |JoinedPaths(pairs)| == |pairs|
    decreases |pairs|
  {
    if pairs != [] {
      var key := Strings.Join(pairs[0].0, '/');
      var rest := pairs[1..];
      forall n, m | 0 <= n < m < |rest|
        ensures Strings.Join(rest[n].0, '/') != Strings.Join(rest[m].0, '/')
      {
        assert rest[n] == pairs[n + 1] && rest[m] == pairs[m + 1];
      }
      JoinedPathsCount(rest);
      JoinedPathsCons(pairs);
      assert key !in JoinedPaths(rest);
    }
  }

  /** When `flatten_filesystem_dict` succeeds on a real dict, the result has one entry per
      non-dict value, keyed by its `/`-joined key path and holding that value. */
  lemma FlattenFsOk<V>(d: seq<(string, Tree<string, V>)>)
    requires UniqueKeys(d)
    requires FlattenFs(d).Ok?
    ensures var pairs := Flat([], d);
      var m := FlattenFs(d).value;
      |m| == LeafCount(d) && m.Keys == JoinedPaths(pairs) &&
      forall n :: 0 <= n < |pairs| ==> m[Strings.Join(pairs[n].0, '/')] == pairs[n].1
  {
    var pairs: seq<(seq<string>, V)> := Flat([], d);
    FsFoldErr(pairs, map[]);
    FlatDistinct([], d);
    forall n | 0 <= n < |pairs| ensures |pairs[n].0| >= 1 {
      FlatPathShape([], d, n);
    }
    JoinsDistinct(pairs);
    FsFoldOk(pairs, map[]);
    JoinedPathsCount(pairs);
    FlatLength([], d);
  }

  /** The key of an empty sub-dict is never checked: inserting such an entry anywhere,
      whatever its key, does not change the outcome. */
  lemma FlattenFsIgnoresEmptySubdict<V>(a: seq<(string, Tree<string, V>)>, k: string, b: seq<(string, Tree<string, V>)>)
    ensures FlattenFs(a + [(k, Node([]))] + b) == FlattenFs(a + b)
  {
    FlatIgnoresEmptySubdict([], a, k, b);
  }

  /** The flattened pairs of the doctest of `flatten_filesystem_dict`. */
  lemma FlatFsDoctest()
    ensures Flat([], [("file1.txt", Leaf("111")), ("dir1", Node([("file2.txt", Leaf("222"))]))])
         == [(["file1.txt"], "111"), (["dir1", "file2.txt"], "222")]
  {
    var sub: seq<(string, Tree<string, string>)> := [("file2.txt", Leaf("222"))];
    var d: seq<(string, Tree<string, string>)> := [("file1.txt", Leaf("111")), ("dir1", Node(sub))];
    var e: seq<string> := [];
    assert Flat(["dir1"], sub) == [(["dir1", "file2.txt"], "222")] by {
      assert sub[1..] == [];
      assert ["dir1"] + ["file2.txt"] == ["dir1", "file2.txt"];
    }
    assert Flat(e, d[1..]) == [(["dir1", "file2.txt"], "222")] by {
      assert d[1..][1..] == [];
      assert e + ["dir1"] == ["dir1"];
    }
    assert e + ["file1.txt"] == ["file1.txt"];
  }

  /** A file beside a directory holding one file: the result has the file under its own
      name and the inner file under its `/`-joined path. */
  lemma FlattenFsTwoLevels<V>(f1: string, dir: string, f2: string, v1: V, v2: V)
    requires Filenames.MightBeValidFilename(f1)
    requires Filenames.MightBeValidFilename(dir)
    requires Filenames.MightBeValidFilename(f2)
    ensures FlattenFs([(f1, Leaf(v1)), (dir, Node([(f2, Leaf(v2))]))]) ==
      Ok(map[f1 := v1, dir + "/" + f2 := v2])
  {
    var sub: seq<(string, Tree<string, V>)> := [(f2, Leaf(v2))];
    var d: seq<(string, Tree<string, V>)> := [(f1, Leaf(v1)), (dir, Node(sub))];
    var e: seq<string> := [];
    var k1: seq<string> := [f1];
    var k2: seq<string> := [dir, f2];
    // The inner file's key holds a `/`, which a valid name cannot.
    assert (dir + "/" + f2)[|dir|] == '/';
    assert f1 != dir + "/" + f2;
    assert Flat([dir], sub) == [(k2, v2)] by {
      assert sub[1..] == [];
      assert [dir] + [f2] == k2;
    }
    assert Flat(e, d[1..]) == [(k2, v2)] by {
      assert d[1..][1..] == [];
      assert e + [dir] == [dir];
    }
    assert e + [f1] == k1;
    var pairs := [(k1, v1), (k2, v2)];
    assert Flat(e, d) == pairs;
    FirstInvalidAt(k1, 1);
    FirstInvalidAt(k2, 2);
    assert Strings.Join(k1, '/') == f1;
    assert Strings.Join(k2, '/') == dir + "/" + f2 by {
      assert k2[1..] == [f2];
    }
    var m1 := map[f1 := v1];
    var m2 := m1[dir + "/" + f2 := v2];
    assert FsFold(pairs, map[]) == FsFold(pairs[1..], m1);
    assert pairs[1..][0] == (k2, v2) && pairs[1..][1..] == [];
    assert FsFold(pairs[1..], m1) == FsFold([], m2);
  }

  // The keys of the doctest are valid file names.

  lemma File1Valid()
    ensures Filenames.MightBeValidFilename("file1.txt")
  {
    Filenames.KeptIsValid("file1.txt");
  }

  lemma Dir1Valid()
    ensures Filenames.MightBeValidFilename("dir1")
  {
    Filenames.KeptIsValid("dir1");
  }

  lemma File2Valid()
    ensures Filenames.MightBeValidFilename("file2.txt")
  {
    Filenames.KeptIsValid("file2.txt");
  }

  /** The doctest of `flatten_filesystem_dict`: `{'file1.txt': '111', 'dir1':
      {'file2.txt': '222'}}` gives `{'file1.txt': '111', 'dir1/file2.txt': '222'}`. */
  lemma FlattenFsDoctest(d: seq<(string, Tree<string, string>)>)
    requires d == [("file1.txt", Leaf("111")), ("dir1", Node([("file2.txt", Leaf("222"))]))]
    ensures FlattenFs(d) == Ok(map["file1.txt" := "111", "dir1/file2.txt" := "222"])
  {
    assert "dir1" + "/" + "file2.txt" == "dir1/file2.txt";
    File1Valid();
    File2Valid();
    Dir1Valid();
    FlattenFsTwoLevels("file1.txt", "dir1", "file2.txt", "111", "222");
  }

  /** A key holding a path separator is refused, reported with its (empty) list of parent
      keys. */
  lemma FlattenFsRejectsSlash<V>(v: V)
    ensures FlattenFs([("sub/x", Leaf(v))]) == Err(InvalidKey("sub/x", []))
  {
    assert "sub/x"[3] == '/';
    assert !Filenames.MightBeValidFilename("sub/x");
    var d: seq<(string, Tree<string, V>)> := [("sub/x", Leaf(v))];
    assert d[1..] == [];
    var e: seq<string> := [];
    assert Flat(e, d) == [(["sub/x"], v)] by { assert e + ["sub/x"] == ["sub/x"]; }
    assert FirstInvalid(["sub/x"]) == 0;
  }
}
