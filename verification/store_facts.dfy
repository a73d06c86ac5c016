/** Properties of the current store (yaml_manager/file_controller.py) that
    relate several calls, or a call to the path reference in Paths. */
module StoreFacts {

  import opened Wrappers
  import opened Values
  import opened Paths
  import opened Text
  import opened Store

  // -----------------------------------------------------------------------
  // Reading back what `set` wrote

  /** Below a chain of at least |q| + 1 keys, a path of |q| segments never
      resolves to the chain's leaf. */
  lemma {:induction false} ShortLookupMissesLeaf(keys: seq<string>, q: seq<string>, v: Value)
    requires 1 <= |q| < |keys|
    ensures Lookup(Wrap(keys, v).entries, q) != Some(v)
    decreases |q|
  {
    var m := Wrap(keys, v).entries;
    if q[0] in m {
      assert q[0] == keys[0];
      if |q| == 1 {
        WrapNotLeaf(keys[1..], v);
      } else {
        ShortLookupMissesLeaf(keys[1..], q[1..], v);
      }
    }
  }

  /** One segment of a lookup through a mapping. */
  lemma LookupStep(d: Data, tree: seq<string>)
    requires |tree| > 1 && tree[0] in d && d[tree[0]].VMap?
    ensures Lookup(d, tree) == Lookup(d[tree[0]].entries, tree[1..])
  {
  }

  /** A key created by `__create_new_key` reads back only for paths of at
      most two segments. */
  lemma CreatedKeyReadBack(d: Data, tree: seq<string>, v: Value)
    requires |tree| >= 1
    ensures Lookup(d[tree[0] := CreateNewKey(tree, v)], tree) == Some(v) <==> |tree| <= 2
  {
    var d' := d[tree[0] := CreateNewKey(tree, v)];
    if |tree| == 2 {
      assert CreateNewKey(tree, v) == VMap(map[tree[1] := v]);
      LookupStep(d', tree);
    } else if |tree| >= 3 {
      var keys := [tree[1]] + tree[1..];
      assert CreateNewKey(tree, v) == Wrap(keys, v);
      assert Wrap(keys, v).VMap?;
      LookupStep(d', tree);
      ShortLookupMissesLeaf(keys, tree[1..], v);
    }
  }

  /** The round trip of the current version: a non-None value written by
      `set` reads back exactly when at most two segments of the path had to
      be created or replaced; from three on, the doubled segment hides it. */
  lemma {:induction false} SetThenLookup(d: Data, tree: seq<string>, v: Value)
    requires |tree| >= 1 && v != VNull
    ensures Lookup(UpdateDict(tree, d, v).dict, tree) == Some(v) <==> |tree| - Reach(d, tree) <= 2
    decreases |tree|
  {
    var k := tree[0];
    if k !in d || |tree| == 1 || !d[k].VMap? {
      FreshSegmentWrite(d, tree, v);
      CreatedKeyReadBack(d, tree, v);
    } else {
      SetThenLookup(d[k].entries, tree[1..], v);
      MappingSegmentWrite(d, tree, v);
    }
  }

  /** Where the first segment is missing, last, or held by a non-mapping,
      `set` puts the new key's sub-tree there and nothing resolves further. */
  lemma FreshSegmentWrite(d: Data, tree: seq<string>, v: Value)
    requires |tree| >= 1 && v != VNull
    requires tree[0] !in d || |tree| == 1 || !d[tree[0]].VMap?
    ensures UpdateDict(tree, d, v).dict == d[tree[0] := CreateNewKey(tree, v)]
    ensures Reach(d, tree) == 0
  {
  }

  /** Through a mapping, `set` and the lookup both descend one segment. */
  lemma MappingSegmentWrite(d: Data, tree: seq<string>, v: Value)
    requires |tree| > 1 && v != VNull && tree[0] in d && d[tree[0]].VMap?
    ensures Lookup(UpdateDict(tree, d, v).dict, tree)
            == Lookup(UpdateDict(tree[1..], d[tree[0]].entries, v).dict, tree[1..])
    ensures Reach(d, tree) == 1 + Reach(d[tree[0]].entries, tree[1..])
  {
    var k := tree[0];
    var sub := UpdateDict(tree[1..], d[k].entries, v);
    assert !sub.raised && tree[1] in sub.dict;
    assert |sub.dict| != 0 by {
      assert tree[1] in sub.dict.Keys;
    }
    var r := d[k := VMap(sub.dict)];
    assert UpdateExistingKey(tree, d, v) == Assign(r, VMap(sub.dict));
    assert UpdateDict(tree, d, v).dict == r;
    LookupStep(r, tree);
  }

  /** `get` right after `set` with a non-None value, as the getters see it. */
  lemma SetThenGet(d: Data, tree: seq<string>, v: Value)
    requires |tree| >= 1 && v != VNull && |tree| - Reach(d, tree) <= 2
    ensures HandleGet(tree, UpdateDict(tree, d, v).dict, VNull).value == v
  {
    SetThenLookup(d, tree, v);
  }

  /** The concrete case: "a.b.c" written into an empty store lands at
      "a.b.b.c", and reading "a.b.c" finds nothing. */
  lemma FreshThreeSegmentsDoubled()
    ensures UpdateDict(["a", "b", "c"], map[], VStr("x")).dict
            == map["a" := VMap(map["b" := VMap(map["b" := VMap(map["c" := VStr("x")])])])]
    ensures HandleGet(["a", "b", "c"], UpdateDict(["a", "b", "c"], map[], VStr("x")).dict, VNull).value == VNull
  {
  }

  /** Writing "a.b.c" a second time finds "a.b" and adds "c" beside the
      doubled "b": the store is not idempotent under `set`, and only now does
      "a.b.c" read back. */
  lemma FreshThreeSegmentsSecondWrite()
    ensures UpdateDict(["a", "b", "c"], UpdateDict(["a", "b", "c"], map[], VStr("x")).dict, VStr("x")).dict
            == map["a" := VMap(map["b" := VMap(map["b" := VMap(map["c" := VStr("x")]), "c" := VStr("x")])])]
  {
    FreshThreeSegmentsDoubled();
    SecondWriteMiddle();
    var tree: seq<string> := ["a", "b", "c"];
    assert tree[1..] == ["b", "c"];
  }

  lemma SecondWriteMiddle()
    ensures UpdateDict(["b", "c"], map["b" := VMap(map["b" := VMap(map["c" := VStr("x")])])], VStr("x"))
            == Edit(map["b" := VMap(map["b" := VMap(map["c" := VStr("x")]), "c" := VStr("x")])], false)
  {
    var tree: seq<string> := ["b", "c"];
    assert tree[1..] == ["c"];
    var inner := map["b" := VMap(map["c" := VStr("x")])];
    assert UpdateDict(["c"], inner, VStr("x")) == Edit(inner["c" := VStr("x")], false);
  }

  /** ... and only after the second write does "a.b.c" read back. */
  lemma FreshThreeSegmentsSecondRead()
    ensures Lookup(map["a" := VMap(map["b" := VMap(map["b" := VMap(map["c" := VStr("x")]), "c" := VStr("x")])])],
                   ["a", "b", "c"]) == Some(VStr("x"))
  {
  }

  /** Setting "a.b" and then "a" to a non-mapping: "a" reads the new value
      and "a.b" no longer resolves. */
  lemma OverwriteParent(d: Data, x: Value, y: Value)
    requires x != VNull && y != VNull && !y.VMap?
    ensures var once := UpdateDict(["a", "b"], d, x).dict;
            var twice := UpdateDict(["a"], once, y).dict;
            Lookup(twice, ["a"]) == Some(y) && Lookup(twice, ["a", "b"]) == None
  {
  }

  // -----------------------------------------------------------------------
  // Deleting

  /** Setting None on a path that resolves changes nothing: the popped value is
      assigned straight back. */
  lemma {:induction false} DeleteLeafUndone(d: Data, tree: seq<string>)
    requires |tree| >= 1 && WalkPath(d, tree).Found?
    ensures UpdateDict(tree, d, VNull) == Edit(d, false)
    decreases |tree|
  {
    var k := tree[0];
    if |tree| > 1 {
      DeleteLeafUndone(d[k].entries, tree[1..]);
      assert d[k := VMap(d[k].entries)] == d;
    }
  }

  /** Some proper prefix of `tree` resolves to an empty mapping. */
  predicate PrefixEmpty(d: Data, tree: seq<string>)
    requires |tree| >= 1
    decreases |tree|
  {
    |tree| > 1 && tree[0] in d && d[tree[0]].VMap?
    && (|d[tree[0]].entries| == 0 || PrefixEmpty(d[tree[0]].entries, tree[1..]))
  }

  /** The prune branch is reached, and raises KeyError, exactly when None is
      set below an empty mapping; the empty mapping has been deleted by then,
      so the path no longer resolves that far. */
  lemma {:induction false} PruneBranchRaises(d: Data, tree: seq<string>, v: Value)
    requires |tree| >= 1
    ensures UpdateDict(tree, d, v).raised <==> v == VNull && PrefixEmpty(d, tree)
    ensures UpdateDict(tree, d, v).raised ==> WalkPath(UpdateDict(tree, d, v).dict, tree).Missing?
    decreases |tree|
  {
    var k := tree[0];
    if k in d && |tree| > 1 && d[k].VMap? {
      PruneBranchRaises(d[k].entries, tree[1..], v);
    }
  }

  /** {"a": {}} with "a.b" set to None: KeyError, and "a" is gone. */
  lemma PruneExample()
    ensures Set(map["a" := VMap(map[])], VStr("a.b"), VNull) == Step(map[], Err(KeyError))
  {
    assert Split("a.b") == ["a", "b"] by {
      SplitJoin(["a", "b"]);
    }
  }

  /** On a tree with no empty mapping below the root, `set` never raises. */
  lemma {:induction false} PrunedNeverEmptyPrefix(d: Data, tree: seq<string>)
    requires |tree| >= 1 && PrunedMap(d)
    ensures !PrefixEmpty(d, tree)
    decreases |tree|
  {
    var k := tree[0];
    if |tree| > 1 && k in d && d[k].VMap? {
      assert PrunedValue(d[k]);
      PrunedNeverEmptyPrefix(d[k].entries, tree[1..]);
    }
  }

  lemma PrunedSetNeverRaises(d: Data, tree: seq<string>, v: Value)
    requires |tree| >= 1 && PrunedMap(d)
    ensures !UpdateDict(tree, d, v).raised
  {
    PrunedNeverEmptyPrefix(d, tree);
    PruneBranchRaises(d, tree, v);
  }

  lemma PrunedUpdate(d: Data, k: string, x: Value)
    requires PrunedMap(d) && PrunedValue(x)
    ensures PrunedMap(d[k := x])
  {
  }

  lemma CreateNewKeyPruned(tree: seq<string>, v: Value)
    requires |tree| >= 1 && PrunedValue(v)
    ensures PrunedValue(CreateNewKey(tree, v))
  {
    if |tree| >= 2 {
      WrapPruned(tree[1..], v);
      WrapPruned([tree[1]] + tree[1..], v);
    }
  }

  /** A completed `set` of a value without empty mappings keeps every mapping
      below the root non-empty. */
  lemma {:induction false} SetKeepsPruned(d: Data, tree: seq<string>, v: Value)
    requires |tree| >= 1 && PrunedMap(d) && PrunedValue(v)
    ensures !UpdateDict(tree, d, v).raised
    ensures PrunedMap(UpdateDict(tree, d, v).dict)
    decreases |tree|
  {
    PrunedSetNeverRaises(d, tree, v);
    var k := tree[0];
    var r := UpdateDict(tree, d, v).dict;
    if k !in d {
      if v != VNull {
        CreateNewKeyPruned(tree, v);
        PrunedUpdate(d, k, CreateNewKey(tree, v));
      }
    } else if |tree| == 1 {
      if v != VNull {
        PrunedUpdate(d, k, v);
      } else {
        assert r == d;
      }
    } else if !d[k].VMap? {
      CreateNewKeyPruned(tree, v);
      assert r == d[k := CreateNewKey(tree, v)];
      PrunedUpdate(d, k, CreateNewKey(tree, v));
    } else {
      assert PrunedValue(d[k]);
      var sub := UpdateDict(tree[1..], d[k].entries, v);
      SetKeepsPruned(d[k].entries, tree[1..], v);
      PrunedNeverEmptyPrefix(d, tree);
      assert |sub.dict| > 0 by {
        assert d[k].entries.Keys <= sub.dict.Keys;
        assert |d[k].entries| > 0;
        var j :| j in d[k].entries;
        assert j in sub.dict;
      }
      assert r == d[k := VMap(sub.dict)];
      PrunedUpdate(d, k, VMap(sub.dict));
    }
  }

  // -----------------------------------------------------------------------
  // The typed getters

  /** `int` on a path that resolves to an int: the int itself, no write. */
  lemma IntGetReadsInt(data: Data, key: Value, default: Value)
    requires ValidKeyAndDefault(key, default, IntType)
    requires WalkPath(data, Split(key.s)).Found? && WalkPath(data, Split(key.s)).value.VInt?
    ensures IntGet(data, key, default) == Step(data, Ok(Some(WalkPath(data, Split(key.s)).value.i)))
  {
    ReprAsInt(WalkPath(data, Split(key.s)).value);
  }

  /** `int` on a path that resolves to a string matching the pattern: the
      parsed string, no write. */
  lemma IntGetReadsText(data: Data, key: Value, default: Value)
    requires ValidKeyAndDefault(key, default, IntType)
    requires WalkPath(data, Split(key.s)).Found? && WalkPath(data, Split(key.s)).value.VStr?
    requires MatchesInt(WalkPath(data, Split(key.s)).value.s)
    ensures IntGet(data, key, default) == Step(data, Ok(Some(ParseInt(WalkPath(data, Split(key.s)).value.s))))
  {
    ReprAsInt(WalkPath(data, Split(key.s)).value);
  }

  /** `int` on a path that resolves to None: None, no write, even with a
      default. */
  lemma IntGetReadsNone(data: Data, key: Value, default: Value)
    requires ValidKeyAndDefault(key, default, IntType)
    requires WalkPath(data, Split(key.s)).Found? && WalkPath(data, Split(key.s)).value == VNull
    ensures IntGet(data, key, default) == Step(data, Ok(None))
  {
  }

  /** `int` on a stored value that does not look like an integer: the default
      overwrites it (as an int, not as text), or the result is None. */
  lemma IntGetOverwritesMismatch(data: Data, key: Value, default: Value)
    requires ValidKeyAndDefault(key, default, IntType)
    requires WalkPath(data, Split(key.s)).Found?
    requires WalkPath(data, Split(key.s)).value != VNull
    requires !MatchesInt(Repr(WalkPath(data, Split(key.s)).value))
    ensures default != VNull ==>
              IntGet(data, key, default)
              == Step(UpdateDict(Split(key.s), data, default).dict, Ok(Some(IntOf(default))))
    ensures default == VNull ==> IntGet(data, key, default) == Step(data, Ok(None))
  {
  }

  /** `int` on a missing path persists `str(default)` there and returns the
      default; a path blocked by a non-mapping gives None and writes nothing. */
  lemma IntGetPersistsDefault(data: Data, key: Value, default: Value)
    requires ValidKeyAndDefault(key, default, IntType)
    ensures WalkPath(data, Split(key.s)).Missing? && default.VInt? ==>
              IntGet(data, key, default)
              == Step(UpdateDict(Split(key.s), data, VStr(IntText(default.i))).dict, Ok(Some(default.i)))
    // a bool passes as an int: its text "True" or "False" is persisted, fails
    // the pattern, and is overwritten by the bool itself; `int(b)` is returned
    ensures WalkPath(data, Split(key.s)).Missing? && default.VBool? ==>
              IntGet(data, key, default)
              == Step(UpdateDict(Split(key.s), UpdateDict(Split(key.s), data, VStr(BoolText(default.b))).dict, default).dict,
                      Ok(Some(IntOf(default))))
    ensures WalkPath(data, Split(key.s)).Missing? && default == VNull ==>
              IntGet(data, key, default) == Step(data, Ok(None))
    ensures WalkPath(data, Split(key.s)).Blocked? ==> IntGet(data, key, default) == Step(data, Ok(None))
  {
    ReprAsInt(default);
    if default.VBool? {
      BoolTextReadsBack(default.b);
    }
  }

  /** `int("n", 5)` on an empty store returns 5 and stores the text "5". */
  lemma IntGetExample()
    ensures IntGet(map[], VStr("n"), VInt(5)) == Step(map["n" := VStr("5")], Ok(Some(5)))
  {
    SplitNoDot("n");
    IntGetPersistsDefault(map[], VStr("n"), VInt(5));
  }

  /** `boolean` reads a stored bool as is and a string through its lower-case
      form; a stored None gives None. */
  lemma BooleanGetReadsStored(data: Data, key: Value, default: Value)
    requires ValidKeyAndDefault(key, default, BoolType)
    requires WalkPath(data, Split(key.s)).Found?
    ensures var v := WalkPath(data, Split(key.s)).value;
            && (v != VNull ==> BooleanGet(data, key, default)
                               == Step(data, Ok(Some(v == VBool(true) || (v.VStr? && IsTrueText(v.s))))))
            && (v == VNull ==> BooleanGet(data, key, default) == Step(data, Ok(None)))
  {
    ReprAsBool(WalkPath(data, Split(key.s)).value);
  }

  /** `boolean` on a missing path persists "True" or "False"; with no default,
      or through a non-mapping, it gives None. */
  lemma BooleanGetPersistsDefault(data: Data, key: Value, default: Value)
    requires ValidKeyAndDefault(key, default, BoolType)
    ensures WalkPath(data, Split(key.s)).Missing? && default.VBool? ==>
              BooleanGet(data, key, default)
              == Step(UpdateDict(Split(key.s), data, VStr(BoolText(default.b))).dict, Ok(Some(default.b)))
    ensures WalkPath(data, Split(key.s)).Missing? && default == VNull ==>
              BooleanGet(data, key, default) == Step(data, Ok(None))
    ensures WalkPath(data, Split(key.s)).Blocked? ==> BooleanGet(data, key, default) == Step(data, Ok(None))
  {
    if default.VBool? {
      BoolTextReadsBack(default.b);
    }
  }

  lemma BooleanGetExample()
    ensures BooleanGet(map["flag" := VStr("TRUE")], VStr("flag"), VNull).result == Ok(Some(true))
    ensures BooleanGet(map["flag" := VStr("yes")], VStr("flag"), VNull).result == Ok(Some(false))
  {
    SplitNoDot("flag");
    BooleanGetReadsStored(map["flag" := VStr("TRUE")], VStr("flag"), VNull);
    BooleanGetReadsStored(map["flag" := VStr("yes")], VStr("flag"), VNull);
  }

  /** `bool_list`'s element rule, without the detour through `str()`. */
  lemma ItemTruthDirect(item: Value)
    ensures ItemTruth(item) <==> item == VBool(true) || (item.VStr? && IsTrueText(item.s))
  {
    ReprAsBool(item);
  }

  /** `ys` is `xs` read element by element as booleans. */
  predicate BoolsOf(xs: seq<Value>, ys: seq<Value>)
  {
    |ys| == |xs|
    && forall i | 0 <= i < |xs| :: ys[i] == VBool(xs[i] == VBool(true) || (xs[i].VStr? && IsTrueText(xs[i].s)))
  }

  lemma TruthsAreBools(xs: seq<Value>)
    ensures BoolsOf(xs, Truths(xs))
  {
    forall i | 0 <= i < |xs|
      ensures Truths(xs)[i] == VBool(xs[i] == VBool(true) || (xs[i].VStr? && IsTrueText(xs[i].s)))
    {
      ItemTruthDirect(xs[i]);
    }
  }

  /** `bool_list` on a stored list: each element coerced, nothing written. */
  lemma BoolListGetStored(data: Data, key: Value, default: Value)
    requires ValidKeyAndDefault(key, default, ListType)
    requires WalkPath(data, Split(key.s)).Found? && WalkPath(data, Split(key.s)).value.VList?
    ensures var r := BoolListGet(data, key, default);
            && r.data == data && r.result.Ok? && r.result.value.Some? && r.result.value.value.VList?
            && BoolsOf(WalkPath(data, Split(key.s)).value.items, r.result.value.value.items)
  {
    TruthsAreBools(WalkPath(data, Split(key.s)).value.items);
  }

  /** `bool_list` on a missing path: the default is written, then read back
      and coerced like a stored list. */
  lemma BoolListGetMissing(data: Data, key: Value, default: Value)
    requires ValidKeyAndDefault(key, default, ListType) && default.VList?
    requires WalkPath(data, Split(key.s)).Missing?
    ensures var r := BoolListGet(data, key, default);
            && r.data == UpdateDict(Split(key.s), data, default).dict
            && r.result.Ok? && r.result.value.Some? && r.result.value.value.VList?
            && BoolsOf(default.items, r.result.value.value.items)
  {
    TruthsAreBools(default.items);
  }

  /** `bool_list` on anything but a stored list, away from the missing-path
      case: the default overwrites it and is returned verbatim; with no
      default the result is None and nothing is written. */
  lemma BoolListGetOverwrites(data: Data, key: Value, default: Value)
    requires ValidKeyAndDefault(key, default, ListType)
    requires !(WalkPath(data, Split(key.s)).Found? && WalkPath(data, Split(key.s)).value.VList?)
    ensures !WalkPath(data, Split(key.s)).Missing? && default != VNull ==>
              BoolListGet(data, key, default) == Step(UpdateDict(Split(key.s), data, default).dict, Ok(Some(default)))
    ensures default == VNull ==> BoolListGet(data, key, default) == Step(data, Ok(None))
  {
  }

  /** `dictionary`: a stored mapping is returned; on a missing path the default
      is written and returned; anything else is overwritten with the default. */
  lemma DictionaryGetCases(data: Data, key: Value, default: Value)
    requires ValidKeyAndDefault(key, default, DictType)
    ensures var w := WalkPath(data, Split(key.s));
            var r := DictionaryGet(data, key, default);
            && (w.Found? && w.value.VMap? ==> r == Step(data, Ok(Some(w.value.entries))))
            && (!(w.Found? && w.value.VMap?) && default != VNull ==>
                  r == Step(UpdateDict(Split(key.s), data, default).dict, Ok(Some(default.entries))))
            && (!(w.Found? && w.value.VMap?) && default == VNull ==> r == Step(data, Ok(None)))
  {
  }

  /** After `set("a.b", v)` on an empty store, `contains("a.b")` is false and
      `contains("a")` is true. */
  lemma ContainsExample(v: Value)
    requires v != VNull
    ensures !Contains(Set(map[], VStr("a.b"), v).data, "a.b")
    ensures Contains(Set(map[], VStr("a.b"), v).data, "a")
  {
    assert Split("a.b") == ["a", "b"] by {
      SplitJoin(["a", "b"]);
    }
  }
}
