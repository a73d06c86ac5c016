/** Properties of the legacy store (FileController.py), and how its fresh
    chains compare with the current version's. */
module LegacyFacts {

  import opened Wrappers
  import opened Values
  import opened Paths
  import opened Text
  import opened Legacy
  import Store

  /** Away from a collision, a legacy write is the intended write. */
  lemma {:induction false} WriteIsPut(d: Data, tree: seq<string>, v: Value)
    requires |tree| >= 1 && StoresAs(v) && !WalkPath(d, tree).Blocked?
    ensures ProcessSet(tree, d, v) == Ok(Put(d, tree, v))
    decreases |tree|
  {
    var k := tree[0];
    if k !in d && |tree| > 1 {
      PutIntoEmpty(tree[1..], v);
    } else if k in d && |tree| > 1 {
      WriteIsPut(d[k].entries, tree[1..], v);
    }
  }

  /** Through a non-mapping, a write or a delete is silently cancelled. */
  lemma {:induction false} CollisionCancels(d: Data, tree: seq<string>, v: Value)
    requires |tree| >= 1 && (StoresAs(v) || v == VNull) && WalkPath(d, tree).Blocked?
    ensures ProcessSet(tree, d, v) == Ok(d)
    decreases |tree|
  {
    var k := tree[0];
    if d[k].VMap? {
      var sub := d[k].entries;
      CollisionCancels(sub, tree[1..], v);
      assert tree[1] in sub;
      assert d[k := VMap(sub)] == d;
    }
  }

  /** After a delete the path no longer resolves. */
  lemma {:induction false} DeleteRemoves(d: Data, tree: seq<string>)
    requires |tree| >= 1
    ensures Lookup(ProcessSet(tree, d, VNull).value, tree) == None
    decreases |tree|
  {
    var k := tree[0];
    if k in d && |tree| > 1 && d[k].VMap? {
      DeleteRemoves(d[k].entries, tree[1..]);
    }
  }

  /** The legacy round trip: away from a collision, `process_get` right after
      `process_set` returns what was set, and None after a delete. */
  lemma SetThenGet(d: Data, tree: seq<string>, v: Value)
    requires |tree| >= 1 && (StoresAs(v) || v == VNull) && !WalkPath(d, tree).Blocked?
    ensures ProcessGet(tree, ProcessSet(tree, d, v).value, VNull).result == Ok(v)
  {
    if v == VNull {
      DeleteRemoves(d, tree);
    } else {
      WriteIsPut(d, tree, v);
      PutThenLookup(d, tree, v);
    }
  }

  /** A delete never puts a non-mapping in the way of its own path. */
  lemma {:induction false} DeleteKeepsPathOpen(d: Data, tree: seq<string>)
    requires |tree| >= 1 && !WalkPath(d, tree).Blocked?
    ensures !WalkPath(ProcessSet(tree, d, VNull).value, tree).Blocked?
    decreases |tree|
  {
    var k := tree[0];
    if k in d && |tree| > 1 {
      DeleteKeepsPathOpen(d[k].entries, tree[1..]);
    }
  }

  /** A delete, or a write of a value without empty mappings, leaves no
      mapping below the root empty: emptied mappings are pruned all the way
      up the path. */
  lemma {:induction false} SetKeepsPruned(d: Data, tree: seq<string>, v: Value)
    requires |tree| >= 1 && (StoresAs(v) || v == VNull) && PrunedMap(d) && PrunedValue(v)
    ensures PrunedMap(ProcessSet(tree, d, v).value)
    decreases |tree|
  {
    var k := tree[0];
    var r := ProcessSet(tree, d, v).value;
    if k !in d {
      if v != VNull && |tree| > 1 {
        WrapPruned(tree[1..], v);
      }
    } else if |tree| > 1 && d[k].VMap? {
      assert PrunedValue(d[k]);
      SetKeepsPruned(d[k].entries, tree[1..], v);
    }
  }

  /** {"a": {"b": "x"}} with "a.b" deleted: "a" is pruned as well. */
  lemma CascadeExample()
    ensures ProcessSet(["a", "b"], map["a" := VMap(map["b" := VStr("x")])], VNull) == Ok(map[])
  {
    var tree: seq<string> := ["a", "b"];
    assert tree[1..] == ["b"];
  }

  /** `set(path, None)` away from a collision ends with the text "None"
      stored at the path, not with the path deleted. */
  lemma SetNoneStoresText(data: Data, path: string)
    requires |path| > 0 && !WalkPath(data, Split(path)).Blocked?
    ensures Set(data, VStr(path), VNull).result == Ok(())
    ensures Lookup(Set(data, VStr(path), VNull).data, Split(path)) == Some(VStr("None"))
  {
    var tree := Split(path);
    var cleared := ProcessSet(tree, data, VNull).value;
    DeleteKeepsPathOpen(data, tree);
    WriteIsPut(cleared, tree, VStr("None"));
    PutThenLookup(cleared, tree, VStr("None"));
  }

  /** `set` away from a collision stores lists and mappings as they are and
      scalars as their text (for a list or mapping the write stays even
      though AttributeError escapes afterwards). */
  lemma SetStores(data: Data, path: string, value: Value)
    requires |path| > 0 && value != VNull && !WalkPath(data, Split(path)).Blocked?
    ensures Lookup(Set(data, VStr(path), value).data, Split(path))
            == Some(if value.VList? || value.VMap? then value else VStr(Repr(value)))
  {
    var tree := Split(path);
    var stored := if value.VList? || value.VMap? then value else VStr(Repr(value));
    WriteIsPut(data, tree, stored);
    PutThenLookup(data, tree, stored);
  }

  /** `getInt` never returns a value: before the NameError escapes, the read
      has persisted the default's text on a missing path, and otherwise left
      the store as it was. */
  lemma GetIntWritesThenRaises(data: Data, path: Value, default: Value)
    requires ValidKey(path) && (default.VInt? || default == VNull)
    ensures var w := WalkPath(data, Split(path.s));
            && (w.Missing? && default.VInt? ==>
                  GetInt(data, path, default)
                  == Step(ProcessSet(Split(path.s), data, VStr(IntText(default.i))).value, Err(NameError)))
            && (!(w.Missing? && default.VInt?) ==> GetInt(data, path, default) == Step(data, Err(NameError)))
  {
    ReprAsInt(default);
  }

  /** `getBoolean` reads a stored bool as is and a string through its
      lower-case form; where there is nothing to read it answers false, or
      persists and returns the default. */
  lemma GetBooleanCases(data: Data, path: Value, default: Value)
    requires ValidKey(path) && (default.VBool? || default == VNull)
    ensures var w := WalkPath(data, Split(path.s));
            && (w.Found? ==> GetBoolean(data, path, default)
                             == Step(data, Ok(w.value == VBool(true) || (w.value.VStr? && IsTrueText(w.value.s)))))
            && (w.Blocked? || (w.Missing? && default == VNull) ==> GetBoolean(data, path, default) == Step(data, Ok(false)))
            && (w.Missing? && default.VBool? ==>
                  GetBoolean(data, path, default)
                  == Step(ProcessSet(Split(path.s), data, VStr(BoolText(default.b))).value, Ok(default.b)))
  {
    var w := WalkPath(data, Split(path.s));
    if w.Found? {
      ReprAsBool(w.value);
    }
    if default.VBool? {
      BoolTextReadsBack(default.b);
    }
  }

  /** The two versions validate an int default differently: the current one
      uses `isinstance`, under which a bool is an int, while the legacy one
      compares the exact type and refuses a bool. */
  lemma BoolIntDefault(data: Data, key: Value, b: bool)
    requires ValidKey(key)
    ensures Store.ValidKeyAndDefault(key, VBool(b), Store.IntType)
    ensures Store.IntGet(data, key, VBool(b)).result.Ok?
    ensures GetInt(data, key, VBool(b)) == Step(data, Err(TypeError))
  {
  }

  /** The two versions build different chains for the same fresh segments:
      the legacy chain has each key once, the current one repeats the first. */
  lemma FreshChainsDiffer(parent: seq<string>, v: Value)
    requires |parent| >= 2 && StoresAs(v)
    ensures CreateNew(parent, v).Ok?
    ensures Store.GenerateNewTree(parent, v) != CreateNew(parent, v).value
    ensures Store.GenerateNewTree(parent, v)[parent[0]] == Wrap(parent, v)
    ensures CreateNew(parent, v).value[parent[0]] == Wrap(parent[1..], v)
  {
    var m := map[parent[0] := Wrap(parent[1..], v)];
    assert Wrap(parent, v) == VMap(m);
    assert m[parent[0]] in m.Values;
    assert Wrap(parent[1..], v) < Wrap(parent, v);
  }
}
