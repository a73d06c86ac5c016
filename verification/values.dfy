/** The data held by a configuration document: a finite tree of values whose
    inner nodes are string-keyed mappings. */
module Values {

  import opened Wrappers

  /** One value of a loaded JSON/YAML document. `VNull` is Python's `None`,
      whether stored in the tree or passed as "no value". */
  datatype Value =
    | VNull
    | VStr(s: string)
    | VInt(i: int)
    | VBool(b: bool)
    | VList(items: seq<Value>)
    | VMap(entries: Data)

  /** A mapping node, and the root of a document. */
  type Data = map<string, Value>

  /** The mutated root after an operation, and what the operation returned or
      raised. A raised error keeps the mutations Python had already made in
      place before the exception. */
  datatype Step<+T> = Step(data: Data, result: Result<T>)

  /** `keys` as a chain of single-entry mappings ending in `leaf`:
      Wrap([a, b], v) is {a: {b: v}}. */
  function Wrap(keys: seq<string>, leaf: Value): Value
  {
    if |keys| == 0 then leaf else VMap(map[keys[0] := Wrap(keys[1..], leaf)])
  }

  lemma {:induction false} WrapAppend(a: seq<string>, b: seq<string>, leaf: Value)
    ensures Wrap(a + b, leaf) == Wrap(a, Wrap(b, leaf))
    decreases |a|
  {
    if |a| > 0 {
      assert (a + b)[0] == a[0];
      assert (a + b)[1..] == a[1..] + b;
      WrapAppend(a[1..], b, leaf);
    } else {
      assert a + b == b;
    }
  }

  /** The wrapping loop both versions use to build a fresh sub-tree:
      `while x >= stop: inner = {keys[x]: inner}; x -= 1`. It wraps the keys
      keys[stop..x+1] around `inner`, innermost last. */
  function WrapWhile(keys: seq<string>, x: int, stop: nat, inner: Value): (r: Value)
    requires stop <= x + 1 <= |keys|
    ensures r == Wrap(keys[stop..x + 1], inner)
    decreases x + 1
  {
    if x >= stop then
      var next := VMap(map[keys[x] := inner]);
      var r := WrapWhile(keys, x - 1, stop, next);
      assert keys[stop..x + 1] == keys[stop..x] + [keys[x]];
      WrapAppend(keys[stop..x], [keys[x]], inner);
      r
    else
      inner
  }

  /** A leaf wrapped in at least one key is a different value. */
  lemma {:induction false} WrapNotLeaf(keys: seq<string>, leaf: Value)
    requires |keys| > 0
    ensures Wrap(keys, leaf) != leaf
  {
    WrapBelow(keys, leaf);
  }

  lemma {:induction false} WrapBelow(keys: seq<string>, leaf: Value)
    requires |keys| > 0
    ensures leaf < Wrap(keys, leaf)
    decreases |keys|
  {
    if |keys| > 1 {
      WrapBelow(keys[1..], leaf);
    }
    var m := map[keys[0] := Wrap(keys[1..], leaf)];
    assert m[keys[0]] in m.Values;
  }

  /** A dotted key both versions accept: a non-empty string. */
  predicate ValidKey(key: Value)
  {
    key.VStr? && |key.s| > 0
  }

  /** The invariant the cascading prune of `process_set` maintains: no
      mapping below the root is empty (lists are leaves and are not
      searched). */
  ghost predicate PrunedMap(d: Data)
  {
    forall k | k in d :: PrunedValue(d[k])
  }

  ghost predicate PrunedValue(v: Value)
  {
    v.VMap? ==> |v.entries| > 0 && forall k | k in v.entries :: PrunedValue(v.entries[k])
  }

  /** A chain of keys over a pruned leaf is pruned. */
  lemma {:induction false} WrapPruned(keys: seq<string>, v: Value)
    requires PrunedValue(v)
    ensures PrunedValue(Wrap(keys, v))
    decreases |keys|
  {
    if |keys| > 0 {
      WrapPruned(keys[1..], v);
    }
  }
}
