/** The legacy path tree store (FileController.py): `createNew`,
    `process_set`, `process_get`, the `set` wrapper and the getters
    `getString`, `getInt` and `getBoolean`. Here a collision cancels the write
    and deleting prunes emptied mappings. */
module Legacy {

  import opened Wrappers
  import opened Values
  import opened Paths
  import opened Text

  /** `type(v) == str or type(v) == list or type(v) == dict`. */
  predicate StoresAs(v: Value)
  {
    v.VStr? || v.VList? || v.VMap?
  }

  /** `createNew`: the chain of keys `tree` ending in `value`, each key once
      (the loop stops before index 0, which is wrapped separately). */
  function CreateNew(tree: seq<string>, value: Value): (r: Result<Data>)
    ensures r.Err? <==> |tree| == 0 || !StoresAs(value)
    ensures r.Err? ==> r.error == TypeError
    ensures r.Ok? ==> VMap(r.value) == Wrap(tree, value)
  {
    if |tree| > 0 && StoresAs(value) then
      if |tree| == 1 then Ok(map[tree[0] := value])
      else
        var n := |tree|;
        var chain := WrapWhile(tree, n - 2, 1, VMap(map[tree[n - 1] := value]));
        assert tree[1..n - 1] + [tree[n - 1]] == tree[1..];
        WrapAppend(tree[1..n - 1], [tree[n - 1]], value);
        Ok(map[tree[0] := chain])
    else
      Err(TypeError)
  }

  /** `process_set`: one segment of a write (`value` not None) or a delete. */
  function ProcessSet(tree: seq<string>, dic: Data, value: Value): (r: Result<Data>)
    ensures r.Err? <==> |tree| == 0 || !(StoresAs(value) || value == VNull)
    ensures r.Err? ==> r.error == TypeError
    // present last segment: None deletes it, a value overwrites it
    ensures r.Ok? && tree[0] in dic && |tree| == 1 && value == VNull ==> r.value == dic - {tree[0]}
    ensures r.Ok? && tree[0] in dic && |tree| == 1 && value != VNull ==> r.value == dic[tree[0] := value]
    // a non-mapping in the way cancels the operation
    ensures r.Ok? && tree[0] in dic && |tree| > 1 && !dic[tree[0]].VMap? ==> r.value == dic
    // absent first segment: a value is inserted as a fresh chain, None is a no-op
    ensures r.Ok? && tree[0] !in dic && value != VNull ==> r.value == dic[tree[0] := Wrap(tree[1..], value)]
    ensures r.Ok? && tree[0] !in dic && value == VNull ==> r.value == dic
    // no other key changes; a written key is present afterwards
    ensures r.Ok? ==> forall k | k in dic && k != tree[0] :: k in r.value && r.value[k] == dic[k]
    ensures r.Ok? ==> r.value.Keys <= dic.Keys + {tree[0]}
    ensures r.Ok? && value != VNull ==> tree[0] in r.value
    decreases |tree|
  {
    if !(|tree| > 0 && (StoresAs(value) || value == VNull)) then Err(TypeError)
    else
      var k := tree[0];
      if k in dic then
        if |tree| == 1 then
          Ok(if value == VNull then dic - {k} else dic[k := value])
        else if !dic[k].VMap? then
          Ok(dic)
        else
          match ProcessSet(tree[1..], dic[k].entries, value)
          case Ok(sub) => Ok(if |sub| == 0 then dic - {k} else dic[k := VMap(sub)])
          case Err(e) => Err(e)
      else if value != VNull then
        if |tree| == 1 then Ok(dic[k := value])
        else
          match CreateNew(tree[1..], value)
          case Ok(chain) => Ok(dic[k := VMap(chain)])
          case Err(e) => Err(e)
      else
        Ok(dic)
  }

  /** `process_get`: a read that writes the default at the first missing
      segment. */
  function ProcessGet(tree: seq<string>, dic: Data, default: Value): (r: Step<Value>)
    ensures |tree| == 0 || !(StoresAs(default) || default == VNull) ==> r == Step(dic, Err(TypeError))
    ensures |tree| >= 1 && (StoresAs(default) || default == VNull) ==>
              var w := WalkPath(dic, tree);
              && (w.Found? ==> r == Step(dic, Ok(w.value)))
              && (w.Blocked? ==> r == Step(dic, Ok(VNull)))
              && (w.Missing? && default == VNull ==> r == Step(dic, Ok(VNull)))
              // writing the default is exactly a `process_set` of it from here
              && (w.Missing? && default != VNull ==>
                    r == Step(ProcessSet(tree, dic, default).value, Ok(default)))
    decreases |tree|
  {
    if !(|tree| > 0 && (StoresAs(default) || default == VNull)) then Step(dic, Err(TypeError))
    else
      var k := tree[0];
      if k in dic then
        if |tree| == 1 then Step(dic, Ok(dic[k]))
        else if !dic[k].VMap? then Step(dic, Ok(VNull))
        else
          var sub := ProcessGet(tree[1..], dic[k].entries, default);
          Step(dic[k := VMap(sub.data)], sub.result)
      else if default != VNull then
        match ProcessSet(tree, dic, default)
        case Ok(written) => Step(written, Ok(default))
        case Err(e) => Step(dic, Err(e))
      else
        Step(dic, Ok(VNull))
  }

  /** `set`: None first deletes; then lists and mappings are stored as they
      are and every other value as its `"{}".format` text. The None branch
      does not exclude the text branch, so after the delete None is stored
      as the text "None". A list or mapping is followed by `self.save()`,
      which FileController does not define: the write stays and
      AttributeError escapes. */
  ghost function Set(data: Data, path: Value, value: Value): (r: Step<()>)
    ensures !ValidKey(path) ==> r == Step(data, Err(TypeError))
    ensures ValidKey(path) ==> (r.result.Ok? <==> !(value.VList? || value.VMap?))
    ensures ValidKey(path) && (value.VList? || value.VMap?) ==> r.result == Err(AttributeError)
  {
    if !ValidKey(path) then Step(data, Err(TypeError))
    else
      var tree := Split(path.s);
      var cleared :=
        if value == VNull then ProcessSet(tree, data, VNull) else Ok(data);
      match cleared
      case Err(e) => Step(data, Err(e))
      case Ok(d) =>
        var stored :=
          if value.VList? || value.VMap? then ProcessSet(tree, d, value)
          else ProcessSet(tree, d, VStr(Repr(value)));
        match stored
        case Ok(d') => Step(d', if value.VList? || value.VMap? then Err(AttributeError) else Ok(()))
        case Err(e) => Step(d, Err(e))
  }

  /** `getString`: the value found, formatted; a missing value reads "None". */
  ghost function GetString(data: Data, path: Value, default: Value): (r: Step<string>)
    ensures !(ValidKey(path) && (default.VStr? || default == VNull)) ==> r == Step(data, Err(TypeError))
    ensures ValidKey(path) && (default.VStr? || default == VNull) ==>
              var tree := Split(path.s);
              var w := WalkPath(data, tree);
              && (w.Found? ==> r == Step(data, Ok(Repr(w.value))))
              && (!w.Found? && (w.Blocked? || default == VNull) ==> r == Step(data, Ok("None")))
              && (w.Missing? && default != VNull ==>
                    r == Step(ProcessSet(tree, data, default).value, Ok(default.s)))
  {
    if !(ValidKey(path) && (default.VStr? || default == VNull)) then Step(data, Err(TypeError))
    else
      var got := ProcessGet(Split(path.s), data, default);
      match got.result
      case Ok(v) => Step(got.data, Ok(Repr(v)))
      case Err(e) => Step(got.data, Err(e))
  }

  /** `getInt`. The text is read through `getString`, which may persist the
      default; the pattern test that follows calls `re.search`, but `re` is
      imported only inside the class body, where a method cannot see it, so
      every call that passes the type check ends in NameError. */
  ghost function GetInt(data: Data, path: Value, default: Value): (r: Step<Option<int>>)
    ensures !(ValidKey(path) && (default.VInt? || default == VNull)) ==> r == Step(data, Err(TypeError))
    ensures ValidKey(path) && (default.VInt? || default == VNull) ==> r.result == Err(NameError)
  {
    if !(ValidKey(path) && (default.VInt? || default == VNull)) then Step(data, Err(TypeError))
    else
      var text := GetString(data, path, TextDefault(default));
      match text.result
      case Err(e) => Step(text.data, Err(e))
      case Ok(_) => Step(text.data, Err(NameError))
  }

  /** `getBoolean`: never None; a missing value reads "None", hence false. */
  ghost function GetBoolean(data: Data, path: Value, default: Value): (r: Step<bool>)
    ensures !(ValidKey(path) && (default.VBool? || default == VNull)) ==> r == Step(data, Err(TypeError))
    ensures ValidKey(path) && (default.VBool? || default == VNull) ==> r.result.Ok?
  {
    if !(ValidKey(path) && (default.VBool? || default == VNull)) then Step(data, Err(TypeError))
    else
      var text := GetString(data, path, TextDefault(default));
      match text.result
      case Err(e) => Step(text.data, Err(e))
      case Ok(s) => Step(text.data, Ok(IsTrueText(s)))
  }
}
