/** The current path tree store (yaml_manager/file_controller.py): `set` and
    the helpers it recurses through, the reading helper `__handle_get`, and the
    typed getters built on them. Python mutates the mapping it is given in
    place; here every helper returns the mapping as it stands afterwards. */
module Store {

  import opened Wrappers
  import opened Values
  import opened Paths
  import opened Text

  /** What `__update_dict` leaves behind: the mapping, and whether a KeyError
      escaped (in which case `dict` holds the in-place edits made before it). */
  datatype Edit = Edit(dict: Data, raised: bool)

  /** What `__update_existing_key` does to `dictionary`, and the value it
      returns for its caller to assign back, or the KeyError it raises. */
  datatype Existing = Assign(dict: Data, value: Value) | Abort(dict: Data)

  /** What `__handle_get` returns, and the mapping it may have written to. */
  datatype Read = Read(value: Value, dict: Data)

  /** `__generete_new_tree`. The loop runs down to index 0 and the result wraps
      `parent[0]` once more, so from two segments on the first is doubled. */
  function GenerateNewTree(parent: seq<string>, value: Value): (r: Data)
    requires |parent| >= 1
    ensures |parent| == 1 ==> r == map[parent[0] := value]
    ensures |parent| >= 2 ==> r == map[parent[0] := Wrap(parent, value)]
  {
    if |parent| == 1 then map[parent[0] := value]
    else
      var n := |parent|;
      var inner := VMap(map[parent[n - 1] := value]);
      var chain := WrapWhile(parent, n - 2, 0, inner);
      assert parent[0..n - 1] + [parent[n - 1]] == parent;
      WrapAppend(parent[0..n - 1], [parent[n - 1]], value);
      map[parent[0] := chain]
  }

  /** `__create_new_key`: the value stored under a missing first segment. */
  function CreateNewKey(tree: seq<string>, value: Value): (r: Value)
    requires |tree| >= 1
    ensures |tree| == 1 ==> r == value
    ensures |tree| == 2 ==> r == Wrap(tree[1..], value)
    ensures |tree| >= 3 ==> r == Wrap([tree[1]] + tree[1..], value)
  {
    if |tree| == 1 then value else VMap(GenerateNewTree(tree[1..], value))
  }

  /** `__update_dict`: one segment of `set`. */
  function UpdateDict(tree: seq<string>, dictionary: Data, value: Value): (r: Edit)
    requires |tree| >= 1
    // an absent first segment: insert a non-None value, otherwise do nothing
    ensures tree[0] !in dictionary && value != VNull ==>
              r == Edit(dictionary[tree[0] := CreateNewKey(tree, value)], false)
    ensures tree[0] !in dictionary && value == VNull ==> r == Edit(dictionary, false)
    // no other key of this mapping changes, even when a KeyError escapes
    ensures forall k | k in dictionary && k != tree[0] :: k in r.dict && r.dict[k] == dictionary[k]
    ensures r.dict.Keys <= dictionary.Keys + {tree[0]}
    // a completed call never removes a key; a non-None value always completes
    ensures !r.raised ==> dictionary.Keys <= r.dict.Keys
    ensures value != VNull ==> !r.raised && tree[0] in r.dict
    decreases |tree|, 1
  {
    if tree[0] in dictionary then
      match UpdateExistingKey(tree, dictionary, value)
      case Assign(d, x) => Edit(d[tree[0] := x], false)
      case Abort(d) => Edit(d, true)
    else if value != VNull then
      Edit(dictionary[tree[0] := CreateNewKey(tree, value)], false)
    else
      Edit(dictionary, false)
  }

  /** `__update_existing_key`, for a first segment present in `dictionary`. */
  function UpdateExistingKey(tree: seq<string>, dictionary: Data, value: Value): (r: Existing)
    requires |tree| >= 1 && tree[0] in dictionary
    // last segment: a value overwrites; None pops the entry but hands the
    // popped value back to be assigned again
    ensures |tree| == 1 && value != VNull ==> r == Assign(dictionary, value)
    ensures |tree| == 1 && value == VNull ==>
              r.Assign? && r.value == dictionary[tree[0]] && r.dict[tree[0] := r.value] == dictionary
    // a non-mapping in the way is replaced by the sub-tree a fresh key would get
    ensures |tree| > 1 && !dictionary[tree[0]].VMap? ==>
              r == Assign(dictionary, CreateNewKey(tree, value))
    ensures r.dict - {tree[0]} == dictionary - {tree[0]}
    ensures r.Abort? ==> r.dict.Keys <= dictionary.Keys
    ensures value != VNull ==> r.Assign?
    decreases |tree|, 0
  {
    var k := tree[0];
    if |tree| == 1 then
      if value != VNull then Assign(dictionary, value)
      else Assign(dictionary - {k}, dictionary[k])
    else if !dictionary[k].VMap? then
      Assign(dictionary, VMap(GenerateNewTree(tree[1..], value)))
    else
      var sub := UpdateDict(tree[1..], dictionary[k].entries, value);
      var updated := dictionary[k := VMap(sub.dict)];
      if sub.raised then Abort(updated)
      // the emptied mapping is deleted, and reading it back for the caller raises
      else if |sub.dict| == 0 then Abort(updated - {k})
      else Assign(updated, VMap(sub.dict))
  }

  /** `__handle_get`: a read that writes the default at the first missing
      segment. */
  function HandleGet(tree: seq<string>, dictionary: Data, default: Value): (r: Read)
    requires |tree| >= 1
    ensures WalkPath(dictionary, tree).Found? ==> r == Read(WalkPath(dictionary, tree).value, dictionary)
    ensures WalkPath(dictionary, tree).Blocked? ==> r == Read(VNull, dictionary)
    ensures WalkPath(dictionary, tree).Missing? && default == VNull ==> r == Read(VNull, dictionary)
    // writing the default is exactly what `set` with the default would do
    ensures WalkPath(dictionary, tree).Missing? && default != VNull ==>
              r == Read(default, UpdateDict(tree, dictionary, default).dict)
    decreases |tree|
  {
    var k := tree[0];
    if k in dictionary then
      if |tree| == 1 then Read(dictionary[k], dictionary)
      else if !dictionary[k].VMap? then Read(VNull, dictionary)
      else
        var sub := HandleGet(tree[1..], dictionary[k].entries, default);
        Read(sub.value, dictionary[k := VMap(sub.dict)])
    else if default != VNull then
      Read(default, UpdateDict(tree, dictionary, default).dict)
    else
      Read(VNull, dictionary)
  }

  // -----------------------------------------------------------------------
  // The public operations

  /** The Python types a default value is checked against. */
  datatype PyType = StrType | IntType | BoolType | ListType | DictType

  /** `isinstance(v, t)`; a bool is also an int in Python. */
  predicate IsInstance(v: Value, t: PyType)
  {
    match t
    case StrType => v.VStr?
    case IntType => v.VInt? || v.VBool?
    case BoolType => v.VBool?
    case ListType => v.VList?
    case DictType => v.VMap?
  }

  /** `__validate_key_and_default`. */
  predicate ValidKeyAndDefault(key: Value, default: Value, expected: PyType)
  {
    ValidKey(key) && (IsInstance(default, expected) || default == VNull)
  }

  /** `set`: stores `value` at the dotted `key`, or raises. */
  function Set(data: Data, key: Value, value: Value): (r: Step<()>)
    ensures !ValidKey(key) ==> r == Step(data, Err(TypeError))
    ensures ValidKey(key) ==> r.data == UpdateDict(Split(key.s), data, value).dict
    ensures ValidKey(key) ==> (r.result.Err? <==> UpdateDict(Split(key.s), data, value).raised)
    ensures r.result.Err? && ValidKey(key) ==> r.result.error == KeyError && value == VNull
  {
    if ValidKey(key) then
      var e := UpdateDict(Split(key.s), data, value);
      Step(e.dict, if e.raised then Err(KeyError) else Ok(()))
    else
      Step(data, Err(TypeError))
  }

  /** `contains`: a test on the top-level keys only; the key is not split. */
  function Contains(data: Data, key: string): (r: bool)
    ensures r <==> Lookup(data, [key]).Some?
  {
    key in data
  }

  /** `string`. */
  ghost function StringGet(data: Data, key: Value, default: Value): (r: Step<Option<string>>)
    ensures !ValidKeyAndDefault(key, default, StrType) ==> r == Step(data, Err(TypeError))
    ensures ValidKeyAndDefault(key, default, StrType) ==>
              var tree := Split(key.s);
              var w := WalkPath(data, tree);
              && (w.Found? && w.value != VNull ==> r == Step(data, Ok(Some(Repr(w.value)))))
              && (w.Found? && w.value == VNull ==> r == Step(data, Ok(None)))
              && (w.Blocked? ==> r == Step(data, Ok(None)))
              && (w.Missing? && default == VNull ==> r == Step(data, Ok(None)))
              && (w.Missing? && default != VNull ==>
                    r == Step(UpdateDict(tree, data, default).dict, Ok(Some(default.s))))
  {
    if !ValidKeyAndDefault(key, default, StrType) then Step(data, Err(TypeError))
    else
      var got := HandleGet(Split(key.s), data, default);
      Step(got.dict, Ok(if got.value != VNull then Some(Repr(got.value)) else None))
  }

  /** Python's `int(v)` of an int or a bool. */
  function IntOf(v: Value): int
    requires v.VInt? || v.VBool?
  {
    if v.VInt? then v.i else if v.b then 1 else 0
  }

  /** `int`. What it reads, returns and persists is stated case by case in
      StoreFacts. */
  ghost function IntGet(data: Data, key: Value, default: Value): (r: Step<Option<int>>)
    ensures !ValidKeyAndDefault(key, default, IntType) ==> r == Step(data, Err(TypeError))
    ensures ValidKeyAndDefault(key, default, IntType) ==> r.result.Ok?
  {
    if !ValidKeyAndDefault(key, default, IntType) then Step(data, Err(TypeError))
    else
      var text := StringGet(data, key, TextDefault(default));
      match text.result
      case Err(e) => Step(text.data, Err(e))
      case Ok(None) => Step(text.data, Ok(None))
      case Ok(Some(s)) =>
        if MatchesInt(s) then Step(text.data, Ok(Some(ParseInt(s))))
        else if default != VNull then
          var stored := Set(text.data, key, default);
          match stored.result
          case Ok(_) => Step(stored.data, Ok(Some(IntOf(default))))
          case Err(e) => Step(stored.data, Err(e))
        else Step(text.data, Ok(None))
  }

  /** `boolean`. */
  ghost function BooleanGet(data: Data, key: Value, default: Value): (r: Step<Option<bool>>)
    ensures !ValidKeyAndDefault(key, default, BoolType) ==> r == Step(data, Err(TypeError))
    ensures ValidKeyAndDefault(key, default, BoolType) ==> r.result.Ok?
  {
    if !ValidKeyAndDefault(key, default, BoolType) then Step(data, Err(TypeError))
    else
      var text := StringGet(data, key, TextDefault(default));
      match text.result
      case Err(e) => Step(text.data, Err(e))
      case Ok(None) => Step(text.data, Ok(None))
      case Ok(Some(s)) => Step(text.data, Ok(Some(IsTrueText(s))))
  }

  /** How `bool_list` reads one element: a bool as is, anything else through
      `str(item).lower() == "true"`. */
  ghost function ItemTruth(item: Value): bool
  {
    if item.VBool? then item.b else IsTrueText(Repr(item))
  }

  /** The list comprehension `bool_list` builds from a stored list. */
  ghost function Truths(items: seq<Value>): seq<Value>
  {
    seq(|items|, i requires 0 <= i < |items| => VBool(ItemTruth(items[i])))
  }

  /** `bool_list`. */
  ghost function BoolListGet(data: Data, key: Value, default: Value): (r: Step<Option<Value>>)
    ensures !ValidKeyAndDefault(key, default, ListType) ==> r == Step(data, Err(TypeError))
    ensures ValidKeyAndDefault(key, default, ListType) ==> r.result.Ok?
  {
    if !ValidKeyAndDefault(key, default, ListType) then Step(data, Err(TypeError))
    else
      var got := HandleGet(Split(key.s), data, default);
      if got.value.VList? then Step(got.dict, Ok(Some(VList(Truths(got.value.items)))))
      else if default != VNull then
        var stored := Set(got.dict, key, default);
        match stored.result
        case Ok(_) => Step(stored.data, Ok(Some(default)))
        case Err(e) => Step(stored.data, Err(e))
      else Step(got.dict, Ok(None))
  }

  /** `dictionary`. */
  function DictionaryGet(data: Data, key: Value, default: Value): (r: Step<Option<Data>>)
    ensures !ValidKeyAndDefault(key, default, DictType) ==> r == Step(data, Err(TypeError))
    ensures ValidKeyAndDefault(key, default, DictType) ==> r.result.Ok?
  {
    if !ValidKeyAndDefault(key, default, DictType) then Step(data, Err(TypeError))
    else
      var got := HandleGet(Split(key.s), data, default);
      if got.value.VMap? then Step(got.dict, Ok(Some(got.value.entries)))
      else if default != VNull then
        var stored := Set(got.dict, key, default);
        match stored.result
        case Ok(_) => Step(stored.data, Ok(Some(default.entries)))
        case Err(e) => Step(stored.data, Err(e))
      else Step(got.dict, Ok(None))
  }
}
