# Dotted-path tree store

A model of the core of YamlManager: a configuration document holds a nested
mapping, and callers read and write it through dotted keys such as
`"server.port"`. The key is split on `"."`, one segment is consumed per
recursive call, missing mappings are created on the way down, and the typed
getters (`string`, `int`, `boolean`, `bool_list`, `dictionary`) coerce the value
found and may persist their default.

The repository holds two versions of this logic, and they behave differently.
Both are modelled.

- **Current version** (`yaml_manager/file_controller.py`): module `Store`, with
  properties in `StoreFacts`.
- **Legacy version** (`FileController.py`): module `Legacy`, with properties in
  `LegacyFacts`.

Shared modules:

- `Wrappers`: `Option` for Python's `None` as a getter result, and `Result` with
  `Error` for `TypeError`, `KeyError`, `AttributeError` and `NameError`.
- `Values`: the `Value` tree. `VNull` is Python's `None`, both as a stored value
  and as the "no value" argument. It also defines `Wrap`, a chain of one-key
  mappings, and `WrapWhile`, the wrapping loop both versions use.
- `Paths`: the reference semantics of a path. `WalkPath` reports whether a path
  is found, blocked by a non-mapping, or missing at some segment. `Put` is the
  intended write.
- `Text`: `str.split(".")`, `str()` of a value (`Repr`), the pattern
  `^-?\d+$` with `int()`, and `lower() == "true"`.

Python edits mappings in place. Here each helper returns the mapping as it stands
afterwards. When an exception escapes, the result also holds the edits Python had
already made before raising.

## Where the code differs from its documentation

The model follows the code. Each difference below is proved.

- **Deleting does not delete in the current version.** `set(key, None)` on a path
  that resolves leaves the store unchanged. The entry is popped and then assigned
  straight back. See `StoreFacts.DeleteLeafUndone`.
- **Fresh paths of three or more segments are stored with a doubled segment.** The
  loop in `__generete_new_tree` wraps `parent[0]`, and then the function wraps it
  once more. So `"a.b.c"` on an empty store lands at `a.b.b.c`, and reading
  `"a.b.c"` back gives `None`. See `StoreFacts.SetThenLookup` for the exact
  condition. Writing the same path a second time adds `c` beside the doubled
  `b`.
- **Pruning raises in the current version.** The prune branch is reached only
  when `None` is set below an already-empty mapping. It deletes that mapping, and
  the next line reads the deleted key, so a `KeyError` escapes.
- **`boolean` can return `None`.** The current `boolean` returns `None` whenever
  the resolved text is `None`. This covers a stored `None` and a path blocked by
  a non-mapping. The legacy `getBoolean` answers `False` in those cases.
- **`bool_list` coerces its own default.** On a missing path the default is
  written first and then read back as a list. So the default is coerced element
  by element and is not returned verbatim.
- **The legacy version has its own surprises.** A collision cancels the write
  instead of overwriting. `set(path, None)` deletes the path and then stores the
  text `"None"` there, because the None branch does not exclude the text
  branch that follows it.
- **Legacy `getInt` never returns a value.** `FileController.py` imports `re`
  only inside class bodies, and a method cannot see names bound there. So the
  pattern test raises NameError on every call that passes the type check. By
  then `getString` has already persisted the default on a missing path. For the
  same reason, storing a list or mapping with the legacy `set` calls a `save`
  the class does not define, and AttributeError escapes after the write.

## Model

| member | source | states |
|---|---|---|
| Values.WrapWhile | yaml_manager/file_controller.py:552-555 | the wrapping loop builds exactly the chain of keys `keys[stop..x+1]` (indices `stop` to `x` inclusive) around its start value |
| Text.Split | yaml_manager/file_controller.py:119 | `key.split(".")` yields at least one segment, none containing ".", and joining the segments with "." gives back the key |
| Text.SplitJoin | yaml_manager/file_controller.py:119 | splitting the join of dot-free segments gives back the same segments |
| Text.IntTextRoundTrip | yaml_manager/file_controller.py:221-228 | `str(i)` matches `^-?\d+$` and `int(str(i)) == i` |
| Text.ReprAsInt | yaml_manager/file_controller.py:227-228 | once stringified, a stored int matches the pattern and parses to itself; a string is read as its own text; None, bools, lists and mappings never match |
| Text.ReprAsBool | yaml_manager/file_controller.py:267 | a stringified value lowers to "true" exactly when it is the bool True or a string whose lower-case form is "true" |
| Text.BoolTextReadsBack | yaml_manager/file_controller.py:261-267 | `str(b)` reads back as `b` and never matches the integer pattern |
| Store.GenerateNewTree | yaml_manager/file_controller.py:546-559 | one segment gives `{p0: v}`; two or more give `{p0: {p0: {p1: ... v}}}`, so the first segment is doubled |
| Store.CreateNewKey | yaml_manager/file_controller.py:646-649 | a missing key receives `v` for one segment, `{p1: v}` for two, and from three segments a chain with `p1` repeated |
| Store.UpdateDict | yaml_manager/file_controller.py:579-588 | an absent first segment gets the new key for a non-None value and no change for None; no other key changes; a completed call never removes a key; a non-None value never raises |
| Store.UpdateExistingKey | yaml_manager/file_controller.py:613-625 | a last segment is overwritten by a value; for None it is popped and handed back unchanged; a non-mapping in the way gets the same sub-tree a fresh key would get, even for None; only the key itself changes; a non-None value never aborts |
| Store.HandleGet | yaml_manager/file_controller.py:671-685 | returns the stored value when the path resolves; returns None without writing when blocked or when there is no default; at a missing segment it returns the default and writes exactly what `set` with the default writes |
| Store.ValidKeyAndDefault | yaml_manager/file_controller.py:527-528 | a key is valid when it is a non-empty string, and a default when it is None or an instance of the expected type, a bool counting as an int; what this means for `int` is stated by LegacyFacts.BoolIntDefault |
| Store.Set | yaml_manager/file_controller.py:118-121 | a key that is not a non-empty string raises TypeError and changes nothing; otherwise the store becomes the edit of the split key, which raises KeyError only when it reaches the prune branch, and only for None |
| Store.StringGet | yaml_manager/file_controller.py:145-154 | TypeError for a bad key or a non-string default; the stringified stored value when found; the default, persisted, on a missing path; None when blocked, when None is stored, or when there is no default |
| Store.IntGet | yaml_manager/file_controller.py:217-234 | TypeError exactly for a bad key or a default that is not an int or bool; otherwise never raises |
| Store.BooleanGet | yaml_manager/file_controller.py:257-267 | TypeError exactly for a bad key or a non-bool default; otherwise never raises |
| Store.BoolListGet | yaml_manager/file_controller.py:441-465 | TypeError exactly for a bad key or a non-list default; otherwise never raises |
| Store.DictionaryGet | yaml_manager/file_controller.py:491-505 | TypeError exactly for a bad key or a non-dict default; otherwise never raises |
| StoreFacts.CreatedKeyReadBack | yaml_manager/file_controller.py:646-649 | a key created for a missing first segment reads back along the same path exactly when the path has at most two segments |
| StoreFacts.SetThenLookup | yaml_manager/file_controller.py:579-625 | round trip of the current version: a non-None value reads back after `set` if and only if at most two trailing segments had to be created or replaced |
| StoreFacts.FreshSegmentWrite | yaml_manager/file_controller.py:579-617 | where the first segment is missing, last, or held by a non-mapping, `set` stores the new key's sub-tree under it, and no segment of the path resolved before |
| StoreFacts.MappingSegmentWrite | yaml_manager/file_controller.py:613-625 | through an existing mapping, a non-None `set` and the later lookup both descend one segment, and one more segment resolves |
| StoreFacts.SetThenGet | yaml_manager/file_controller.py:671-685 | under that condition, `__handle_get` with no default returns the value just set |
| StoreFacts.FreshThreeSegmentsDoubled | yaml_manager/file_controller.py:546-559 | `"a.b.c"` written into an empty store is stored at `a.b.b.c`, and reading `"a.b.c"` gives None |
| StoreFacts.FreshThreeSegmentsSecondWrite | yaml_manager/file_controller.py:579-625 | writing `"a.b.c"` again adds `c` beside the doubled `b`, so `set` is not idempotent |
| StoreFacts.SecondWriteMiddle | yaml_manager/file_controller.py:616-625 | the second write descends into the existing `b` mapping and inserts `c` there |
| StoreFacts.FreshThreeSegmentsSecondRead | yaml_manager/file_controller.py:671-679 | only after that second write does `"a.b.c"` resolve to the value |
| StoreFacts.OverwriteParent | yaml_manager/file_controller.py:613-614 | after setting "a.b" and then "a" to a non-mapping, "a" reads the new value and "a.b" no longer resolves |
| StoreFacts.DeleteLeafUndone | yaml_manager/file_controller.py:613-614 | setting None on a path that resolves leaves the store exactly as it was, with no error |
| StoreFacts.PruneBranchRaises | yaml_manager/file_controller.py:619-625 | KeyError escapes if and only if the value is None and a proper prefix of the path is an empty mapping; the deletion made before the raise leaves the path missing |
| StoreFacts.PruneExample | yaml_manager/file_controller.py:619-625 | on `{"a": {}}`, `set("a.b", None)` raises KeyError and leaves the store `{}` |
| StoreFacts.PrunedSetNeverRaises | yaml_manager/file_controller.py:619-625 | on a tree with no empty mapping below the root, `set` never raises |
| StoreFacts.SetKeepsPruned | yaml_manager/file_controller.py:579-625 | a `set` of a value without empty mappings keeps every mapping below the root non-empty |
| StoreFacts.IntGetReadsInt | yaml_manager/file_controller.py:221-228 | on a path that resolves to an int, that int is returned and nothing is written |
| StoreFacts.IntGetReadsText | yaml_manager/file_controller.py:221-228 | on a path that resolves to a string matching `^-?\d+$`, the parsed string is returned and nothing is written |
| StoreFacts.IntGetReadsNone | yaml_manager/file_controller.py:221-225 | on a path that resolves to None, the result is None and nothing is written, even with a default |
| StoreFacts.IntGetOverwritesMismatch | yaml_manager/file_controller.py:227-234 | a stored value that does not match is overwritten by the default, stored as the int itself, and `int(default)` is returned; with no default the result is None |
| StoreFacts.IntGetPersistsDefault | yaml_manager/file_controller.py:221-234 | on a missing path an int default is persisted as its text `str(d)` and returned; a bool default is persisted as "True" or "False", fails the pattern, is overwritten by the bool itself and `int(d)` is returned; with no default, or through a non-mapping, the result is None and nothing is written |
| StoreFacts.IntGetExample | yaml_manager/file_controller.py:217-234 | `int("n", 5)` on an empty store returns 5 and stores the text "5" |
| StoreFacts.BooleanGetReadsStored | yaml_manager/file_controller.py:261-267 | a stored bool is returned as is, a stored string as whether it lowers to "true", any other stored value as false, and a stored None as None |
| StoreFacts.BooleanGetPersistsDefault | yaml_manager/file_controller.py:261-267 | on a missing path "True" or "False" is persisted and the default returned; with no default, or through a non-mapping, the result is None |
| StoreFacts.BooleanGetExample | yaml_manager/file_controller.py:267 | a stored "TRUE" reads true and a stored "yes" reads false |
| StoreFacts.ItemTruthDirect | yaml_manager/file_controller.py:451-456 | a list element reads true exactly when it is True or a string lowering to "true" |
| StoreFacts.TruthsAreBools | yaml_manager/file_controller.py:447-458 | the coerced list has one boolean per element, each read by the element rule |
| StoreFacts.BoolListGetStored | yaml_manager/file_controller.py:445-458 | a stored list is returned with each element coerced by the element rule, and nothing is written |
| StoreFacts.BoolListGetMissing | yaml_manager/file_controller.py:445-458 | on a missing path the default is written first and then coerced element by element, so it is not returned verbatim |
| StoreFacts.BoolListGetOverwrites | yaml_manager/file_controller.py:445-465 | a stored value that is not a list, or a path blocked by a non-mapping, is overwritten with the default, which is returned verbatim; with no default the result is None and nothing is written |
| StoreFacts.DictionaryGetCases | yaml_manager/file_controller.py:495-505 | a stored mapping is returned; otherwise a given default is written (by the read or by `set`) and returned; with no default the result is None |
| Store.Contains | yaml_manager/file_controller.py:100 | `contains(key)` holds exactly when the one-segment lookup of the unsplit key finds a value: only the top level is searched and the key is not split on "." |
| StoreFacts.ContainsExample | yaml_manager/file_controller.py:100 | after `set("a.b", v)` on an empty store, `contains("a.b")` is false and `contains("a")` is true |
| Legacy.CreateNew | FileController.py:189-206 | TypeError for an empty tree or a value that is not str, list or dict (None included); otherwise the chain of the keys around the value, each key once |
| Legacy.ProcessSet | FileController.py:209-238 | TypeError for a bad value type; a present last segment is deleted for None and overwritten otherwise; a non-mapping in the way cancels the operation; an absent first segment gets a fresh chain for a value and no change for None; no other key changes |
| Legacy.ProcessGet | FileController.py:260-278 | TypeError for a bad default type; the stored value when found; None when blocked or with no default; at a missing segment it returns the default and writes exactly what `process_set` of the default writes |
| Legacy.Set | FileController.py:241-257 | TypeError exactly when the path is not a non-empty string; for a valid path it succeeds exactly when the value is neither a list nor a mapping, and for those the write is made and then AttributeError escapes from the undefined `save` |
| Legacy.GetString | FileController.py:281-286 | the stringified stored value when found; "None" when blocked or with no default; at a missing path the default, persisted |
| Legacy.GetInt | FileController.py:310-328 | TypeError exactly for a bad path or a default that is not exactly an int (a bool is refused); every other call ends in NameError from `re`, which only the class body imports |
| Legacy.GetBoolean | FileController.py:331-343 | TypeError exactly for a bad path or a non-bool default; otherwise never raises and never returns None |
| LegacyFacts.WriteIsPut | FileController.py:209-236 | away from a collision, a legacy write is the intended write: the value stored at the path, missing mappings created, nothing else touched |
| LegacyFacts.CollisionCancels | FileController.py:221-223 | through a non-mapping, a write or a delete leaves the store unchanged |
| LegacyFacts.DeleteRemoves | FileController.py:212-229 | after a delete the path no longer resolves |
| LegacyFacts.SetThenGet | FileController.py:209-278 | round trip: away from a collision, `process_get` right after `process_set` returns the value set, and None after a delete |
| LegacyFacts.DeleteKeepsPathOpen | FileController.py:224-229 | a delete never puts a non-mapping in the way of its own path |
| LegacyFacts.SetKeepsPruned | FileController.py:224-229 | cascading prune: after a delete, or a write of a value without empty mappings, no mapping below the root is empty |
| Values.WrapPruned | FileController.py:196-202 | a fresh chain of keys over a value without empty mappings has no empty mapping; both versions build such chains for new keys |
| LegacyFacts.CascadeExample | FileController.py:224-229 | deleting "a.b" from `{"a": {"b": "x"}}` leaves `{}` |
| LegacyFacts.SetNoneStoresText | FileController.py:246-255 | away from a collision, `set(path, None)` succeeds and ends with the text "None" stored at the path |
| LegacyFacts.SetStores | FileController.py:249-255 | away from a collision, `set` stores lists and mappings as they are and scalars as their text |
| LegacyFacts.GetIntWritesThenRaises | FileController.py:310-321 | before the NameError escapes, `getString` has persisted the text of an int default on a missing path; in every other case the store is left as it was |
| LegacyFacts.GetBooleanCases | FileController.py:335-341 | a stored bool is returned as is and a string by its lower-case form; where nothing resolves the answer is false, or the default is persisted as text and returned |
| LegacyFacts.BoolIntDefault | FileController.py:310-311 | a bool default passes the current `int` validation and reads without error, while the legacy `getInt` refuses it with TypeError, because it compares the exact type |
| LegacyFacts.FreshChainsDiffer | FileController.py:196-202 | for two or more fresh segments the legacy chain holds each key once, while the current version's chain repeats the first key, so the two differ |

## Left out

- Floating point: `float`, `float_list`, `getFloat` and `getFloatList`, and floats as stored values. `Value` has no float case.
- `str_list`, `int_list` and `float_list` of the current version. They pass `list[str]`-style generics to `isinstance`, which Python rejects, so they never get past validation.
- The legacy `getStringList`, `getIntList`, `getBooleanList` and `getDict`. They are outside the modelled core, and their fallbacks call the undefined `_set_`.
- File I/O: the constructors' path, permission and directory checks, `reload` and `save`, and the JSON/YAML codecs. The root is always a mapping here, although loading an empty YAML file would give `None`.
- The format-conversion helpers in `yaml_manager/__init__.py` and at the top of `FileController.py`, and the module-level defects of `FileController.py` (a stray `elif`, a class used before its definition).
- The class-body annotations of `yaml_manager/file_controller.py`. By lines 307-308 and 361-362 the names `float` and `int` are bound to the class's own methods, so `list[float | int]` evaluates `function | function`. Without postponed annotations, Python 3.10 to 3.13 then raise TypeError while defining the class. The model describes the methods as they behave once the class exists.
- Legacy.Set: after a list or mapping is stored, `FileController` itself raises AttributeError because it has no `save`, and that is what the model does. The subclasses `YamlFile` and `JSONFile` define `save`, but it truncates the file and then raises NameError on `yaml` or `json`, which are likewise imported only in class scope. The subclasses are not modelled, so in every case an exception is raised after the write.
- Text.IntTextRoundTrip, Text.ReprAsInt: integers convert to and from text at any size here. Python 3.10.7 and later refuse `str(i)` and `int(s)` beyond 4300 decimal digits with ValueError. So for such integers the round trip fails, and the getters and `set` that stringify them raise: `Store.StringGet`, `Store.IntGet`, `Store.BooleanGet`, `Store.BoolListGet`, `Legacy.Set`, `Legacy.GetString` and `Legacy.GetBoolean`.
- Legacy.GetInt, LegacyFacts.GetIntWritesThenRaises: for an int default of more than 4300 decimal digits, Python 3.10.7 and later raise ValueError while formatting the default, before `getString` writes anything and before `re` is reached. So in that case nothing is written and the error is ValueError, not NameError. The model formats integers of any size.
- Store.UpdateDict, Store.UpdateExistingKey, Store.HandleGet, Legacy.ProcessSet, Legacy.ProcessGet: recursion depth is unbounded here. Python's default recursion limit of 1000 frames makes them raise RecursionError on deep paths. That is roughly 500 segments for the current version, whose two helpers recurse through each other, and roughly 1000 for the legacy one.
- Store.IntGet, Store.BooleanGet, Store.BoolListGet and Store.DictionaryGet state only their error behaviour in their own contracts. What they read, return and persist is stated case by case in the `StoreFacts` lemmas named above.
- Text.Repr: the key order in which a mapping is rendered is unspecified, because insertion order is not modelled. Strings inside lists and mappings are shown between single quotes without Python's escaping or quote choice. So the getters that stringify are ghost functions.
- Dict insertion order in general. For example, the pop and re-assign in `__update_existing_key` moves a key to the end; `Data` is an unordered map.
- Aliasing: Python stores lists and dicts by reference, and the model has value semantics. Three cases share sub-trees this way, and an in-place edit through one reference then shows through the others, which the tree-shaped `Data` cannot express:
  - a default that is stored and also returned to the caller;
  - one list or dict passed to `set` under two keys;
  - a YAML anchor and its alias, which `yaml.load` with `FullLoader` (yaml_manager/yaml_file.py:49) loads as one object.
- Unicode: `\d` and `int()` also accept non-ASCII decimal digits, and `lower()` is Unicode-aware. Digits are ASCII here, and lower-casing is ASCII.
- `contains` with an unhashable key, and non-string mapping keys as YAML can load them. Keys are strings here.
- The `print` diagnostic in `__handle_get`.
