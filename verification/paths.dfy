/** Dotted-path resolution: where a path of segments leads in a tree. This is
    the reference the store's reads and writes are compared against. */
module Paths {

  import opened Wrappers
  import opened Values

  /** How far a path resolves: to a stored value, into a non-mapping at
      segment `at` while segments remain, or to a missing key at segment `at`. */
  datatype Walk = Found(value: Value) | Blocked(at: nat) | Missing(at: nat)

  function Deeper(w: Walk): Walk
  {
    match w
    case Found(v) => Found(v)
    case Blocked(i) => Blocked(i + 1)
    case Missing(i) => Missing(i + 1)
  }

  function WalkPath(d: Data, path: seq<string>): (w: Walk)
    requires |path| >= 1
    ensures w.Blocked? ==> w.at < |path| - 1
    ensures w.Missing? ==> w.at < |path|
    decreases |path|
  {
    if path[0] !in d then Missing(0)
    else if |path| == 1 then Found(d[path[0]])
    else if !d[path[0]].VMap? then Blocked(0)
    else Deeper(WalkPath(d[path[0]].entries, path[1..]))
  }

  /** The value stored at `path`, if every segment resolves. */
  function Lookup(d: Data, path: seq<string>): Option<Value>
    requires |path| >= 1
  {
    match WalkPath(d, path)
    case Found(v) => Some(v)
    case _ => None
  }

  /** The number of leading segments that resolve to mappings. */
  function Reach(d: Data, path: seq<string>): (n: nat)
    requires |path| >= 1
    ensures n < |path|
  {
    match WalkPath(d, path)
    case Found(_) => |path| - 1
    case Blocked(i) => i
    case Missing(i) => i
  }

  /** The mapping under `k`, or a fresh empty one when `k` is missing or holds
      a non-mapping. */
  function Child(d: Data, k: string): Data
  {
    if k in d && d[k].VMap? then d[k].entries else map[]
  }

  /** The intended write: `v` stored at `path`, missing mappings created and
      non-mappings in the way replaced, nothing else touched. */
  function Put(d: Data, path: seq<string>, v: Value): (r: Data)
    requires |path| >= 1
    ensures r.Keys == d.Keys + {path[0]}
    ensures forall k | k in d && k != path[0] :: r[k] == d[k]
    decreases |path|
  {
    if |path| == 1 then d[path[0] := v]
    else d[path[0] := VMap(Put(Child(d, path[0]), path[1..], v))]
  }

  lemma {:induction false} PutThenLookup(d: Data, path: seq<string>, v: Value)
    requires |path| >= 1
    ensures Lookup(Put(d, path, v), path) == Some(v)
    decreases |path|
  {
    if |path| > 1 {
      PutThenLookup(Child(d, path[0]), path[1..], v);
    }
  }

  /** Writing into a fresh (empty) mapping builds exactly the key chain. */
  lemma {:induction false} PutIntoEmpty(path: seq<string>, v: Value)
    requires |path| >= 1
    ensures VMap(Put(map[], path, v)) == Wrap(path, v)
    decreases |path|
  {
    if |path| > 1 {
      PutIntoEmpty(path[1..], v);
    }
  }
}
