/**
 * The part of `serde_json::Value` the core touches: member lookup, walking a chain of
 * keys, and building nested objects in place. Parsing and printing are not modelled.
 */
module JsonValues {
  import opened Wrappers

  datatype Json =
    | JNull
    | JBool(b: bool)
    | JNumber(n: int)
    | JString(s: string)
    | JArray(items: seq<Json>)
    | JObject(fields: map<string, Json>)

  /** `value.get(key)`: a member of an object; every other kind of value has none. */
  function Get(j: Json, key: string): Option<Json>
  {
    if j.JObject? && key in j.fields then Some(j.fields[key]) else None
  }

  /** The value reached by looking up `keys` one after another, if every lookup succeeds. */
  function Descend(j: Json, keys: seq<string>): Option<Json>
  {
    if keys == [] then Some(j)
    else match Get(j, keys[0])
      case None => None
      case Some(child) => Descend(child, keys[1..])
  }

  /** Descending along `p + q` is descending along `p`, then along `q`. */
  lemma {:induction false} DescendAppend(j: Json, p: seq<string>, q: seq<string>)
    ensures Descend(j, p + q) == match Descend(j, p) case None => None case Some(c) => Descend(c, q)
  {
    if p != [] {
      assert (p + q)[0] == p[0] && (p + q)[1..] == p[1..] + q;
      match Get(j, p[0])
      case None =>
      case Some(child) => DescendAppend(child, p[1..], q);
    } else {
      assert p + q == q;
    }
  }

  /** `{k0: {k1: … {kn: leaf}}}`: single-key objects along `keys`, `leaf` innermost. */
  function Nest(keys: seq<string>, leaf: Json): Json
  {
    if keys == [] then leaf else JObject(map[keys[0] := Nest(keys[1..], leaf)])
  }

  /** Looking up the keys of a nest in order finds its leaf. */
  lemma {:induction false} DescendNest(keys: seq<string>, leaf: Json)
    ensures Descend(Nest(keys, leaf), keys) == Some(leaf)
  {
    if keys != [] { DescendNest(keys[1..], leaf); }
  }

  /** Every level of a nest above the leaf is an object with exactly one member, the next key. */
  lemma {:induction false} NestLevels(keys: seq<string>, leaf: Json, i: nat)
    requires i < |keys|
    ensures Descend(Nest(keys, leaf), keys[..i]) == Some(JObject(map[keys[i] := Nest(keys[i + 1..], leaf)]))
  {
    if i > 0 {
      NestLevels(keys[1..], leaf, i - 1);
      assert keys[..i][1..] == keys[1..][..i - 1];
      assert keys[1..][i - 1] == keys[i] && keys[1..][i..] == keys[i + 1..];
    }
  }

  /**
   * `current.as_object_mut().insert(key, v)` where `current` was reached from `root`
   * through `path`: the object at the end of `path` gains or overwrites `key`; where
   * `path` does not lead to an object nothing changes.
   */
  function SetAt(root: Json, path: seq<string>, key: string, v: Json): Json
  {
    if path == [] then (if root.JObject? then JObject(root.fields[key := v]) else root)
    else if root.JObject? && path[0] in root.fields
    then JObject(root.fields[path[0] := SetAt(root.fields[path[0]], path[1..], key, v)])
    else root
  }

  /** Putting `key` into the innermost empty object of a nest extends the nest by one level. */
  lemma {:induction false} SetAtNest(path: seq<string>, key: string, v: Json)
    ensures SetAt(Nest(path, JObject(map[])), path, key, v) == Nest(path + [key], v)
  {
    if path == [] {
      assert map[][key := v] == map[key := v];
      assert [] + [key] == [key];
    } else {
      SetAtNest(path[1..], key, v);
      assert (path + [key])[0] == path[0] && (path + [key])[1..] == path[1..] + [key];
      var inner := Nest(path[1..], JObject(map[]));
      assert map[path[0] := inner][path[0] := Nest(path[1..] + [key], v)] == map[path[0] := Nest(path[1..] + [key], v)];
    }
  }
}
