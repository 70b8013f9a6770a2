/** core/config.py: a nested file, dotted keys, and overrides laid over it. Two
    ways to read a setting - one key at a time through `get`, or out of the
    merged file - have to tell the same story. */
module Config {
  import opened Json
  import opened Text

  type Path = seq<string>

  /** `dotted.split('.')` */
  function PathOf(dotted: string): Path { SplitOn(dotted, '.') }

  /** `file_value`: None where the caller's default would apply. */
  function Lookup(node: Json, path: Path): Option<Json> {
    if path == [] then Some(node)
    else if node.Dict? && path[0] in node.entries then Lookup(node.entries[path[0]], path[1..])
    else None
  }

  method FileValue(file: Json, dotted: string) returns (value: Option<Json>)
    ensures value == Lookup(file, PathOf(dotted))
  {
    var node, parts := file, PathOf(dotted);
    for i := 0 to |parts|
      invariant Lookup(file, parts) == Lookup(node, parts[i..])
    {
      assert parts[i..][1..] == parts[i + 1..];
      if !node.Dict? || parts[i] !in node.entries {
        return None;
      }
      node := node.entries[parts[i]];
    }
    return Some(node);
  }

  /** `get`: an override, or the file. */
  function Get(file: Json, overrides: map<string, Json>, dotted: string): Option<Json> {
    if dotted in overrides then Some(overrides[dotted]) else Lookup(file, PathOf(dotted))
  }

  /** A value put at a path; whatever is on the way and is no dictionary gives
      way to one. */
  function Put(entries: map<string, Json>, path: Path, value: Json): map<string, Json>
    requires path != []
    decreases |path|
  {
    if |path| == 1 then entries[path[0] := value]
    else
      var inner := if path[0] in entries && entries[path[0]].Dict? then entries[path[0]].entries else map[];
      entries[path[0] := Dict(Put(inner, path[1..], value))]
  }

  function PutAll(entries: map<string, Json>, keys: seq<string>, overrides: map<string, Json>): map<string, Json>
    requires forall k :: k in keys ==> k in overrides
  {
    if keys == [] then entries
    else
      var last := keys[|keys| - 1];
      Put(PutAll(entries, keys[..|keys| - 1], overrides), PathOf(last), overrides[last])
  }

  /** `effective_dict`. `keys` is the order in which the overlay lists its keys. */
  method EffectiveDict(file: map<string, Json>, overrides: map<string, Json>, keys: seq<string>)
    returns (merged: map<string, Json>)
    requires forall k :: k in keys <==> k in overrides
    ensures merged == PutAll(file, keys, overrides)
  {
    merged := file;
    for i := 0 to |keys|
      invariant merged == PutAll(file, keys[..i], overrides)
    {
      assert keys[..i + 1][..i] == keys[..i];
      merged := Put(merged, PathOf(keys[i]), overrides[keys[i]]);
    }
    assert keys[..|keys|] == keys;
  }

  // -- prefixes -----------------------------------------------------------------

  /** Neither path leads through the other. */
  ghost predicate Diverge(p: Path, q: Path) { !(p <= q) && !(q <= p) }

  ghost predicate PrefixFree(keys: seq<string>) {
    forall i, j :: 0 <= i < j < |keys| ==> Diverge(PathOf(keys[i]), PathOf(keys[j]))
  }

  // -- one value put ----------------------------------------------------------------

  lemma {:induction false} PutIsSeen(entries: map<string, Json>, k: Path, value: Json, rest: Path)
    requires k != []
    ensures Lookup(Dict(Put(entries, k, value)), k + rest) == Lookup(value, rest)
    decreases |k|
  {
    var p := k + rest;
    assert p[0] == k[0] && p[1..] == k[1..] + rest;
    if |k| > 1 {
      var inner := if k[0] in entries && entries[k[0]].Dict? then entries[k[0]].entries else map[];
      PutIsSeen(inner, k[1..], value, rest);
    } else {
      assert p[1..] == rest;
    }
  }

  lemma {:induction false} PutIsNotSeenElsewhere(entries: map<string, Json>, k: Path, value: Json, p: Path)
    requires k != [] && Diverge(p, k)
    ensures Lookup(Dict(Put(entries, k, value)), p) == Lookup(Dict(entries), p)
    decreases |k|
  {
    if p[0] == k[0] {
      assert k == [k[0]] + k[1..] && p == [p[0]] + p[1..];
      assert |k| > 1;
      var inner := if k[0] in entries && entries[k[0]].Dict? then entries[k[0]].entries else map[];
      assert Diverge(p[1..], k[1..]);
      PutIsNotSeenElsewhere(inner, k[1..], value, p[1..]);
      assert p[1..] != [];
    }
  }

  lemma {:induction false} PutWhatIsThere(entries: map<string, Json>, k: Path, value: Json)
    requires k != [] && Lookup(Dict(entries), k) == Some(value)
    ensures Put(entries, k, value) == entries
    decreases |k|
  {
    if |k| > 1 {
      PutWhatIsThere(entries[k[0]].entries, k[1..], value);
    } else {
      assert k[1..] == [];
    }
  }

  lemma {:induction false} LookupThrough(node: Json, p: Path, q: Path)
    ensures Lookup(node, p + q) == if Lookup(node, p).Some? then Lookup(Lookup(node, p).value, q) else None
    decreases |p|
  {
    if p == [] {
      assert p + q == q;
    } else {
      assert (p + q)[0] == p[0] && (p + q)[1..] == p[1..] + q;
      if node.Dict? && p[0] in node.entries {
        LookupThrough(node.entries[p[0]], p[1..], q);
      }
    }
  }

  // -- all of them -----------------------------------------------------------------------

  /** A path under no override and over none is read from the file. */
  lemma {:induction false} ElsewhereTheFile(file: map<string, Json>, keys: seq<string>, overrides: map<string, Json>,
                                            p: Path)
    requires forall k :: k in keys ==> k in overrides
    requires forall k :: k in keys ==> Diverge(p, PathOf(k))
    ensures Lookup(Dict(PutAll(file, keys, overrides)), p) == Lookup(Dict(file), p)
  {
    if keys != [] {
      var front, last := keys[..|keys| - 1], keys[|keys| - 1];
      ElsewhereTheFile(file, front, overrides, p);
      PutIsNotSeenElsewhere(PutAll(file, front, overrides), PathOf(last), overrides[last], p);
    }
  }

  /** A path through an override goes on inside its value. */
  lemma {:induction false} UnderAnOverride(file: map<string, Json>, keys: seq<string>, overrides: map<string, Json>,
                                           key: string, rest: Path)
    requires forall k :: k in keys ==> k in overrides
    requires PrefixFree(keys) && key in keys
    ensures Lookup(Dict(PutAll(file, keys, overrides)), PathOf(key) + rest) == Lookup(overrides[key], rest)
  {
    var front, last := keys[..|keys| - 1], keys[|keys| - 1];
    assert keys == front + [last];
    if key == last {
      PutIsSeen(PutAll(file, front, overrides), PathOf(last), overrides[last], rest);
    } else {
      var i :| 0 <= i < |front| && front[i] == key;
      assert keys[i] == key && keys[|keys| - 1] == last;
      UnderAnOverride(file, front, overrides, key, rest);
      var p, k := PathOf(key) + rest, PathOf(last);
      PutIsNotSeenElsewhere(PutAll(file, front, overrides), k, overrides[last], p);
    }
  }

  /** The two ways of reading agree on every key, and on every path that
      neither leads to an override nor through one. */
  lemma {:induction false} LookupAgreesWithGet(file: map<string, Json>, keys: seq<string>,
                                               overrides: map<string, Json>, dotted: string)
    requires (forall k :: k in keys <==> k in overrides) && PrefixFree(keys)
    requires dotted in overrides || forall k :: k in keys ==> Diverge(PathOf(dotted), PathOf(k))
    ensures Lookup(Dict(PutAll(file, keys, overrides)), PathOf(dotted)) == Get(Dict(file), overrides, dotted)
  {
    if dotted in overrides {
      UnderAnOverride(file, keys, overrides, dotted, []);
      assert PathOf(dotted) + [] == PathOf(dotted);
    } else {
      ElsewhereTheFile(file, keys, overrides, PathOf(dotted));
    }
  }

  lemma {:induction false} PutAllOfWhatIsThere(file: map<string, Json>, keys: seq<string>,
                                               overrides: map<string, Json>, p: Path)
    requires forall k :: k in keys ==> k in overrides
    requires PrefixFree(keys) && p != []
    requires forall k :: k in keys ==> Diverge(p, PathOf(k))
                                       || (p < PathOf(k) && Lookup(Dict(file), PathOf(k)) == Some(overrides[k]))
    ensures Lookup(Dict(PutAll(file, keys, overrides)), p) == Lookup(Dict(file), p)
  {
    if keys != [] {
      var front, last := keys[..|keys| - 1], keys[|keys| - 1];
      assert keys == front + [last];
      PutAllOfWhatIsThere(file, front, overrides, p);
      var so := PutAll(file, front, overrides);
      if Diverge(p, PathOf(last)) {
        PutIsNotSeenElsewhere(so, PathOf(last), overrides[last], p);
      } else {
        var rest := PathOf(last)[|p|..];
        assert PathOf(last) == p + rest;
        LookupThrough(Dict(so), p, rest);
        LookupThrough(Dict(file), p, rest);
        PutWhatIsThere(so, PathOf(last), overrides[last]);
      }
    }
  }

  /** A whole subtree read through `get` is the file's alone. For a path above
      some overrides and under none, that is what the service runs on exactly
      when each of those overrides only repeats the file. */
  lemma {:induction false} SubtreeAgreesIff(file: map<string, Json>, keys: seq<string>, overrides: map<string, Json>,
                                            dotted: string)
    requires (forall k :: k in keys <==> k in overrides) && PrefixFree(keys)
    requires forall k :: k in keys ==> !(PathOf(k) <= PathOf(dotted))
    ensures Lookup(Dict(PutAll(file, keys, overrides)), PathOf(dotted)) == Get(Dict(file), overrides, dotted)
            <==> forall k :: k in keys && PathOf(dotted) <= PathOf(k) ==>
                        Lookup(Dict(file), PathOf(k)) == Some(overrides[k])
  {
    var p, merged := PathOf(dotted), PutAll(file, keys, overrides);
    assert dotted !in overrides;
    if Lookup(Dict(merged), p) == Lookup(Dict(file), p) {
      forall k | k in keys && p <= PathOf(k) ensures Lookup(Dict(file), PathOf(k)) == Some(overrides[k]) {
        var rest := PathOf(k)[|p|..];
        assert PathOf(k) == p + rest;
        LookupThrough(Dict(merged), p, rest);
        LookupThrough(Dict(file), p, rest);
        UnderAnOverride(file, keys, overrides, k, []);
        assert PathOf(k) + [] == PathOf(k);
      }
    }
    if forall k :: k in keys && p <= PathOf(k) ==> Lookup(Dict(file), PathOf(k)) == Some(overrides[k]) {
      PutAllOfWhatIsThere(file, keys, overrides, p);
    }
  }
}
