/** The string-keyed dictionary behind the directory (`UserDict.data`): a
    Python dict remembers the order in which its keys were first inserted,
    overwriting a key keeps its place, and removing a key closes the gap. */
module OrderedDict {
  import opened Results
  import opened Lists

  /** `keys` is the insertion order, `entries` the mapping itself. */
  datatype Dict<V> = Dict(keys: seq<string>, entries: map<string, V>)
  {
    /** Every key is listed once, and the listed keys are exactly the keys
        of the mapping. */
    predicate Valid()
    {
      && NoDuplicates(keys)
      && (forall i :: 0 <= i < |keys| ==> keys[i] in entries)
      && (forall k :: k in entries ==> k in keys)
    }
  }

  /** `{}` */
  function Empty<V>(): (d: Dict<V>)
    ensures d.Valid() && d.keys == [] && d.entries == map[]
  {
    Dict([], map[])
  }

  /** `not d`: a dictionary is false exactly when it has no keys. */
  lemma EmptyIffNoEntries<V>(d: Dict<V>)
    requires d.Valid()
    ensures d.keys == [] <==> d.entries == map[]
  {
    if d.keys != [] {
      assert d.keys[0] in d.entries;
    }
  }

  /** `d.get(k)`: the value stored under `k`, or None. */
  function Get<V>(d: Dict<V>, k: string): (r: Option<V>)
    ensures r.Some? <==> k in d.entries
    ensures r.Some? ==> r.value == d.entries[k]
  {
    if k in d.entries then Some(d.entries[k]) else None
  }

  /** `d[k] = v`: an existing key keeps its place in the order; a new key
      goes last. */
  function Put<V>(d: Dict<V>, k: string, v: V): (r: Dict<V>)
    requires d.Valid()
    ensures r.Valid()
    ensures r.entries == d.entries[k := v]
    ensures k in d.entries ==> r.keys == d.keys
    ensures k !in d.entries ==> r.keys == d.keys + [k]
  {
    if k in d.entries then
      Dict(d.keys, d.entries[k := v])
    else
      var keys := d.keys + [k];
      assert NoDuplicates(keys) by {
        forall i, j | 0 <= i < j < |keys| ensures keys[i] != keys[j] {
          if j == |d.keys| {
            assert keys[i] == d.keys[i] && d.keys[i] in d.entries;
          }
        }
      }
      Dict(keys, d.entries[k := v])
  }

  /** `d.pop(k)`: None (the KeyError) when `k` is absent; otherwise the
      dictionary without `k`, the other keys in their old order. */
  function Pop<V>(d: Dict<V>, k: string): (r: Option<Dict<V>>)
    requires d.Valid()
    ensures r.None? <==> k !in d.entries
    ensures r.Some? ==> r.value.Valid()
    ensures r.Some? ==> r.value.entries == d.entries - {k}
    ensures r.Some? ==> r.value.keys == RemoveAll(d.keys, k)
  {
    if k !in d.entries then None
    else
      var keys := RemoveAll(d.keys, k);
      RemoveAllNoDuplicates(d.keys, k);
      assert forall y :: y in keys <==> y in d.keys && y != k by {
        forall y ensures y in keys <==> y in d.keys && y != k {
          RemoveAllMembers(d.keys, k, y);
        }
      }
      Some(Dict(keys, d.entries - {k}))
  }

  /** `d.values()`: the values in key order. */
  function Values<V>(d: Dict<V>): (vs: seq<V>)
    requires d.Valid()
    ensures |vs| == |d.keys|
    ensures forall i :: 0 <= i < |d.keys| ==> vs[i] == d.entries[d.keys[i]]
  {
    ValuesOf(d.keys, d.entries)
  }

  function ValuesOf<V>(keys: seq<string>, entries: map<string, V>): (vs: seq<V>)
    requires forall i :: 0 <= i < |keys| ==> keys[i] in entries
    ensures |vs| == |keys|
    ensures forall i :: 0 <= i < |keys| ==> vs[i] == entries[keys[i]]
  {
    if keys == [] then [] else [entries[keys[0]]] + ValuesOf(keys[1..], entries)
  }

  /** A value just stored is what `get` returns; other keys are untouched. */
  lemma GetPut<V>(d: Dict<V>, k: string, v: V, other: string)
    requires d.Valid()
    ensures Get(Put(d, k, v), k) == Some(v)
    ensures other != k ==> Get(Put(d, k, v), other) == Get(d, other)
  {
  }

  /** After `pop`, the key is gone and every other key keeps its value. */
  lemma GetPop<V>(d: Dict<V>, k: string, other: string)
    requires d.Valid() && k in d.entries
    ensures Get(Pop(d, k).value, k) == None
    ensures other != k ==> Get(Pop(d, k).value, other) == Get(d, other)
  {
  }

  /** Overwriting an existing key changes its value in place: the values
      keep their order. */
  lemma PutExistingValues<V>(d: Dict<V>, k: string, v: V)
    requires d.Valid() && k in d.entries
    ensures var i := FirstIndex(d.keys, k).value;
            Values(Put(d, k, v)) == Values(d)[i := v]
  {
    var i := FirstIndex(d.keys, k).value;
    var r := Put(d, k, v);
    forall j | 0 <= j < |d.keys| ensures Values(r)[j] == Values(d)[i := v][j] {
      if j != i {
        assert d.keys[j] != d.keys[i];
      }
    }
  }

  /** Storing under a new key adds its value at the end. */
  lemma PutNewValues<V>(d: Dict<V>, k: string, v: V)
    requires d.Valid() && k !in d.entries
    ensures Values(Put(d, k, v)) == Values(d) + [v]
  {
    var r := Put(d, k, v);
    ValuesOfAgree(d.keys, d.entries, r.entries);
    ValuesOfAppend(d.keys, k, r.entries);
  }

  /** Two mappings that agree on the listed keys give the same values. */
  lemma ValuesOfAgree<V>(keys: seq<string>, m: map<string, V>, m': map<string, V>)
    requires forall i :: 0 <= i < |keys| ==> keys[i] in m && keys[i] in m' && m[keys[i]] == m'[keys[i]]
    ensures ValuesOf(keys, m) == ValuesOf(keys, m')
  {
  }

  lemma ValuesOfAppend<V>(keys: seq<string>, k: string, m: map<string, V>)
    requires forall i :: 0 <= i < |keys| ==> keys[i] in m
    requires k in m
    ensures ValuesOf(keys + [k], m) == ValuesOf(keys, m) + [m[k]]
  {
    assert forall i :: 0 <= i < |keys| ==> (keys + [k])[i] == keys[i];
  }

  /** Popping the key at position i drops exactly the value at position i. */
  lemma PopValues<V>(d: Dict<V>, k: string)
    requires d.Valid() && k in d.entries
    ensures var i := FirstIndex(d.keys, k).value;
            Values(Pop(d, k).value) == Values(d)[..i] + Values(d)[i + 1..]
  {
    var i := FirstIndex(d.keys, k).value;
    RemoveAllOne(d.keys, i);
    DropOneValues(d.keys, d.entries, i);
  }

  lemma DropOneValues<V>(ks: seq<string>, m: map<string, V>, i: nat)
    requires i < |ks| && NoDuplicates(ks)
    requires forall j :: 0 <= j < |ks| ==> ks[j] in m
    ensures var rest := ks[..i] + ks[i + 1..];
            (forall j :: 0 <= j < |rest| ==> rest[j] in m - {ks[i]}) &&
            ValuesOf(rest, m - {ks[i]}) == ValuesOf(ks, m)[..i] + ValuesOf(ks, m)[i + 1..]
  {
    var rest := ks[..i] + ks[i + 1..];
    var m' := m - {ks[i]};
    forall j | 0 <= j < |rest| ensures rest[j] in m' && m'[rest[j]] == m[rest[j]] {
      if j < i {
        assert rest[j] == ks[j];
      } else {
        assert rest[j] == ks[j + 1];
      }
    }
    var vs, ws := ValuesOf(rest, m'), ValuesOf(ks, m);
    forall j | 0 <= j < |rest| ensures vs[j] == (ws[..i] + ws[i + 1..])[j] {
      if j < i {
        assert rest[j] == ks[j];
      } else {
        assert rest[j] == ks[j + 1];
      }
    }
  }
}
