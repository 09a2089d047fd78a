/**
  Secondary indices: for each registered field, buckets of keys by extracted
  value. A bucket holds exactly the keys of cached objects yielding its value.
*/
module IndexSpec {
  import opened Objects

  type Extractor = Object -> seq<string>
  type Index = map<string, seq<Key>>
  type Indices = map<string, Index>

  function Bucket(index: Index, v: string): seq<Key> {
    if v in index then index[v] else []
  }

  ghost predicate NoEmptyBuckets(index: Index) { forall v :: v in index ==> index[v] != [] }

  /** One index agrees with a scan of the objects. */
  ghost predicate IndexAgrees(objects: Snapshot, extract: Extractor, index: Index) {
    && NoEmptyBuckets(index)
    && forall v, k :: k in Bucket(index, v) <==> k in objects && v in extract(objects[k])
  }

  ghost predicate Agrees(objects: Snapshot, indexers: map<string, Extractor>, indices: Indices) {
    && indices.Keys == indexers.Keys
    && forall f :: f in indices ==> IndexAgrees(objects, indexers[f], indices[f])
  }

  // ---- what the index operations compute ----

  function Without(keys: seq<Key>, key: Key): seq<Key> {
    if keys == [] then []
    else
      var last := keys[|keys| - 1];
      Without(keys[..|keys| - 1], key) + if last != key then [last] else []
  }

  /** The index without a key; buckets left empty disappear. */
  function Forget(index: Index, key: Key): Index {
    map v | v in index && Without(index[v], key) != [] :: Without(index[v], key)
  }

  function AddValues(index: Index, values: seq<string>, key: Key): Index {
    if values == [] then index
    else
      var before := AddValues(index, values[..|values| - 1], key);
      var v := values[|values| - 1];
      before[v := Bucket(before, v) + [key]]
  }

  // ---- and that it keeps the agreement ----

  lemma {:induction false} WithoutMembers(keys: seq<Key>, key: Key, k: Key)
    ensures k in Without(keys, key) <==> k in keys && k != key
  {
    if keys != [] {
      WithoutMembers(keys[..|keys| - 1], key, k);
      assert keys == keys[..|keys| - 1] + [keys[|keys| - 1]];
    }
  }

  lemma ForgetMembers(index: Index, key: Key, v: string, k: Key)
    ensures k in Bucket(Forget(index, key), v) <==> k in Bucket(index, v) && k != key
  {
    if v in index {
      WithoutMembers(index[v], key, k);
    }
  }

  lemma {:induction false} AddValuesMembers(index: Index, values: seq<string>, key: Key)
    requires NoEmptyBuckets(index)
    ensures NoEmptyBuckets(AddValues(index, values, key))
    ensures forall v, k :: k in Bucket(AddValues(index, values, key), v)
                      <==> k in Bucket(index, v) || (k == key && v in values)
  {
    if values != [] {
      AddValuesMembers(index, values[..|values| - 1], key);
      assert values == values[..|values| - 1] + [values[|values| - 1]];
    }
  }

  /** Dropping an object from the cache and the index together. */
  lemma ForgetAgrees(objects: Snapshot, extract: Extractor, index: Index, key: Key)
    requires IndexAgrees(objects, extract, index)
    ensures IndexAgrees(objects - {key}, extract, Forget(index, key))
  {
    forall v, k ensures k in Bucket(Forget(index, key), v)
                   <==> k in objects - {key} && v in extract(objects[k]) {
      ForgetMembers(index, key, v, k);
    }
  }

  /** Adding an object that is not there yet to the cache and the index together. */
  lemma AddAgrees(objects: Snapshot, extract: Extractor, index: Index, key: Key, o: Object)
    requires key !in objects && IndexAgrees(objects, extract, index)
    ensures IndexAgrees(objects[key := o], extract, AddValues(index, extract(o), key))
  {
    AddValuesMembers(index, extract(o), key);
  }

  // ---- queries ----

  /** The object satisfies every equality requirement. */
  ghost predicate Satisfies(o: Object, indexers: map<string, Extractor>, reqs: seq<FieldRequirement>) {
    forall n :: 0 <= n < |reqs| && reqs[n].equals ==>
      reqs[n].field in indexers && reqs[n].value in indexers[reqs[n].field](o)
  }

  /** A plain scan with the same requirements. */
  ghost function Scan(objects: Snapshot, indexers: map<string, Extractor>, reqs: seq<FieldRequirement>): Snapshot {
    map k | k in objects && Satisfies(objects[k], indexers, reqs) :: objects[k]
  }
}
