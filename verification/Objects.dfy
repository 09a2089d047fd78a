/**
  The values every part of the pipeline exchanges: object keys, stored objects,
  the drafts clients submit, and store events.
*/
module Objects {
  datatype Option<+T> = None | Some(value: T)

  datatype GVK = GVK(group: string, version: string, kind: string)

  datatype Key = Key(namespace: string, name: string)

  /** The encoded content of a `spec` or `status` field. */
  type Json = string

  type Labels = map<string, string>

  /** A label selector, as the predicate it is on an object's labels. */
  type LabelSelector = Labels -> bool

  /** An object as a backend stores it. Resource versions are numbers. */
  datatype Object = Object(
    key: Key, rv: nat, uid: string, generation: int,
    labels: Labels, annotations: Labels,
    spec: Option<Json>, status: Option<Json>)

  /**
    An object as a client submits it. `rv` is None when the client leaves the
    resource version empty, `uid` is "" when it leaves the UID to the store;
    `spec`/`status` are None when the field is absent from the encoded object.
  */
  datatype Draft = Draft(
    gvk: GVK, key: Key, rv: Option<nat>, uid: string, generation: int,
    labels: Labels, annotations: Labels,
    spec: Option<Json>, status: Option<Json>)

  datatype EventType = Added | Modified | Deleted | Bookmark

  datatype Event = Event(kind: EventType, obj: Object)

  /** A field selector's term: the field has, or (with `equals` false) has not, the value. */
  datatype FieldRequirement = FieldRequirement(field: string, equals: bool, value: string)

  type Snapshot = map<Key, Object>

  function Lookup(m: Snapshot, k: Key): Option<Object> {
    if k in m then Some(m[k]) else None
  }

  /** `items` lists every object of `m` exactly once, in some order. */
  ghost predicate Enumerates(items: seq<Object>, m: Snapshot) {
    && (forall i :: 0 <= i < |items| ==> items[i].key in m && m[items[i].key] == items[i])
    && (forall i, j :: 0 <= i < j < |items| ==> items[i].key != items[j].key)
    && (forall k :: k in m ==> m[k] in items)
  }

  lemma EnumeratesMore(items: seq<Object>, m: Snapshot, o: Object)
    requires Enumerates(items, m) && o.key !in m
    ensures Enumerates(items + [o], m[o.key := o])
  {
    var m' := m[o.key := o];
    forall k | k in m' ensures m'[k] in items + [o] {
      if k != o.key {
        assert m[k] in items;
      }
    }
  }

  /** `keys` lists the elements of `s` exactly once, in some order. */
  ghost predicate Orders(keys: seq<Key>, s: set<Key>) {
    && (forall k :: k in keys <==> k in s)
    && (forall i, j :: 0 <= i < j < |keys| ==> keys[i] != keys[j])
  }
}
