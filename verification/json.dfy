/** Jackson's JSON tree, reduced to what the manifest synchronisation
    touches. An object node is a finite map from key to value; the
    insertion order Jackson keeps for printing is not modelled. */
module JsonModel {
  import opened Wrappers

  datatype Json =
    | JString(text: string)
    | JArray(items: seq<Json>)
    | JObject(fields: map<string, Json>)
    | JNumber(literal: string)
    | JBool(truth: bool)
    | JNull

  type JsonObject = map<string, Json>

  /** `node.set(key, value)` guarded by a null test: a missing value leaves
      the object alone. */
  function SetIfPresent(m: JsonObject, key: string, value: Option<Json>): JsonObject {
    match value
    case None => m
    case Some(v) => m[key := v]
  }

  /** `a` and `b` hold the same binding (or none) for `key`. */
  predicate SameAt(a: JsonObject, b: JsonObject, key: string) {
    (key in a <==> key in b) && (key in a ==> a[key] == b[key])
  }

  /** Every key outside `keys` is bound alike in `a` and `b`. */
  ghost predicate SameOutside(a: JsonObject, b: JsonObject, keys: set<string>) {
    forall k :: k !in keys ==> SameAt(a, b, k)
  }

  /** After an update: the key holds `value` when there is one, and keeps
      its previous binding (or absence) otherwise. */
  predicate Synced(before: JsonObject, after: JsonObject, key: string, value: Option<Json>) {
    match value
    case Some(v) => key in after && after[key] == v
    case None => SameAt(before, after, key)
  }

  /** One `set` per field, in order, each guarded by its null test. */
  type Field = (string, Option<Json>)

  function ApplyFields(m: JsonObject, fields: seq<Field>): JsonObject
    decreases |fields|
  {
    if fields == [] then m else ApplyFields(SetIfPresent(m, fields[0].0, fields[0].1), fields[1..])
  }

  function FieldKeys(fields: seq<Field>): set<string> {
    set i | 0 <= i < |fields| :: fields[i].0
  }

  /** The keys of the fields, as a sequence. */
  function KeyList(fields: seq<Field>): (r: seq<string>)
    ensures |r| == |fields| && forall i :: 0 <= i < |fields| ==> r[i] == fields[i].0
  {
    seq(|fields|, i requires 0 <= i < |fields| => fields[i].0)
  }

  predicate DistinctKeys(fields: seq<Field>) {
    forall i, j :: 0 <= i < j < |fields| ==> fields[i].0 != fields[j].0
  }

  /** Every field is applied and every other key is kept. */
  ghost predicate FieldsSynced(before: JsonObject, after: JsonObject, fields: seq<Field>) {
    && (forall i :: 0 <= i < |fields| ==> Synced(before, after, fields[i].0, fields[i].1))
    && SameOutside(before, after, FieldKeys(fields))
  }

  /** Applying fields with distinct keys sets each one and nothing else. */
  lemma {:induction false} ApplyFieldsSynced(m: JsonObject, fields: seq<Field>)
    requires DistinctKeys(fields)
    ensures FieldsSynced(m, ApplyFields(m, fields), fields)
    decreases |fields|
  {
    if fields != [] {
      var key := fields[0].0;
      var value := fields[0].1;
      var first := SetIfPresent(m, key, value);
      var rest := fields[1..];
      var result := ApplyFields(first, rest);
      assert result == ApplyFields(m, fields);
      assert DistinctKeys(rest) by {
        forall i, j | 0 <= i < j < |rest|
          ensures rest[i].0 != rest[j].0
        {
          assert rest[i] == fields[i + 1] && rest[j] == fields[j + 1];
        }
      }
      ApplyFieldsSynced(first, rest);
      assert key !in FieldKeys(rest) by {
        forall i | 0 <= i < |rest|
          ensures rest[i].0 != key
        {
          assert rest[i] == fields[i + 1];
        }
      }
      assert SameAt(first, result, key);
      forall i | 0 <= i < |fields|
        ensures Synced(m, result, fields[i].0, fields[i].1)
      {
        if i > 0 {
          assert fields[i] == rest[i - 1];
          assert Synced(first, result, rest[i - 1].0, rest[i - 1].1);
          assert fields[i].0 != key;
        }
      }
      forall k | k !in FieldKeys(fields)
        ensures SameAt(m, result, k)
      {
        assert fields[0].0 in FieldKeys(fields);
        forall i | 0 <= i < |rest|
          ensures rest[i].0 != k
        {
          assert rest[i] == fields[i + 1];
          assert fields[i + 1].0 in FieldKeys(fields);
        }
        assert k !in FieldKeys(rest);
        assert SameAt(first, result, k);
      }
    }
  }

  /** Two objects that bind every key alike are equal. */
  lemma SameEverywhere(a: JsonObject, b: JsonObject)
    requires forall k :: SameAt(a, b, k)
    ensures a == b
  {
    forall k
      ensures k in a <==> k in b
    {
      assert SameAt(a, b, k);
    }
    forall k | k in a
      ensures a[k] == b[k]
    {
      assert SameAt(a, b, k);
    }
  }

  /** Synchronising twice with the same fields gives the object of the
      first synchronisation. */
  lemma FieldsSyncedTwice(root: JsonObject, once: JsonObject, twice: JsonObject, fields: seq<Field>)
    requires FieldsSynced(root, once, fields) && FieldsSynced(once, twice, fields)
    ensures twice == once
  {
    forall k
      ensures SameAt(once, twice, k)
    {
      if k in FieldKeys(fields) {
        var i :| 0 <= i < |fields| && fields[i].0 == k;
        assert Synced(root, once, k, fields[i].1);
        assert Synced(once, twice, k, fields[i].1);
      }
    }
    SameEverywhere(once, twice);
  }

  /** The text of a string field, or None (`TextNode.textValue` on a present
      string node). */
  function TextField(m: JsonObject, key: string): (r: Option<string>)
    ensures r.Some? <==> key in m && m[key].JString?
    ensures r.Some? ==> m[key] == JString(r.value)
  {
    if key in m && m[key].JString? then Some(m[key].text) else None
  }
}
