/** Recursive `omit` on JSON-like trees: what is gone, what stays, and how two omissions fuse. */
module Omit {
  import opened Text

  /** A value; File objects are passed through as they are. Fields stand in key order. */
  datatype Json =
    | Scalar(text: string)
    | FileObject(id: int)
    | Items(items: seq<Json>)
    | Fields(fields: seq<Field>)

  datatype Field = Field(name: string, value: Json)

  /** Nothing under these keys, at any depth. */
  function Prune(t: Json, keys: set<string>): Json {
    match t
    case Scalar(_) => t
    case FileObject(_) => t
    case Items(items) => Items(PruneItems(items, keys))
    case Fields(fields) => Fields(PruneFields(fields, keys))
  }

  function PruneItems(items: seq<Json>, keys: set<string>): (r: seq<Json>)
    ensures |r| == |items|
  {
    if items == [] then [] else [Prune(items[0], keys)] + PruneItems(items[1..], keys)
  }

  function PruneFields(fields: seq<Field>, keys: set<string>): seq<Field> {
    if fields == [] then []
    else if fields[0].name in keys then PruneFields(fields[1..], keys)
    else [Field(fields[0].name, Prune(fields[0].value, keys))] + PruneFields(fields[1..], keys)
  }

  /**
   * Compiled for ES2017 the object spread is `Object.assign`, which assigns: an own key `__proto__` does not survive
   * it, whether or not it is to be omitted.
   */
  const PROTO := "__proto__"

  function Omit(t: Json, keys: set<string>): Json {
    Prune(t, keys + {PROTO})
  }

  // ---------- what is gone ----------

  /** None of the keys stands anywhere in the tree, Files apart. */
  predicate FreeOf(t: Json, keys: set<string>) {
    match t
    case Scalar(_) => true
    case FileObject(_) => true
    case Items(items) => ItemsFreeOf(items, keys)
    case Fields(fields) => FieldsFreeOf(fields, keys)
  }

  predicate ItemsFreeOf(items: seq<Json>, keys: set<string>) {
    items != [] ==> FreeOf(items[0], keys) && ItemsFreeOf(items[1..], keys)
  }

  predicate FieldsFreeOf(fields: seq<Field>, keys: set<string>) {
    fields != [] ==> fields[0].name !in keys && FreeOf(fields[0].value, keys) && FieldsFreeOf(fields[1..], keys)
  }

  /** Omitting removes the keys at every depth, and changes nothing exactly when there are none, nor a `__proto__`. */
  lemma OmitRemoves(t: Json, keys: set<string>)
    ensures FreeOf(Omit(t, keys), keys)
    ensures Omit(t, keys) == t <==> FreeOf(t, keys + {PROTO})
  {
    PruneRemoves(t, keys + {PROTO});
    FewerKeys(Omit(t, keys), keys, keys + {PROTO});
  }

  lemma {:induction false} FewerKeys(t: Json, a: set<string>, b: set<string>)
    requires FreeOf(t, b) && a <= b
    ensures FreeOf(t, a)
  {
    match t
    case Scalar(_) =>
    case FileObject(_) =>
    case Items(items) => FewerKeysInItems(items, a, b);
    case Fields(fields) => FewerKeysInFields(fields, a, b);
  }

  lemma {:induction false} FewerKeysInItems(items: seq<Json>, a: set<string>, b: set<string>)
    requires ItemsFreeOf(items, b) && a <= b
    ensures ItemsFreeOf(items, a)
  {
    if items != [] {
      FewerKeys(items[0], a, b);
      FewerKeysInItems(items[1..], a, b);
    }
  }

  lemma {:induction false} FewerKeysInFields(fields: seq<Field>, a: set<string>, b: set<string>)
    requires FieldsFreeOf(fields, b) && a <= b
    ensures FieldsFreeOf(fields, a)
  {
    if fields != [] {
      FewerKeys(fields[0].value, a, b);
      FewerKeysInFields(fields[1..], a, b);
    }
  }

  lemma {:induction false} PruneRemoves(t: Json, keys: set<string>)
    ensures FreeOf(Prune(t, keys), keys)
    ensures Prune(t, keys) == t <==> FreeOf(t, keys)
  {
    match t
    case Scalar(_) =>
    case FileObject(_) =>
    case Items(items) => ItemsRemoved(items, keys);
    case Fields(fields) => FieldsRemoved(fields, keys);
  }

  lemma {:induction false} ItemsRemoved(items: seq<Json>, keys: set<string>)
    ensures ItemsFreeOf(PruneItems(items, keys), keys)
    ensures PruneItems(items, keys) == items <==> ItemsFreeOf(items, keys)
  {
    if items != [] {
      PruneRemoves(items[0], keys);
      ItemsRemoved(items[1..], keys);
      var r := PruneItems(items, keys);
      assert r[1..] == PruneItems(items[1..], keys);
      assert items == [items[0]] + items[1..];
    }
  }

  lemma {:induction false} FieldsRemoved(fields: seq<Field>, keys: set<string>)
    ensures FieldsFreeOf(PruneFields(fields, keys), keys)
    ensures |PruneFields(fields, keys)| <= |fields|
    ensures PruneFields(fields, keys) == fields <==> FieldsFreeOf(fields, keys)
  {
    if fields != [] {
      PruneRemoves(fields[0].value, keys);
      FieldsRemoved(fields[1..], keys);
      var r := PruneFields(fields, keys);
      if fields[0].name !in keys {
        assert r[1..] == PruneFields(fields[1..], keys);
        assert fields == [fields[0]] + fields[1..];
      }
    }
  }

  // ---------- what stays ----------

  datatype Step = Key(key: string) | Index(i: nat)

  function Lookup(fields: seq<Field>, key: string): Option<Json> {
    if fields == [] then None
    else if fields[0].name == key then Some(fields[0].value)
    else Lookup(fields[1..], key)
  }

  function Child(t: Json, step: Step): Option<Json> {
    match (t, step)
    case (Fields(fields), Key(key)) => Lookup(fields, key)
    case (Items(items), Index(i)) => if i < |items| then Some(items[i]) else None
    case _ => None
  }

  /** The value at a path from the root. */
  function At(t: Json, path: seq<Step>): Option<Json>
    decreases |path|
  {
    if path == [] then Some(t)
    else
      var child := Child(t, path[0]);
      if child.None? then None else At(child.value, path[1..])
  }

  predicate Passes(path: seq<Step>, keys: set<string>) {
    forall k | 0 <= k < |path| :: path[k].Key? ==> path[k].key !in keys
  }

  function PruneOption(t: Option<Json>, keys: set<string>): Option<Json> {
    if t.None? then None else Some(Prune(t.value, keys))
  }

  lemma {:induction false} LookupOmitted(fields: seq<Field>, keys: set<string>, key: string)
    ensures Lookup(PruneFields(fields, keys), key)
         == if key in keys then None else PruneOption(Lookup(fields, key), keys)
  {
    if fields != [] {
      LookupOmitted(fields[1..], keys, key);
      if fields[0].name !in keys {
        assert PruneFields(fields, keys)[1..] == PruneFields(fields[1..], keys);
      }
    }
  }

  lemma {:induction false} ItemOmitted(items: seq<Json>, keys: set<string>, i: nat)
    requires i < |items|
    ensures PruneItems(items, keys)[i] == Prune(items[i], keys)
  {
    if i > 0 {
      ItemOmitted(items[1..], keys, i - 1);
    }
  }

  /** Every path that avoids the keys, and `__proto__`, leads to the same place, every other path leads nowhere. */
  lemma PathsAfterOmit(t: Json, keys: set<string>, path: seq<Step>)
    ensures At(Omit(t, keys), path)
         == if !Passes(path, keys + {PROTO}) || At(t, path).None? then None else Some(Omit(At(t, path).value, keys))
  {
    PathsAfterPrune(t, keys + {PROTO}, path);
  }

  lemma {:induction false} PathsAfterPrune(t: Json, keys: set<string>, path: seq<Step>)
    ensures At(Prune(t, keys), path) == if Passes(path, keys) then PruneOption(At(t, path), keys) else None
    decreases |path|
  {
    if path != [] {
      var step := path[0];
      match (t, step)
      {
        case (Fields(fields), Key(key)) => LookupOmitted(fields, keys, key);
        case (Items(items), Index(i)) => if i < |items| { ItemOmitted(items, keys, i); }
        case _ =>
      }
      var child := Child(t, step);
      PassesTail(path, keys);
      if child.Some? {
        PathsAfterPrune(child.value, keys, path[1..]);
      }
    }
  }

  lemma PassesTail(path: seq<Step>, keys: set<string>)
    requires path != []
    ensures Passes(path, keys) <==> (path[0].Key? ==> path[0].key !in keys) && Passes(path[1..], keys)
  {
    if Passes(path[1..], keys) && (path[0].Key? ==> path[0].key !in keys) {
      forall k | 0 <= k < |path|
        ensures path[k].Key? ==> path[k].key !in keys
      {
        assert k == 0 || path[k] == path[1..][k - 1];
      }
    }
  }

  // ---------- two omissions ----------

  /** Omitting twice is omitting the union; hence the order does not matter, and repeating changes nothing. */
  lemma OmitFuses(t: Json, a: set<string>, b: set<string>)
    ensures Omit(Omit(t, a), b) == Omit(t, a + b)
  {
    PruneFuses(t, a + {PROTO}, b + {PROTO});
    assert a + {PROTO} + (b + {PROTO}) == a + b + {PROTO};
  }

  lemma {:induction false} PruneFuses(t: Json, a: set<string>, b: set<string>)
    ensures Prune(Prune(t, a), b) == Prune(t, a + b)
  {
    match t
    case Scalar(_) =>
    case FileObject(_) =>
    case Items(items) => ItemsFuse(items, a, b);
    case Fields(fields) => FieldsFuse(fields, a, b);
  }

  lemma {:induction false} ItemsFuse(items: seq<Json>, a: set<string>, b: set<string>)
    ensures PruneItems(PruneItems(items, a), b) == PruneItems(items, a + b)
  {
    if items != [] {
      PruneFuses(items[0], a, b);
      ItemsFuse(items[1..], a, b);
      assert PruneItems(items, a)[1..] == PruneItems(items[1..], a);
    }
  }

  lemma {:induction false} FieldsFuse(fields: seq<Field>, a: set<string>, b: set<string>)
    ensures PruneFields(PruneFields(fields, a), b) == PruneFields(fields, a + b)
  {
    if fields != [] {
      PruneFuses(fields[0].value, a, b);
      FieldsFuse(fields[1..], a, b);
      if fields[0].name !in a {
        assert PruneFields(fields, a)[1..] == PruneFields(fields[1..], a);
      }
    }
  }

  lemma OmitCommutes(t: Json, a: set<string>, b: set<string>)
    ensures Omit(Omit(t, a), b) == Omit(Omit(t, b), a)
    ensures Omit(Omit(t, a), a) == Omit(t, a)
  {
    OmitFuses(t, a, b);
    OmitFuses(t, b, a);
    OmitFuses(t, a, a);
    assert a + b == b + a && a + a == a;
  }
}
