/** Stable printing: the same text for the same value, whatever order its objects list their keys in. */
module StableJson {
  import opened Json
  import Sorting
  import Strings
  import TextOrder

  function Keys(fields: seq<Field>): (keys: seq<string>)
    ensures |keys| == |fields| && forall i :: 0 <= i < |fields| ==> keys[i] == fields[i].key
  {
    seq(|fields|, i requires 0 <= i < |fields| => fields[i].key)
  }

  function SortedKeys(fields: seq<Field>): (keys: seq<string>)
    ensures multiset(keys) == multiset(Keys(fields))
  {
    Sorting.Sort(Keys(fields), TextOrder.TextLe)
  }

  /** The value the object has under a key. */
  function Lookup<V>(keys: seq<string>, values: seq<V>, key: string): (v: V)
    requires key in keys && |keys| == |values|
    ensures exists i :: 0 <= i < |keys| && keys[i] == key && values[i] == v
  {
    if keys[0] == key then values[0] else Lookup(keys[1..], values[1..], key)
  }

  function Pick<V>(order: seq<string>, keys: seq<string>, values: seq<V>): (r: seq<V>)
    requires |keys| == |values| && forall k :: k in order ==> k in keys
    ensures |r| == |order| && forall i :: 0 <= i < |order| ==> r[i] == Lookup(keys, values, order[i])
  {
    if order == [] then [] else [Lookup(keys, values, order[0])] + Pick(order[1..], keys, values)
  }

  // ---------------------------------------------------------------- the stable printer

  function Stable(v: Json): string
    decreases v
  {
    match v
    case Arr(items) => "[" + Strings.Join(StableItems(items), ",") + "]"
    case Obj(fields) =>
      var keys := SortedKeys(fields);
      Sorting.SameElements(keys, Keys(fields));
      "{" + Strings.Join(Entries(keys, Pick(keys, Keys(fields), StableValues(fields))), ",") + "}"
    case _ => Print(v)
  }

  function StableItems(items: seq<Json>): (r: seq<string>)
    ensures |r| == |items|
    decreases items
  {
    if items == [] then [] else [Stable(items[0])] + StableItems(items[1..])
  }

  function StableValues(fields: seq<Field>): (r: seq<string>)
    ensures |r| == |fields|
    decreases fields
  {
    if fields == [] then [] else [Stable(fields[0].value)] + StableValues(fields[1..])
  }

  function Entries(keys: seq<string>, texts: seq<string>): (r: seq<string>)
    requires |keys| == |texts|
    ensures |r| == |keys| && forall i :: 0 <= i < |keys| ==> r[i] == Quote(keys[i]) + ":" + texts[i]
  {
    if keys == [] then [] else [Quote(keys[0]) + ":" + texts[0]] + Entries(keys[1..], texts[1..])
  }

  // ---------------------------------------------------------------- the canonical value

  /** The value with every object's fields in ascending key order. */
  function Canon(v: Json): Json
    decreases v
  {
    match v
    case Arr(items) => Arr(CanonItems(items))
    case Obj(fields) =>
      var keys := SortedKeys(fields);
      Sorting.SameElements(keys, Keys(fields));
      Obj(Fields(keys, Pick(keys, Keys(fields), CanonValues(fields))))
    case _ => v
  }

  function CanonItems(items: seq<Json>): (r: seq<Json>)
    ensures |r| == |items| && forall i :: 0 <= i < |items| ==> r[i] == Canon(items[i])
    decreases items
  {
    if items == [] then [] else [Canon(items[0])] + CanonItems(items[1..])
  }

  function CanonValues(fields: seq<Field>): (r: seq<Json>)
    ensures |r| == |fields| && forall i :: 0 <= i < |fields| ==> r[i] == Canon(fields[i].value)
    decreases fields
  {
    if fields == [] then [] else [Canon(fields[0].value)] + CanonValues(fields[1..])
  }

  function Fields(keys: seq<string>, values: seq<Json>): (r: seq<Field>)
    requires |keys| == |values|
    ensures |r| == |keys| && forall i :: 0 <= i < |keys| ==> r[i] == Field(keys[i], values[i])
  {
    if keys == [] then [] else [Field(keys[0], values[0])] + Fields(keys[1..], values[1..])
  }

  /** Equal up to the order of object keys. */
  ghost predicate Same(v: Json, w: Json)
    decreases v
  {
    if v.Arr? && w.Arr? then |v.items| == |w.items| && forall i :: 0 <= i < |v.items| ==> Same(v.items[i], w.items[i])
    else if v.Obj? && w.Obj? then
      && multiset(Keys(v.fields)) == multiset(Keys(w.fields))
      && forall i, j :: 0 <= i < |v.fields| && 0 <= j < |w.fields| && v.fields[i].key == w.fields[j].key ==>
           Same(v.fields[i].value, w.fields[j].value)
    else v == w
  }

  ghost predicate KeysOrdered(v: Json, le: (string, string) -> bool)
    decreases v
  {
    match v
    case Arr(items) => forall i :: 0 <= i < |items| ==> KeysOrdered(items[i], le)
    case Obj(fields) => Sorting.Sorted(Keys(fields), le)
      && forall i :: 0 <= i < |fields| ==> KeysOrdered(fields[i].value, le)
    case _ => true
  }

  /** Every object lists its keys in ascending order. */
  ghost predicate KeysSorted(v: Json) { KeysOrdered(v, TextOrder.TextLe) }

  // ---------------------------------------------------------------- stable printing prints the canonical value

  lemma {:induction false} LookupCommutes(keys: seq<string>, values: seq<Json>, texts: seq<string>, key: string)
    requires |keys| == |values| == |texts| && key in keys
             && forall i :: 0 <= i < |keys| ==> texts[i] == Print(values[i])
    ensures Lookup(keys, texts, key) == Print(Lookup(keys, values, key))
  {
    if keys[0] != key { LookupCommutes(keys[1..], values[1..], texts[1..], key); }
  }

  lemma {:induction false} EntriesPrint(keys: seq<string>, values: seq<Json>, texts: seq<string>)
    requires |keys| == |values| == |texts| && forall i :: 0 <= i < |keys| ==> texts[i] == Print(values[i])
    ensures Entries(keys, texts) == PrintFields(Fields(keys, values))
  {
    if keys != [] { EntriesPrint(keys[1..], values[1..], texts[1..]); }
  }

  lemma {:induction false} StablePrintsCanon(v: Json)
    ensures Stable(v) == Print(Canon(v))
    decreases v, 1
  {
    if v.Arr? {
      StableItemsPrint(v.items);
    } else if v.Obj? {
      var keys := SortedKeys(v.fields);
      Sorting.SameElements(keys, Keys(v.fields));
      StableValuesPrint(v.fields);
      var texts, values := StableValues(v.fields), CanonValues(v.fields);
      forall i | 0 <= i < |keys|
        ensures Pick(keys, Keys(v.fields), texts)[i] == Print(Pick(keys, Keys(v.fields), values)[i])
      {
        LookupCommutes(Keys(v.fields), values, texts, keys[i]);
      }
      EntriesPrint(keys, Pick(keys, Keys(v.fields), values), Pick(keys, Keys(v.fields), texts));
    }
  }

  lemma {:induction false} StableItemsPrint(items: seq<Json>)
    ensures StableItems(items) == PrintItems(CanonItems(items))
    decreases items, 0
  {
    if items != [] {
      StablePrintsCanon(items[0]);
      StableItemsPrint(items[1..]);
      assert CanonItems(items)[1..] == CanonItems(items[1..]);
    }
  }

  lemma {:induction false} StableValuesPrint(fields: seq<Field>)
    ensures forall i :: 0 <= i < |fields| ==> StableValues(fields)[i] == Print(CanonValues(fields)[i])
    decreases fields, 0
  {
    if fields != [] {
      StablePrintsCanon(fields[0].value);
      StableValuesPrint(fields[1..]);
    }
  }
}
