/** Stable printing is canonical and injective, and is plain printing where keys are already in order. */
module StableJsonLaws {
  import opened Json
  import opened JsonReader
  import opened StableJson
  import Sorting
  import TextOrder

  lemma {:induction false} LookupAt<V>(keys: seq<string>, values: seq<V>, i: nat)
    requires i < |keys| == |values| && forall j, k :: 0 <= j < k < |keys| ==> keys[j] != keys[k]
    ensures Lookup(keys, values, keys[i]) == values[i]
  {
    if i > 0 {
      assert keys[0] != keys[i];
      LookupAt(keys[1..], values[1..], i - 1);
    }
  }

  lemma KeysDistinct(fields: seq<Field>)
    requires DistinctKeys(fields)
    ensures forall j, k :: 0 <= j < k < |Keys(fields)| ==> Keys(fields)[j] != Keys(fields)[k]
  {
  }

  /** The canonical fields of an object, one by one. */
  lemma CanonField(fields: seq<Field>, p: nat) returns (i: nat)
    requires DistinctKeys(fields) && p < |fields|
    ensures |Canon(Obj(fields)).fields| == |fields| && |SortedKeys(fields)| == |fields|
    ensures i < |fields| && fields[i].key == SortedKeys(fields)[p]
    ensures Canon(Obj(fields)).fields[p] == Field(fields[i].key, Canon(fields[i].value))
  {
    var keys := SortedKeys(fields);
    Sorting.SameElements(keys, Keys(fields));
    assert keys[p] in Keys(fields);
    i :| 0 <= i < |fields| && Keys(fields)[i] == keys[p];
    KeysDistinct(fields);
    LookupAt(Keys(fields), CanonValues(fields), i);
  }

  // ---------------------------------------------------------------- the canonical value is one per class

  lemma {:induction false} SameHaveOneCanon(v: Json, w: Json)
    requires WellFormed(v) && WellFormed(w) && Same(v, w)
    ensures Canon(v) == Canon(w)
    decreases v
  {
    if v.Arr? && w.Arr? {
      forall i | 0 <= i < |v.items| ensures Canon(v.items[i]) == Canon(w.items[i]) {
        SameHaveOneCanon(v.items[i], w.items[i]);
      }
      assert CanonItems(v.items) == CanonItems(w.items);
    } else if v.Obj? && w.Obj? {
      TextOrder.TextOrderIsTotal();
      Sorting.SortIsCanonical(Keys(v.fields), Keys(w.fields), TextOrder.TextLe);
      Sorting.SameElements(Keys(v.fields), Keys(w.fields));
      var a, b := Canon(v).fields, Canon(w).fields;
      forall p | 0 <= p < |v.fields| ensures |a| == |b| == |v.fields| && a[p] == b[p] {
        var i := CanonField(v.fields, p);
        var j := CanonField(w.fields, p);
        SameHaveOneCanon(v.fields[i].value, w.fields[j].value);
      }
      assert |a| == |SortedKeys(v.fields)| == |SortedKeys(w.fields)| == |b|;
      Sorting.SameElements(SortedKeys(v.fields), Keys(v.fields));
      assert a == b;
    }
  }

  lemma CanonKeys(fields: seq<Field>)
    requires DistinctKeys(fields)
    ensures Keys(Canon(Obj(fields)).fields) == SortedKeys(fields)
  {
    var a, keys := Canon(Obj(fields)).fields, SortedKeys(fields);
    Sorting.SameElements(keys, Keys(fields));
    forall p | 0 <= p < |fields| ensures |a| == |keys| == |fields| && a[p].key == keys[p] {
      var i := CanonField(fields, p);
    }
    assert Keys(a) == keys;
  }

  lemma CanonOfKey(fields: seq<Field>, i: nat, p: nat)
    requires DistinctKeys(fields) && i < |fields| && p < |fields|
    requires |SortedKeys(fields)| == |fields| && SortedKeys(fields)[p] == fields[i].key
    ensures |Canon(Obj(fields)).fields| == |fields| && Canon(Obj(fields)).fields[p].value == Canon(fields[i].value)
  {
    var k := CanonField(fields, p);
    assert k == i;
  }

  lemma SameCanonKeys(f: seq<Field>, g: seq<Field>)
    requires DistinctKeys(f) && DistinctKeys(g) && Canon(Obj(f)) == Canon(Obj(g))
    ensures SortedKeys(f) == SortedKeys(g) && multiset(Keys(f)) == multiset(Keys(g))
  {
    CanonKeys(f);
    CanonKeys(g);
  }

  lemma SameCanonValues(f: seq<Field>, g: seq<Field>, i: nat, j: nat)
    requires DistinctKeys(f) && DistinctKeys(g) && Canon(Obj(f)) == Canon(Obj(g))
    requires i < |f| && j < |g| && f[i].key == g[j].key
    ensures Canon(f[i].value) == Canon(g[j].value)
  {
    SameCanonKeys(f, g);
    var p := KeyPosition(f, i);
    SortedKeyLength(f);
    SortedKeyLength(g);
    CanonOfKey(f, i, p);
    CanonOfKey(g, j, p);
  }

  lemma SortedKeyLength(f: seq<Field>)
    ensures |SortedKeys(f)| == |f|
  {
    Sorting.SameElements(SortedKeys(f), Keys(f));
  }

  lemma KeyPosition(f: seq<Field>, i: nat) returns (p: nat)
    requires i < |f|
    ensures p < |f| == |SortedKeys(f)| && SortedKeys(f)[p] == f[i].key
  {
    Sorting.SameElements(SortedKeys(f), Keys(f));
    assert Keys(f)[i] in SortedKeys(f);
    p :| 0 <= p < |f| && SortedKeys(f)[p] == f[i].key;
  }

  lemma {:induction false} OneCanonIsSame(v: Json, w: Json)
    requires WellFormed(v) && WellFormed(w) && Canon(v) == Canon(w)
    ensures Same(v, w)
    decreases v
  {
    if v.Arr? && w.Arr? {
      forall i | 0 <= i < |v.items| ensures Same(v.items[i], w.items[i]) {
        assert CanonItems(v.items)[i] == CanonItems(w.items)[i];
        OneCanonIsSame(v.items[i], w.items[i]);
      }
    } else if v.Obj? && w.Obj? {
      SameCanonKeys(v.fields, w.fields);
      forall i, j | 0 <= i < |v.fields| && 0 <= j < |w.fields| && v.fields[i].key == w.fields[j].key
        ensures Same(v.fields[i].value, w.fields[j].value)
      {
        SameCanonValues(v.fields, w.fields, i, j);
        OneCanonIsSame(v.fields[i].value, w.fields[j].value);
      }
    }
  }

  // ---------------------------------------------------------------- the canonical value is well formed and sorted

  lemma {:induction false} CanonWellFormed(v: Json)
    requires WellFormed(v)
    ensures WellFormed(Canon(v)) && KeysSorted(Canon(v))
    decreases v
  {
    if v.Arr? {
      forall i | 0 <= i < |v.items| ensures WellFormed(CanonItems(v.items)[i]) && KeysSorted(CanonItems(v.items)[i]) {
        CanonWellFormed(v.items[i]);
      }
    } else if v.Obj? {
      CanonFieldsDistinct(v.fields);
      forall p | 0 <= p < |Canon(v).fields|
        ensures WellFormed(Canon(v).fields[p].value) && KeysSorted(Canon(v).fields[p].value)
      {
        Sorting.SameElements(SortedKeys(v.fields), Keys(v.fields));
        var i := CanonField(v.fields, p);
        CanonWellFormed(v.fields[i].value);
      }
    }
  }

  lemma CanonFieldsDistinct(fields: seq<Field>)
    requires DistinctKeys(fields)
    ensures DistinctKeys(Canon(Obj(fields)).fields) && Sorting.Sorted(Keys(Canon(Obj(fields)).fields), TextOrder.TextLe)
  {
    var a, keys := Canon(Obj(fields)).fields, SortedKeys(fields);
    CanonKeys(fields);
    TextOrder.TextOrderIsTotal();
    Sorting.SortSorted(Keys(fields), TextOrder.TextLe);
    KeysDistinct(fields);
    Sorting.OccursOnce(Keys(fields));
    forall p, q | 0 <= p < q < |a| ensures a[p].key != a[q].key {
      if keys[p] == keys[q] { Sorting.OccursTwice(keys, p, q); }
      assert Keys(a)[p] == keys[p] && Keys(a)[q] == keys[q];
    }
  }

  lemma {:induction false} SortedIsCanon(v: Json)
    requires WellFormed(v) && KeysSorted(v)
    ensures Canon(v) == v
    decreases v
  {
    if v.Arr? {
      forall i | 0 <= i < |v.items| ensures CanonItems(v.items)[i] == v.items[i] { SortedIsCanon(v.items[i]); }
      assert CanonItems(v.items) == v.items;
    } else if v.Obj? {
      TextOrder.TextOrderIsTotal();
      Sorting.SortKeeps(Keys(v.fields), TextOrder.TextLe);
      var a := Canon(v).fields;
      forall p | 0 <= p < |v.fields| ensures |a| == |v.fields| && a[p] == v.fields[p] {
        CanonOfKey(v.fields, p, p);
        CanonKeys(v.fields);
        assert Keys(a)[p] == v.fields[p].key;
        SortedIsCanon(v.fields[p].value);
      }
      CanonKeys(v.fields);
      assert |a| == |Keys(a)| == |v.fields|;
      assert a == v.fields;
    }
  }

  // ---------------------------------------------------------------- the laws

  /** Two values print the same exactly when they are equal up to the order of object keys. */
  lemma StableIsCanonicalAndInjective(v: Json, w: Json)
    requires WellFormed(v) && WellFormed(w)
    ensures Stable(v) == Stable(w) <==> Same(v, w)
  {
    StablePrintsCanon(v);
    StablePrintsCanon(w);
    CanonWellFormed(v);
    CanonWellFormed(w);
    if Stable(v) == Stable(w) {
      PrintInjective(Canon(v), Canon(w));
      OneCanonIsSame(v, w);
    }
    if Same(v, w) { SameHaveOneCanon(v, w); }
  }

  /** Stable and plain printing agree exactly on the values whose keys are already in order. */
  lemma StableIsPlainExactly(v: Json)
    requires WellFormed(v)
    ensures Stable(v) == Print(v) <==> KeysSorted(v)
  {
    StablePrintsCanon(v);
    CanonWellFormed(v);
    if Stable(v) == Print(v) { PrintInjective(Canon(v), v); }
    if KeysSorted(v) { SortedIsCanon(v); }
  }

  // ---------------------------------------------------------------- what the system prints

  /** What a request's fingerprint is computed from. */
  function RequestInput(slug: string, operationType: string, input: Json): Json {
    Obj([Field("project_slug", Str(slug)), Field("operation_type", Str(operationType)), Field("input", input)])
  }

  /** With an injective hash, two requests share a fingerprint exactly when they ask for the same thing:
      same project, same operation type, same input up to key order. */
  lemma FingerprintsAgreeExactly(slug: string, kind: string, input: Json, slug': string, kind': string, input': Json)
    requires WellFormed(input) && WellFormed(input')
    ensures Stable(RequestInput(slug, kind, input)) == Stable(RequestInput(slug', kind', input')) <==>
              slug == slug' && kind == kind' && Same(input, input')
  {
    var v, w := RequestInput(slug, kind, input), RequestInput(slug', kind', input');
    RequestWellFormed(slug, kind, input);
    RequestWellFormed(slug', kind', input');
    StableIsCanonicalAndInjective(v, w);
    RequestsSame(slug, kind, input, slug', kind', input');
  }

  lemma RequestWellFormed(slug: string, kind: string, input: Json)
    requires WellFormed(input)
    ensures WellFormed(RequestInput(slug, kind, input))
  {
    assert "project_slug"[0] == 'p' && "operation_type"[0] == 'o' && "input"[0] == 'i';
  }

  lemma RequestsSame(slug: string, kind: string, input: Json, slug': string, kind': string, input': Json)
    ensures Same(RequestInput(slug, kind, input), RequestInput(slug', kind', input')) <==>
              slug == slug' && kind == kind' && Same(input, input')
  {
    var a, b, c := "project_slug", "operation_type", "input";
    assert a[0] == 'p' && b[0] == 'o' && c[0] == 'i';
    ThreeFieldsSame(a, b, c, Str(slug), Str(kind), input, Str(slug'), Str(kind'), input');
    assert Same(Str(slug), Str(slug')) <==> slug == slug';
    assert Same(Str(kind), Str(kind')) <==> kind == kind';
  }

  /** Objects with the same keys in the same places are the same exactly when their values are. */
  lemma FieldsSame(f: seq<Field>, g: seq<Field>)
    requires |f| == |g| && DistinctKeys(f) && forall i :: 0 <= i < |f| ==> f[i].key == g[i].key
    ensures Same(Obj(f), Obj(g)) <==> forall i :: 0 <= i < |f| ==> Same(f[i].value, g[i].value)
  {
    assert Keys(f) == Keys(g);
    assert forall i, j :: 0 <= i < |f| && 0 <= j < |g| && f[i].key == g[j].key ==> i == j;
  }

  lemma ThreeFieldsSame(a: string, b: string, c: string, x: Json, y: Json, z: Json, x': Json, y': Json, z': Json)
    requires a != b && b != c && a != c
    ensures Same(Obj([Field(a, x), Field(b, y), Field(c, z)]), Obj([Field(a, x'), Field(b, y'), Field(c, z')])) <==>
              Same(x, x') && Same(y, y') && Same(z, z')
  {
    var f, g := [Field(a, x), Field(b, y), Field(c, z)], [Field(a, x'), Field(b, y'), Field(c, z')];
    FieldsSame(f, g);
    assert f[0].value == x && f[1].value == y && f[2].value == z && g[0].value == x' && g[1].value == y'
           && g[2].value == z';
    if Same(x, x') && Same(y, y') && Same(z, z') {
      forall i | 0 <= i < |f| ensures Same(f[i].value, g[i].value) { assert i == 0 || i == 1 || i == 2; }
    }
    if forall i :: 0 <= i < |f| ==> Same(f[i].value, g[i].value) {
      assert Same(f[0].value, g[0].value) && Same(f[1].value, g[1].value) && Same(f[2].value, g[2].value);
    }
  }

  /** The normal form of property areas: identifier first, then the size or null. */
  function AreaJson(id: string, size: Json): Json {
    Obj([Field("post_id", Num(id)), Field("property_size", size)])
  }

  lemma AreaKeysSorted(id: string, size: Json)
    requires size.Null? || size.Str?
    ensures KeysSorted(AreaJson(id, size))
  {
    var a, b := Field("post_id", Num(id)), Field("property_size", size);
    PostBeforeProperty();
    TwoFieldsOrdered(a, b, TextOrder.TextLe);
  }

  lemma TwoFieldsOrdered(a: Field, b: Field, le: (string, string) -> bool)
    requires le(a.key, b.key) && KeysOrdered(a.value, le) && KeysOrdered(b.value, le)
    ensures KeysOrdered(Obj([a, b]), le)
  {
    assert Keys([a, b]) == [a.key, b.key];
  }

  lemma PostBeforeProperty()
    ensures TextOrder.TextLe("post_id", "property_size")
  {
    var a, b := "post_id", "property_size";
    assert TextOrder.Units(a) == [112] + TextOrder.Units(a[1..])
           && TextOrder.Units(b) == [112] + TextOrder.Units(b[1..]);
    assert TextOrder.Units(a[1..])[0] == 111 && TextOrder.Units(b[1..])[0] == 114;
    assert TextOrder.Units(a)[1..] == TextOrder.Units(a[1..]) && TextOrder.Units(b)[1..] == TextOrder.Units(b[1..]);
  }

  /** So the digest a restore computes over the areas, by stable printing, is over the very text that the
      preview hashed by plain printing. */
  lemma RestoreDigestsThePreviewText(ids: seq<string>, sizes: seq<Json>)
    requires |ids| == |sizes| && forall i :: 0 <= i < |ids| ==> NumberText(ids[i]) && (sizes[i].Null? || sizes[i].Str?)
    ensures var areas := Arr(seq(|ids|, i requires 0 <= i < |ids| => AreaJson(ids[i], sizes[i])));
            Stable(areas) == Print(areas)
  {
    var areas := Arr(seq(|ids|, i requires 0 <= i < |ids| => AreaJson(ids[i], sizes[i])));
    forall i | 0 <= i < |areas.items| ensures KeysSorted(areas.items[i]) && WellFormed(areas.items[i]) {
      AreaKeysSorted(ids[i], sizes[i]);
      AreaWellFormed(ids[i], sizes[i]);
    }
    StableIsPlainExactly(areas);
  }

  lemma AreaWellFormed(id: string, size: Json)
    requires NumberText(id) && (size.Null? || size.Str?)
    ensures WellFormed(AreaJson(id, size))
  {
    assert "post_id"[1] == 'o' && "property_size"[1] == 'r';
  }
}
