/** Business evidence of an area range: normal areas, bounds, expected results, and the evidence built and checked
    from them. */
module AreaEvidence {
  import opened Decimals
  import opened Options
  import Sorting

  const MAX_SAFE_INTEGER := 0x1F_FFFF_FFFF_FFFF

  /** A stored meta value is text or something else. */
  datatype MetaValue = Text(text: string) | Other

  datatype RawArea = RawArea(postId: int, values: seq<MetaValue>)

  datatype Area = Area(postId: int, size: Option<string>)

  // ---------------------------------------------------------------- the normal form

  predicate ValidId(id: int) { 0 < id <= MAX_SAFE_INTEGER }

  predicate ValidRaw(r: RawArea) {
    ValidId(r.postId) && (r.values == [] || (|r.values| == 1 && r.values[0].Text? && Decimal(r.values[0].text)))
  }

  function FromRaw(r: RawArea): Area {
    Area(r.postId, if r.values != [] && r.values[0].Text? then Some(r.values[0].text) else None)
  }

  function ToRaw(a: Area): RawArea {
    RawArea(a.postId, if a.size.Some? then [Text(a.size.value)] else [])
  }

  predicate ById(a: Area, b: Area) { a.postId <= b.postId }

  function FromRaws(raws: seq<RawArea>): (areas: seq<Area>)
    ensures |areas| == |raws| && forall i :: 0 <= i < |raws| ==> areas[i] == FromRaw(raws[i])
  {
    if raws == [] then [] else [FromRaw(raws[0])] + FromRaws(raws[1..])
  }

  function ToRaws(areas: seq<Area>): (raws: seq<RawArea>)
    ensures |raws| == |areas| && forall i :: 0 <= i < |areas| ==> raws[i] == ToRaw(areas[i])
  {
    if areas == [] then [] else [ToRaw(areas[0])] + ToRaws(areas[1..])
  }

  predicate DistinctPosts(raws: seq<RawArea>) {
    forall i, j :: 0 <= i < j < |raws| ==> raws[i].postId != raws[j].postId
  }

  predicate AllValid(raws: seq<RawArea>) { forall i :: 0 <= i < |raws| ==> ValidRaw(raws[i]) }

  predicate Normalizable(raws: seq<RawArea>) { DistinctPosts(raws) && AllValid(raws) }

  function Normalize(raws: seq<RawArea>): Option<seq<Area>> {
    if Normalizable(raws) then Some(Sorting.Sort(FromRaws(raws), ById)) else None
  }

  function Posts(raws: seq<RawArea>): set<int> { set r | r in raws :: r.postId }

  lemma DistinctMore(raws: seq<RawArea>, r: RawArea)
    ensures DistinctPosts(raws + [r]) <==> DistinctPosts(raws) && r.postId !in Posts(raws)
  {
    var all := raws + [r];
    assert forall i :: 0 <= i < |raws| ==> all[i] == raws[i] && raws[i].postId in Posts(raws);
    assert all[|raws|] == r;
    if DistinctPosts(all) {
      forall i | 0 <= i < |raws| ensures raws[i].postId != r.postId { assert all[i].postId != all[|raws|].postId; }
    }
  }

  lemma ValidMore(raws: seq<RawArea>, r: RawArea)
    ensures AllValid(raws + [r]) <==> AllValid(raws) && ValidRaw(r)
  {
    var all := raws + [r];
    assert (forall i :: 0 <= i < |raws| ==> all[i] == raws[i]) && all[|raws|] == r;
  }

  lemma OneMore(raws: seq<RawArea>, r: RawArea)
    ensures Posts(raws + [r]) == Posts(raws) + {r.postId} && FromRaws(raws + [r]) == FromRaws(raws) + [FromRaw(r)]
    ensures Normalizable(raws + [r]) <==> Normalizable(raws) && ValidRaw(r) && r.postId !in Posts(raws)
  {
    assert Posts(raws + [r]) == Posts(raws) + {r.postId} by {
      assert forall x :: x in raws + [r] <==> x in raws || x == r;
    }
    assert FromRaws(raws + [r]) == FromRaws(raws) + [FromRaw(r)];
    DistinctMore(raws, r);
    ValidMore(raws, r);
    BothMore(raws, r);
  }

  lemma BothMore(raws: seq<RawArea>, r: RawArea)
    requires DistinctPosts(raws + [r]) <==> DistinctPosts(raws) && r.postId !in Posts(raws)
    requires AllValid(raws + [r]) <==> AllValid(raws) && ValidRaw(r)
    ensures Normalizable(raws + [r]) <==> Normalizable(raws) && ValidRaw(r) && r.postId !in Posts(raws)
  {
  }

  lemma PrefixNormalizable(raws: seq<RawArea>, n: nat)
    requires n <= |raws|
    ensures Normalizable(raws) ==> Normalizable(raws[..n])
  {
  }

  /** Rejects on the first entry that is malformed or seen before; otherwise sorts by post. */
  method NormalizePropertyAreas(raws: seq<RawArea>) returns (areas: Option<seq<Area>>)
    ensures areas == Normalize(raws)
  {
    var seen: set<int>, normalized: seq<Area> := {}, [];
    for i := 0 to |raws|
      invariant seen == Posts(raws[..i]) && Normalizable(raws[..i]) && normalized == FromRaws(raws[..i])
    {
      var entry := raws[i];
      assert raws[..i + 1] == raws[..i] + [entry];
      OneMore(raws[..i], entry);
      PrefixNormalizable(raws, i + 1);
      if !ValidId(entry.postId) || entry.postId in seen { return None; }
      seen := seen + {entry.postId};
      if entry.values == [] {
        normalized := normalized + [Area(entry.postId, None)];
      } else {
        if |entry.values| != 1 || !entry.values[0].Text? || !Decimal(entry.values[0].text) { return None; }
        normalized := normalized + [Area(entry.postId, Some(entry.values[0].text))];
      }
    }
    assert raws[..|raws|] == raws;
    return Some(Sorting.Sort(normalized, ById));
  }

  lemma ByIdIsPreorder()
    ensures Sorting.TotalPreorder(ById)
  {
  }

  predicate ValidArea(a: Area) { ValidId(a.postId) && (a.size.Some? ==> Decimal(a.size.value)) }

  predicate Ascending(areas: seq<Area>) {
    forall i, j :: 0 <= i < j < |areas| ==> areas[i].postId < areas[j].postId
  }

  /** Ascending identifiers, each once, every size within the grammar. */
  predicate Normal(areas: seq<Area>) { Ascending(areas) && forall a :: a in areas ==> ValidArea(a) }

  lemma {:induction false} IdsOnce(areas: seq<Area>)
    requires forall i, j :: 0 <= i < j < |areas| ==> areas[i].postId != areas[j].postId
    ensures forall a, b :: a in areas && b in areas && a.postId == b.postId ==> a == b
    ensures forall a :: multiset(areas)[a] <= 1
  {
    if areas != [] {
      IdsOnce(areas[1..]);
      assert areas == [areas[0]] + areas[1..];
      assert areas[0] !in areas[1..];
    }
  }

  lemma SortAscends(areas: seq<Area>)
    requires forall i, j :: 0 <= i < j < |areas| ==> areas[i].postId != areas[j].postId
    ensures Ascending(Sorting.Sort(areas, ById))
  {
    var sorted := Sorting.Sort(areas, ById);
    ByIdIsPreorder();
    Sorting.SortSorted(areas, ById);
    Sorting.SameElements(sorted, areas);
    IdsOnce(areas);
    forall i, j | 0 <= i < j < |sorted| ensures sorted[i].postId < sorted[j].postId {
      assert ById(sorted[i], sorted[j]) && sorted[i] in areas && sorted[j] in areas;
      if sorted[i] == sorted[j] { Sorting.OccursTwice(sorted, i, j); }
    }
  }

  /** Every accepted list has a normal form with the same areas. */
  lemma NormalizedIsNormal(raws: seq<RawArea>)
    requires Normalize(raws).Some?
    ensures Normal(Normalize(raws).value) && multiset(Normalize(raws).value) == multiset(FromRaws(raws))
  {
    var areas := FromRaws(raws);
    SortAscends(areas);
    Sorting.SameElements(Sorting.Sort(areas, ById), areas);
    forall a | a in areas ensures ValidArea(a) {
      var i :| 0 <= i < |raws| && areas[i] == a;
      FromValid(raws[i]);
    }
  }

  lemma FromValid(r: RawArea)
    requires ValidRaw(r)
    ensures ValidArea(FromRaw(r))
  {
  }

  lemma ToValid(a: Area)
    requires ValidArea(a)
    ensures ValidRaw(ToRaw(a))
  {
  }

  lemma FromToRaws(areas: seq<Area>)
    ensures FromRaws(ToRaws(areas)) == areas
  {
  }

  /** A normal list is its own normal form. */
  lemma NormalStays(areas: seq<Area>)
    requires Normal(areas)
    ensures Normalize(ToRaws(areas)) == Some(areas)
  {
    FromToRaws(areas);
    forall i | 0 <= i < |areas| ensures ValidRaw(ToRaws(areas)[i]) {
      ToValid(areas[i]);
    }
    Sorting.SortKeeps(areas, ById);
  }

  // ---------------------------------------------------------------- bounds and results

  function Sizes(areas: seq<Area>): (sizes: seq<string>)
    ensures forall s :: s in sizes <==> exists a :: a in areas && a.size == Some(s)
  {
    if areas == [] then []
    else
      assert areas == [areas[0]] + areas[1..];
      (if areas[0].size.Some? then [areas[0].size.value] else []) + Sizes(areas[1..])
  }

  datatype Bounds = Bounds(min: string, max: string)

  /** Both bounds are the smallest value; refused when no two values differ. */
  function SelectBounds(areas: seq<Area>): Option<Bounds> {
    var values := Sorting.Sort(Sizes(areas), AtMost);
    if |values| < 2 || Compare(values[0], values[|values| - 1]) == 0 then None
    else Some(Bounds(values[0], values[0]))
  }

  predicate InRange(a: Area, b: Bounds) {
    a.size.Some? && Compare(a.size.value, b.min) >= 0 && Compare(a.size.value, b.max) <= 0
  }

  predicate IntLe(a: int, b: int) { a <= b }

  function InRangeIds(areas: seq<Area>, b: Bounds): (ids: seq<int>)
    ensures forall id :: id in ids <==> exists a :: a in areas && a.postId == id && InRange(a, b)
  {
    if areas == [] then []
    else
      assert areas == [areas[0]] + areas[1..];
      (if InRange(areas[0], b) then [areas[0].postId] else []) + InRangeIds(areas[1..], b)
  }

  function Ids(areas: seq<Area>): (ids: seq<int>)
    ensures |ids| == |areas| && forall i :: 0 <= i < |areas| ==> ids[i] == areas[i].postId
  {
    if areas == [] then [] else [areas[0].postId] + Ids(areas[1..])
  }

  function SortIds(ids: seq<int>): seq<int> { Sorting.Sort(ids, IntLe) }

  function ExpectedRangeIds(areas: seq<Area>, b: Bounds): seq<int> { SortIds(InRangeIds(areas, b)) }
}
