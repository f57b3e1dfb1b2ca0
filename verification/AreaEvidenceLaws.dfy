/** Which posts are in range, and that evidence is accepted exactly when it is built over the plan's baseline. */
module AreaEvidenceLaws {
  import opened AreaEvidence
  import opened Decimals
  import opened Options
  import Sorting

  // ---------------------------------------------------------------- ranges

  lemma IntLeIsTotal()
    ensures Sorting.TotalOrder(IntLe)
  {
  }

  lemma SortedIds(ids: seq<int>)
    ensures Sorting.Sorted(SortIds(ids), IntLe) && forall id :: id in SortIds(ids) <==> id in ids
  {
    IntLeIsTotal();
    Sorting.SortSorted(ids, IntLe);
    Sorting.SameElements(SortIds(ids), ids);
  }

  /** The range results are exactly the posts whose value lies within the bounds, in ascending order. */
  lemma RangeIdsAreTheValuesInBounds(areas: seq<Area>, b: Bounds)
    requires (forall a :: a in areas ==> ValidArea(a)) && Decimal(b.min) && Decimal(b.max)
    ensures Sorting.Sorted(ExpectedRangeIds(areas, b), IntLe)
    ensures forall id :: id in ExpectedRangeIds(areas, b) <==>
                           exists a :: a in areas && a.postId == id && a.size.Some?
                                       && Hundredths(b.min) <= Hundredths(a.size.value) <= Hundredths(b.max)
  {
    SortedIds(InRangeIds(areas, b));
    forall a | a in areas
      ensures InRange(a, b) <==> a.size.Some? && Hundredths(b.min) <= Hundredths(a.size.value) <= Hundredths(b.max)
    {
      InRangeIsNumeric(a, b);
    }
  }

  lemma InRangeIsNumeric(a: Area, b: Bounds)
    requires ValidArea(a) && Decimal(b.min) && Decimal(b.max)
    ensures InRange(a, b) <==> a.size.Some? && Hundredths(b.min) <= Hundredths(a.size.value) <= Hundredths(b.max)
  {
    if a.size.Some? {
      CompareIsNumericOrder(a.size.value, b.min);
      CompareIsNumericOrder(a.size.value, b.max);
    }
  }

  lemma SizesSorted(areas: seq<Area>)
    ensures var values := Sorting.Sort(Sizes(areas), AtMost);
            && Sorting.Sorted(values, AtMost) && forall s :: s in values <==> s in Sizes(areas)
  {
    AtMostIsPreorder();
    Sorting.SortSorted(Sizes(areas), AtMost);
    Sorting.SameElements(Sorting.Sort(Sizes(areas), AtMost), Sizes(areas));
  }

  lemma SizesDecimal(areas: seq<Area>, s: string)
    requires (forall a :: a in areas ==> ValidArea(a)) && s in Sizes(areas)
    ensures Decimal(s)
  {
    var a :| a in areas && a.size == Some(s);
    assert ValidArea(a);
  }

  /** Bounds exist exactly when two values differ; they are the smallest value, so some property is in range and some
      is not. */
  lemma BoundsAreTheSmallestValue(areas: seq<Area>)
    requires forall a :: a in areas ==> ValidArea(a)
    ensures SelectBounds(areas).Some? <==>
              exists s, t :: s in Sizes(areas) && t in Sizes(areas) && Hundredths(s) < Hundredths(t)
    ensures SelectBounds(areas).Some? ==>
              var b := SelectBounds(areas).value;
              && b.min == b.max && b.min in Sizes(areas) && Decimal(b.min)
              && (forall s :: s in Sizes(areas) ==> Hundredths(b.min) <= Hundredths(s))
              && exists s :: s in Sizes(areas) && Hundredths(b.max) < Hundredths(s)
  {
    var values := Sorting.Sort(Sizes(areas), AtMost);
    SizesSorted(areas);
    forall v | v in values ensures Decimal(v) { SizesDecimal(areas, v); }
    BoundsOfSorted(values, Sizes(areas), SelectBounds(areas));
  }

  lemma BoundsOfSorted(values: seq<string>, sizes: seq<string>, b: Option<Bounds>)
    requires Sorting.Sorted(values, AtMost) && (forall v :: v in values ==> Decimal(v))
             && forall s :: s in values <==> s in sizes
    requires b == if |values| < 2 || Compare(values[0], values[|values| - 1]) == 0 then None
             else Some(Bounds(values[0], values[0]))
    ensures b.Some? <==> exists s, t :: s in sizes && t in sizes && Hundredths(s) < Hundredths(t)
    ensures b.Some? ==>
              && b.value.min == b.value.max && b.value.min in sizes && Decimal(b.value.min)
              && (forall s :: s in sizes ==> Hundredths(b.value.min) <= Hundredths(s))
              && exists s :: s in sizes && Hundredths(b.value.max) < Hundredths(s)
  {
    if values != [] {
      EndsOfSorted(values);
      var first, last := values[0], values[|values| - 1];
      if b.Some? {
        assert first in sizes && last in sizes && Hundredths(first) < Hundredths(last);
      } else {
        assert forall s :: s in sizes ==> Hundredths(s) == Hundredths(first);
      }
    }
  }

  /** The ends of a sorted list bound it, and compare equal exactly when all its values are equal. */
  lemma EndsOfSorted(values: seq<string>)
    requires values != [] && Sorting.Sorted(values, AtMost) && forall v :: v in values ==> Decimal(v)
    ensures var first, last := values[0], values[|values| - 1];
            && (forall v :: v in values ==> Hundredths(first) <= Hundredths(v) <= Hundredths(last))
            && (Compare(first, last) == 0 <==> Hundredths(first) == Hundredths(last))
            && first in values && last in values && Decimal(first)
  {
    var first, last := values[0], values[|values| - 1];
    forall v | v in values ensures Hundredths(first) <= Hundredths(v) <= Hundredths(last) {
      Between(values, v);
    }
    CompareIsNumericOrder(first, last);
  }

  lemma Between(values: seq<string>, s: string)
    requires Sorting.Sorted(values, AtMost) && s in values && forall v :: v in values ==> Decimal(v)
    ensures Hundredths(values[0]) <= Hundredths(s) <= Hundredths(values[|values| - 1])
  {
    var i :| 0 <= i < |values| && values[i] == s;
    assert i > 0 ==> AtMost(values[0], values[i]);
    assert i < |values| - 1 ==> AtMost(values[i], values[|values| - 1]);
    CompareIsNumericOrder(values[0], s);
    CompareIsNumericOrder(s, values[|values| - 1]);
  }

  // ---------------------------------------------------------------- evidence

  /** What is known before: the project, its plan with the baseline's hash, the recovery point and the apply. */
  datatype Prepared = Prepared(slug: string, projectId: string, binding: string, planId: string, snapshotId: string,
                               applyId: string, baselineHash: string)

  /** Areas come raw from an observation or already normal from a stored plan. */
  datatype Input = Raws(raws: seq<RawArea>) | Areas(areas: seq<Area>)

  datatype Observation = Observation(unfiltered: seq<int>, ranged: seq<int>)

  datatype Results = Results(ids: seq<int>, count: nat)

  datatype Evidence = Evidence(slug: string, projectId: string, binding: string,
                               planId: string, snapshotId: string, applyId: string,
                               areas: seq<Area>, areasHash: string, bounds: Bounds, unfiltered: Results, range: Results)

  function Canonical(input: Input): Option<seq<Area>> {
    match input
    case Raws(raws) => Normalize(raws)
    case Areas(areas) => Normalize(ToRaws(areas))
  }

  predicate ExactObservation(o: Observation) {
    (forall id :: id in o.unfiltered ==> ValidId(id)) && forall id :: id in o.ranged ==> ValidId(id)
  }

  type Hash = seq<Area> -> string

  function Made(p: Prepared, areas: seq<Area>, b: Bounds, hash: Hash): Evidence {
    var unfiltered, ranged := SortIds(Ids(areas)), ExpectedRangeIds(areas, b);
    Evidence(p.slug, p.projectId, p.binding, p.planId, p.snapshotId, p.applyId, areas, hash(areas), b,
             Results(unfiltered, |unfiltered|), Results(ranged, |ranged|))
  }

  /** Evidence is built when the areas are usable and the observed results are the expected ones. */
  function Build(p: Prepared, input: Input, o: Observation, hash: Hash): Option<Evidence> {
    var areas := Canonical(input);
    if areas.None? || areas.value == [] then None
    else
      var b := SelectBounds(areas.value);
      if b.None? || !ExactObservation(o) then None
      else if SortIds(o.unfiltered) != SortIds(Ids(areas.value))
        || SortIds(o.ranged) != ExpectedRangeIds(areas.value, b.value) then None
      else Some(Made(p, areas.value, b.value, hash))
  }

  predicate Matches(e: Evidence, p: Prepared) {
    && e.slug == p.slug && e.projectId == p.projectId && e.binding == p.binding
    && e.planId == p.planId && e.snapshotId == p.snapshotId && e.applyId == p.applyId
  }

  /** The checker recomputes everything from the areas in the evidence. */
  predicate Accepts(e: Evidence, p: Prepared, hash: Hash) {
    && Matches(e, p)
    && var areas := Canonical(Areas(e.areas));
       && areas.Some?
       && var b := SelectBounds(areas.value);
          && b.Some? && e.areasHash == hash(areas.value) == p.baselineHash && e.bounds == b.value
          && e.unfiltered == Results(SortIds(Ids(areas.value)), |areas.value|)
          && var ranged := ExpectedRangeIds(areas.value, b.value);
             e.range == Results(ranged, |ranged|)
  }

  lemma CanonicalIsNormal(input: Input)
    requires Canonical(input).Some?
    ensures Normal(Canonical(input).value) && Canonical(Areas(Canonical(input).value)) == Canonical(input)
  {
    NormalizedIsNormal(if input.Raws? then input.raws else ToRaws(input.areas));
    NormalStays(Canonical(input).value);
  }

  lemma SortIdsLength(ids: seq<int>)
    ensures |SortIds(ids)| == |ids|
  {
    Sorting.SameElements(SortIds(ids), ids);
  }

  /** Built evidence is accepted exactly when the areas it was built over hash to the plan's baseline. */
  lemma BuiltIsAcceptedExactly(p: Prepared, input: Input, o: Observation, hash: Hash)
    requires Build(p, input, o, hash).Some?
    ensures Accepts(Build(p, input, o, hash).value, p, hash) <==> hash(Canonical(input).value) == p.baselineHash
  {
    var areas := Canonical(input).value;
    CanonicalIsNormal(input);
    SortIdsLength(Ids(areas));
    MadeIsAcceptedExactly(p, areas, SelectBounds(areas).value, hash);
  }

  lemma MadeIsAcceptedExactly(p: Prepared, areas: seq<Area>, b: Bounds, hash: Hash)
    requires Canonical(Areas(areas)) == Some(areas) && SelectBounds(areas) == Some(b)
             && |SortIds(Ids(areas))| == |areas|
    ensures Accepts(Made(p, areas, b, hash), p, hash) <==> hash(areas) == p.baselineHash
  {
    var e := Made(p, areas, b, hash);
    assert Matches(e, p) && e.areas == areas && e.bounds == b && e.areasHash == hash(areas);
    assert e.unfiltered == Results(SortIds(Ids(areas)), |areas|);
    AcceptsWith(e, p, hash, areas, b, ExpectedRangeIds(areas, b));
  }

  lemma AcceptsWith(e: Evidence, p: Prepared, hash: Hash, areas: seq<Area>, b: Bounds, ranged: seq<int>)
    requires Matches(e, p) && Canonical(Areas(e.areas)) == Some(areas) && SelectBounds(areas) == Some(b)
    requires ranged == ExpectedRangeIds(areas, b) && e.bounds == b && e.areasHash == hash(areas)
    requires e.unfiltered == Results(SortIds(Ids(areas)), |areas|) && e.range == Results(ranged, |ranged|)
    ensures Accepts(e, p, hash) <==> hash(areas) == p.baselineHash
  {
  }

  lemma SortIdsTwice(ids: seq<int>)
    ensures SortIds(SortIds(ids)) == SortIds(ids)
  {
    SortedIds(ids);
    Sorting.SortKeeps(SortIds(ids), IntLe);
  }

  lemma EvidenceIdsValid(areas: seq<Area>, b: Bounds)
    requires forall a :: a in areas ==> ValidArea(a)
    ensures ExactObservation(Observation(SortIds(Ids(areas)), ExpectedRangeIds(areas, b)))
  {
    SortedIds(Ids(areas));
    SortedIds(InRangeIds(areas, b));
    forall id | id in Ids(areas) ensures ValidId(id) {
      var i :| 0 <= i < |areas| && Ids(areas)[i] == id;
      assert ValidArea(areas[i]);
    }
    forall id | id in InRangeIds(areas, b) ensures ValidId(id) {
      var a :| a in areas && a.postId == id && InRange(a, b);
      assert ValidArea(a);
    }
  }

  lemma NoAreasNoBounds()
    ensures SelectBounds([]).None?
  {
    assert Sizes([]) == [];
  }

  /** And nothing else is accepted: accepted evidence is what building over its own areas and results gives. */
  lemma AcceptedIsBuilt(e: Evidence, p: Prepared, hash: Hash)
    requires Accepts(e, p, hash)
    ensures Canonical(Areas(e.areas)).Some?
    ensures Build(p, Areas(e.areas), Observation(e.unfiltered.ids, e.range.ids), hash)
            == Some(e.(areas := Canonical(Areas(e.areas)).value))
  {
    var areas, b := Canonical(Areas(e.areas)).value, e.bounds;
    CanonicalIsNormal(Areas(e.areas));
    NoAreasNoBounds();
    SortIdsTwice(Ids(areas));
    SortIdsTwice(InRangeIds(areas, b));
    SortIdsLength(Ids(areas));
    EvidenceIdsValid(areas, b);
  }

  // ---------------------------------------------------------------- what is accepted and built, spelled out

  /** A list is accepted exactly when every post is a positive safe integer, no post comes twice, and every entry has
      no value or one text of the grammar. */
  lemma NormalizesExactly(raws: seq<RawArea>)
    ensures Normalize(raws).Some? <==>
              && (forall i :: 0 <= i < |raws| ==>
                    && 0 < raws[i].postId && raws[i].postId < 9007199254740992
                    && (raws[i].values == []
                        || exists text :: raws[i].values == [Text(text)] && Decimal(text)))
              && (forall i, j :: 0 <= i < |raws| && 0 <= j < |raws| && raws[i].postId == raws[j].postId ==> i == j)
  {
    forall i | 0 <= i < |raws|
      ensures ValidRaw(raws[i]) <==>
                && 0 < raws[i].postId && raws[i].postId < 9007199254740992
                && (raws[i].values == [] || exists text :: raws[i].values == [Text(text)] && Decimal(text))
    {
      if |raws[i].values| == 1 {
        assert raws[i].values == [raws[i].values[0]];
      }
    }
  }

  lemma SameIdsExactly(a: seq<int>, b: seq<int>)
    ensures SortIds(a) == SortIds(b) <==> multiset(a) == multiset(b)
  {
    IntLeIsTotal();
    Sorting.SameElements(SortIds(a), a);
    Sorting.SameElements(SortIds(b), b);
    if multiset(a) == multiset(b) {
      Sorting.SortIsCanonical(a, b, IntLe);
    }
  }

  /** The same ids in any order, all of them valid, when the expected ones are. */
  lemma SameIdsAreValid(ids: seq<int>, expected: seq<int>)
    requires multiset(ids) == multiset(expected) && forall id :: id in expected ==> ValidId(id)
    ensures forall id :: id in ids ==> ValidId(id)
  {
    Sorting.SameElements(ids, expected);
  }

  /** The two lists are what was observed, in some order. */
  predicate Observed(o: Observation, all: seq<int>, ranged: seq<int>) {
    multiset(o.unfiltered) == multiset(all) && multiset(o.ranged) == multiset(ranged)
  }

  lemma ObservedExactly(areas: seq<Area>, b: Bounds, o: Observation)
    requires forall a :: a in areas ==> ValidArea(a)
    ensures var ids, ranged := Ids(areas), ExpectedRangeIds(areas, b);
            ExactObservation(o) && SortIds(o.unfiltered) == SortIds(ids) && SortIds(o.ranged) == ranged
            <==> Observed(o, ids, ranged)
  {
    var ids, ranged := Ids(areas), ExpectedRangeIds(areas, b);
    SameIdsExactly(o.unfiltered, ids);
    SameIdsExactly(o.ranged, ranged);
    SortIdsTwice(InRangeIds(areas, b));
    EvidenceIdsValid(areas, b);
    SortedIds(ids);
    if Observed(o, ids, ranged) {
      SameIdsAreValid(o.unfiltered, ids);
      SameIdsAreValid(o.ranged, ranged);
    }
  }

  ghost predicate TwoDiffer(areas: seq<Area>) {
    exists s, t :: s in Sizes(areas) && t in Sizes(areas) && Hundredths(s) < Hundredths(t)
  }

  lemma BoundsExactly(areas: seq<Area>)
    requires forall a :: a in areas ==> ValidArea(a)
    ensures SelectBounds(areas).Some? <==> TwoDiffer(areas)
  {
    BoundsAreTheSmallestValue(areas);
  }

  /** Over usable areas evidence is built exactly when two of their values differ and the two queries gave, in any
      order, all the posts and the posts in range. */
  lemma BuiltExactly(p: Prepared, input: Input, o: Observation, hash: Hash, areas: seq<Area>, b: Option<Bounds>)
    requires Canonical(input) == Some(areas) && b == SelectBounds(areas)
    ensures Build(p, input, o, hash).Some? <==>
              TwoDiffer(areas) && b.Some? && Observed(o, Ids(areas), ExpectedRangeIds(areas, b.value))
  {
    CanonicalIsNormal(input);
    BoundsExactly(areas);
    if b.None? {
      BuildNeedsBounds(p, input, o, hash, areas);
    } else {
      BuildWith(p, input, o, hash, areas, b.value);
    }
  }

  lemma BuildNeedsBounds(p: Prepared, input: Input, o: Observation, hash: Hash, areas: seq<Area>)
    requires Canonical(input) == Some(areas) && SelectBounds(areas).None?
    ensures Build(p, input, o, hash).None?
  {
  }

  lemma BuildWith(p: Prepared, input: Input, o: Observation, hash: Hash, areas: seq<Area>, b: Bounds)
    requires Canonical(input) == Some(areas) && SelectBounds(areas) == Some(b)
    requires forall a :: a in areas ==> ValidArea(a)
    ensures Build(p, input, o, hash).Some? <==> Observed(o, Ids(areas), ExpectedRangeIds(areas, b))
  {
    NoAreasNoBounds();
    ObservedExactly(areas, b, o);
  }

  /** What built evidence says: whose it is, the areas and their hash, the smallest value twice as bounds, and both
      lists of posts, ascending, with their lengths. */
  lemma EvidenceSays(p: Prepared, input: Input, o: Observation, hash: Hash)
    requires Build(p, input, o, hash).Some?
    ensures var e := Build(p, input, o, hash).value;
            && e.slug == p.slug && e.projectId == p.projectId && e.binding == p.binding && e.planId == p.planId
            && e.snapshotId == p.snapshotId && e.applyId == p.applyId
            && Some(e.areas) == Canonical(input) && e.areasHash == hash(e.areas)
            && e.bounds.min == e.bounds.max && e.bounds.min in Sizes(e.areas)
            && (forall s :: s in Sizes(e.areas) ==> Hundredths(e.bounds.min) <= Hundredths(s))
            && e.unfiltered.count == |o.unfiltered| == |e.areas| && e.range.count == |o.ranged|
            && multiset(e.unfiltered.ids) == multiset(o.unfiltered) && Sorting.Sorted(e.unfiltered.ids, IntLe)
            && multiset(e.range.ids) == multiset(o.ranged) && Sorting.Sorted(e.range.ids, IntLe)
  {
    var areas := Canonical(input).value;
    CanonicalIsNormal(input);
    BoundsAreTheSmallestValue(areas);
    BuiltExactly(p, input, o, hash, areas, SelectBounds(areas));
    var ids, ranged := Ids(areas), ExpectedRangeIds(areas, SelectBounds(areas).value);
    SortedIds(ids);
    SortedIds(InRangeIds(areas, SelectBounds(areas).value));
    Sorting.SameElements(SortIds(ids), ids);
    assert |multiset(o.unfiltered)| == |o.unfiltered| && |multiset(ids)| == |ids|;
    assert |multiset(o.ranged)| == |o.ranged| && |multiset(ranged)| == |ranged|;
    SortIdsLength(ids);
  }
}
