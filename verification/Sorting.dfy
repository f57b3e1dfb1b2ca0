/** Stable sorting; under a total order the result is the one ordered arrangement of the input. */
module Sorting {
  ghost predicate TotalPreorder<T(!new)>(le: (T, T) -> bool) {
    && (forall a, b :: le(a, b) || le(b, a))
    && (forall a, b, c :: le(a, b) && le(b, c) ==> le(a, c))
  }

  ghost predicate TotalOrder<T(!new)>(le: (T, T) -> bool) {
    TotalPreorder(le) && forall a, b :: le(a, b) && le(b, a) ==> a == b
  }

  predicate Sorted<T>(s: seq<T>, le: (T, T) -> bool) {
    forall i, j :: 0 <= i < j < |s| ==> le(s[i], s[j])
  }

  function Insert<T>(x: T, s: seq<T>, le: (T, T) -> bool): (r: seq<T>)
    ensures multiset(r) == multiset(s) + multiset{x}
  {
    if s == [] then [x]
    else if le(x, s[0]) then [x] + s
    else
      assert s == [s[0]] + s[1..];
      [s[0]] + Insert(x, s[1..], le)
  }

  /** Insertion from the right keeps equal elements in their input order. */
  function Sort<T>(s: seq<T>, le: (T, T) -> bool): (r: seq<T>)
    ensures multiset(r) == multiset(s)
  {
    if s == [] then []
    else
      assert s == [s[0]] + s[1..];
      Insert(s[0], Sort(s[1..], le), le)
  }

  lemma SameElements<T>(a: seq<T>, b: seq<T>)
    requires multiset(a) == multiset(b)
    ensures |a| == |b| && forall x :: x in a <==> x in b
  {
    assert forall x :: x in a <==> x in multiset(a);
    assert forall x :: x in b <==> x in multiset(b);
    assert |multiset(a)| == |a| && |multiset(b)| == |b|;
  }

  lemma {:induction false} InsertMembers<T>(x: T, s: seq<T>, le: (T, T) -> bool)
    ensures forall y :: y in Insert(x, s, le) <==> y == x || y in s
  {
    if s != [] {
      InsertMembers(x, s[1..], le);
      assert s == [s[0]] + s[1..];
    }
  }

  lemma {:induction false} InsertSorted<T(!new)>(x: T, s: seq<T>, le: (T, T) -> bool)
    requires TotalPreorder(le) && Sorted(s, le)
    ensures Sorted(Insert(x, s, le), le)
  {
    if s != [] && !le(x, s[0]) {
      InsertSorted(x, s[1..], le);
      var rest := Insert(x, s[1..], le);
      InsertMembers(x, s[1..], le);
      assert forall y :: y in rest ==> le(s[0], y);
    }
  }

  lemma {:induction false} SortSorted<T(!new)>(s: seq<T>, le: (T, T) -> bool)
    requires TotalPreorder(le)
    ensures Sorted(Sort(s, le), le)
  {
    if s != [] {
      SortSorted(s[1..], le);
      InsertSorted(s[0], Sort(s[1..], le), le);
    }
  }

  lemma Tail<T>(s: seq<T>)
    requires s != []
    ensures s == [s[0]] + s[1..] && multiset(s[1..]) == multiset(s) - multiset{s[0]}
  {
    assert s == [s[0]] + s[1..];
  }

  lemma {:induction false} SortedUnique<T(!new)>(a: seq<T>, b: seq<T>, le: (T, T) -> bool)
    requires TotalOrder(le) && Sorted(a, le) && Sorted(b, le) && multiset(a) == multiset(b)
    ensures a == b
  {
    SameElements(a, b);
    if a != [] {
      assert a[0] in b && b[0] in a;
      assert le(a[0], b[0]) && le(b[0], a[0]);
      Tail(a);
      Tail(b);
      SortedUnique(a[1..], b[1..], le);
    }
  }

  /** Sorting forgets the order of its input and nothing else. */
  lemma SortIsCanonical<T(!new)>(a: seq<T>, b: seq<T>, le: (T, T) -> bool)
    requires TotalOrder(le)
    ensures Sort(a, le) == Sort(b, le) <==> multiset(a) == multiset(b)
  {
    SortSorted(a, le);
    SortSorted(b, le);
    if multiset(a) == multiset(b) {
      SortedUnique(Sort(a, le), Sort(b, le), le);
    }
  }

  lemma {:induction false} SortKeeps<T(!new)>(s: seq<T>, le: (T, T) -> bool)
    requires Sorted(s, le)
    ensures Sort(s, le) == s
  {
    if s != [] {
      SortKeeps(s[1..], le);
      assert s == [s[0]] + s[1..];
    }
  }

  lemma {:induction false} OccursOnce<T>(s: seq<T>)
    requires forall j, k :: 0 <= j < k < |s| ==> s[j] != s[k]
    ensures forall x :: multiset(s)[x] <= 1
  {
    if s != [] {
      assert s == [s[0]] + s[1..];
      OccursOnce(s[1..]);
      assert s[0] !in s[1..];
    }
  }

  lemma OccursTwice<T>(s: seq<T>, p: nat, q: nat)
    requires p < q < |s| && s[p] == s[q]
    ensures multiset(s)[s[p]] >= 2
  {
    assert s == s[..q] + s[q..];
    assert s[p] in s[..q] && s[q] in s[q..];
  }

  // ---------------------------------------------------------------- stability

  /** The elements that stand level with `e`, in their order. */
  function Level<T>(s: seq<T>, e: T, le: (T, T) -> bool): seq<T> {
    if s == [] then []
    else (if le(s[0], e) && le(e, s[0]) then [s[0]] else []) + Level(s[1..], e, le)
  }

  lemma {:induction false} InsertIsStable<T(!new)>(x: T, s: seq<T>, e: T, le: (T, T) -> bool)
    requires TotalPreorder(le) && Sorted(s, le)
    ensures Level(Insert(x, s, le), e, le) == Level([x], e, le) + Level(s, e, le)
  {
    assert [x][1..] == [];
    if s != [] {
      if le(x, s[0]) {
        assert ([x] + s)[1..] == s;
      } else {
        InsertIsStable(x, s[1..], e, le);
        assert ([s[0]] + Insert(x, s[1..], le))[1..] == Insert(x, s[1..], le);
      }
    }
  }

  lemma LevelSplits<T>(s: seq<T>, e: T, le: (T, T) -> bool)
    requires s != []
    ensures Level(s, e, le) == Level([s[0]], e, le) + Level(s[1..], e, le)
  {
    assert [s[0]][1..] == [];
  }

  /** Elements that stand level come out in the order they went in. */
  lemma {:induction false} SortIsStable<T(!new)>(s: seq<T>, e: T, le: (T, T) -> bool)
    requires TotalPreorder(le)
    ensures Level(Sort(s, le), e, le) == Level(s, e, le)
  {
    if s != [] {
      var rest := Sort(s[1..], le);
      SortIsStable(s[1..], e, le);
      SortSorted(s[1..], le);
      InsertIsStable(s[0], rest, e, le);
      LevelSplits(s, e, le);
      assert Sort(s, le) == Insert(s[0], rest, le);
    }
  }

  /** So the first of a sorted sequence is the first of the input that is least. */
  lemma FirstOfSorted<T(!new)>(s: seq<T>, le: (T, T) -> bool) returns (i: nat)
    requires TotalPreorder(le) && s != []
    ensures i < |s| && |Sort(s, le)| == |s| && Sort(s, le)[0] == s[i]
    ensures forall j :: 0 <= j < |s| ==> le(s[i], s[j]) && (j < i ==> !le(s[j], s[i]))
  {
    var sorted := Sort(s, le);
    SameElements(sorted, s);
    SortSorted(s, le);
    var e := sorted[0];
    SortIsStable(s, e, le);
    assert Level(sorted, e, le)[0] == e;
    i := FirstLevel(s, e, le);
    forall j | 0 <= j < |s| ensures le(s[i], s[j]) {
      assert s[j] in sorted;
    }
  }

  lemma {:induction false} FirstLevel<T(!new)>(s: seq<T>, e: T, le: (T, T) -> bool) returns (i: nat)
    requires Level(s, e, le) != []
    ensures i < |s| && s[i] == Level(s, e, le)[0] && le(s[i], e) && le(e, s[i])
    ensures forall j :: 0 <= j < i ==> !(le(s[j], e) && le(e, s[j]))
  {
    if le(s[0], e) && le(e, s[0]) {
      i := 0;
    } else {
      var k := FirstLevel(s[1..], e, le);
      i := k + 1;
      assert forall j :: 0 < j < i ==> s[j] == s[1..][j - 1];
    }
  }
}
