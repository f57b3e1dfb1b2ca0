/** Deleting every cleanup candidate is safe, retention is bounded, and the reported bytes add up. */
module RecoveryGovernanceLaws {
  import opened Options
  import opened RecoveryBytes
  import opened RecoveryGovernance
  import Sets
  import Sorting

  predicate Candidate(c: Classification) {
    c == EligibleByAge || c == EligibleByCount || c == IncompleteCandidate || c == CorruptCandidate
  }

  /** One evaluation of a project. */
  datatype Evaluation = Evaluation(all: seq<Facts>, failed: seq<FailedOperation>, policy: Policy, now: int) {
    function ClassOf(f: Facts): Classification { Verdict(Ranked(all), f, failed, policy, now) }
  }

  // ---------------------------------------------------------------- the classes, one by one

  predicate Undoubted(f: Facts) {
    !f.invalid && forall finding <- f.findings :: finding == "recovery_root_overlaps_project_runtime"
  }

  predicate Unprotected(e: Evaluation, f: Facts) {
    f.protection == {} && !f.explicitlyProtected && !IsLatest(Ranked(e.all), f)
  }

  /** A failure of the operation the snapshot comes from, recent and near the snapshot in time. */
  predicate TroubledBy(e: Evaluation, f: Facts, failure: FailedOperation) {
    && f.source == Some(failure.id) && e.now <= failure.failedAt + e.policy.failureGrace
    && failure.failedAt - e.policy.failureGrace <= f.modified <= failure.failedAt + e.policy.failureGrace
  }

  predicate Troubled(e: Evaluation, f: Facts) {
    exists i :: 0 <= i < |e.failed| && TroubledBy(e, f, e.failed[i])
  }

  predicate Restorable(f: Facts) { f.status == Verified && f.restorable }

  /** Open to deletion at all: nothing doubtful about it, and nothing that protects it. */
  predicate Open(e: Evaluation, f: Facts) { Undoubted(f) && Unprotected(e, f) }

  /** A leftover of a capture: incomplete, or corrupt and of no use. */
  predicate Leftover(f: Facts) { !Restorable(f) && (f.status == Incomplete || f.status == Corrupt || f.corrupt) }

  lemma TroubledIs(e: Evaluation, f: Facts)
    ensures RecentFailure(f, e.failed, e.policy, e.now) <==> Troubled(e, f)
  {
    forall i | 0 <= i < |e.failed|
      ensures FailedRecently(f, e.failed[i], e.policy, e.now) <==> TroubledBy(e, f, e.failed[i])
    {
    }
    if Troubled(e, f) {
      var i :| 0 <= i < |e.failed| && TroubledBy(e, f, e.failed[i]);
      assert FailedRecently(f, e.failed[i], e.policy, e.now);
    }
  }

  /** An incomplete snapshot may be deleted exactly when it is open, a grace period old, and has no failure
      beside it that is still being looked at; a corrupt one exactly when it is open and a grace period old. */
  lemma LeftoverCandidates(e: Evaluation, f: Facts)
    ensures e.ClassOf(f) == IncompleteCandidate <==>
              Open(e, f) && f.status == Incomplete && f.created + e.policy.cleanupGrace <= e.now && !Troubled(e, f)
    ensures e.ClassOf(f) == CorruptCandidate <==>
              Open(e, f) && Leftover(f) && f.status != Incomplete && f.created + e.policy.cleanupGrace <= e.now
  {
    TroubledIs(e, f);
  }

  /** It is blocked exactly when it is open and younger than the grace period, or has such a failure. */
  lemma BlockedLeftovers(e: Evaluation, f: Facts)
    ensures e.ClassOf(f) == Blocked <==>
              && Open(e, f) && Leftover(f)
              && (e.now < f.created + e.policy.cleanupGrace || (f.status == Incomplete && Troubled(e, f)))
  {
    TroubledIs(e, f);
  }

  /** A restorable snapshot goes by age exactly when it is open and older than the maximum age, and by count
      exactly when it is not, and the policy's maximum of snapshots ranks before it. */
  lemma RestorableClasses(e: Evaluation, f: Facts)
    ensures e.ClassOf(f) == EligibleByAge <==> Open(e, f) && Restorable(f) && f.created + e.policy.maxAge < e.now
    ensures e.ClassOf(f) == EligibleByCount <==>
              && Open(e, f) && Restorable(f) && e.now <= f.created + e.policy.maxAge
              && e.policy.maxRetained <= RankOf(Ranked(e.all), f.id)
    ensures e.ClassOf(f) == Retained <==>
              && Open(e, f) && Restorable(f) && e.now <= f.created + e.policy.maxAge
              && RankOf(Ranked(e.all), f.id) < e.policy.maxRetained
  {
  }

  /** What is doubtful, or neither restorable nor a leftover, is left for review; what is protected and not
      doubtful is listed as protected. */
  lemma ReviewAndProtected(e: Evaluation, f: Facts)
    ensures e.ClassOf(f) == NeedsReview <==>
              !Undoubted(f) || (Unprotected(e, f) && !Restorable(f) && !Leftover(f))
    ensures e.ClassOf(f) == ProtectedClass <==> Undoubted(f) && !Unprotected(e, f)
  {
  }

  /** The reasons that go with the protection of a snapshot. */
  lemma ProtectionIs(e: Evaluation, f: Facts)
    ensures ProtectionOf(Ranked(e.all), f)
            == f.protection + (if IsLatest(Ranked(e.all), f) then {"latest_verified_restorable"} else {})
               + (if f.explicitlyProtected then {"explicit_server_owned_protection"} else {})
  {
  }

  function ReasonsOf(e: Evaluation, f: Facts): set<string> {
    ReasonFor(f, ProtectionOf(Ranked(e.all), f), RankOf(Ranked(e.all), f.id), e.failed, e.policy, e.now)
  }

  lemma ReasonOfRestorable(e: Evaluation, f: Facts)
    ensures e.ClassOf(f) == ProtectedClass ==> ReasonsOf(e, f) == ProtectionOf(Ranked(e.all), f)
    ensures e.ClassOf(f) == EligibleByAge ==> ReasonsOf(e, f) == {"verified_snapshot_exceeds_maximum_age"}
    ensures e.ClassOf(f) == EligibleByCount ==> ReasonsOf(e, f) == {"verified_snapshot_exceeds_retained_count"}
    ensures e.ClassOf(f) == Retained ==> ReasonsOf(e, f) == {"within_verified_retention_window"}
  {
  }

  lemma ReasonOfLeftover(e: Evaluation, f: Facts)
    ensures e.ClassOf(f) == IncompleteCandidate ==> ReasonsOf(e, f) == {"incomplete_grace_period_elapsed"}
    ensures e.ClassOf(f) == CorruptCandidate ==> ReasonsOf(e, f) == {"corrupt_grace_period_elapsed"}
    ensures e.ClassOf(f) == Blocked ==>
              ReasonsOf(e, f) == {if f.status != Incomplete then "corrupt_grace_period_active"
                                  else if Troubled(e, f) then "recent_failed_operation_evidence"
                                  else "incomplete_grace_period_active"}
  {
    TroubledIs(e, f);
  }

  lemma ReasonOfReview(e: Evaluation, f: Facts)
    ensures e.ClassOf(f) == NeedsReview ==>
              ReasonsOf(e, f) == {if Undoubted(f) then "snapshot_state_not_cleanup_eligible"
                                  else if f.corrupt then "manifest_invalid" else "identity_or_path_requires_review"}
  {
  }

  /** The reason that is given names the rule that decided. */
  lemma ReasonsSayWhy(e: Evaluation, f: Facts)
    ensures var reasons := ReasonsOf(e, f);
            match e.ClassOf(f)
            case ProtectedClass => reasons == ProtectionOf(Ranked(e.all), f)
            case EligibleByAge => reasons == {"verified_snapshot_exceeds_maximum_age"}
            case EligibleByCount => reasons == {"verified_snapshot_exceeds_retained_count"}
            case Retained => reasons == {"within_verified_retention_window"}
            case IncompleteCandidate => reasons == {"incomplete_grace_period_elapsed"}
            case CorruptCandidate => reasons == {"corrupt_grace_period_elapsed"}
            case Blocked =>
              reasons == {if f.status != Incomplete then "corrupt_grace_period_active"
                          else if Troubled(e, f) then "recent_failed_operation_evidence"
                          else "incomplete_grace_period_active"}
            case NeedsReview =>
              reasons == {if Undoubted(f) then "snapshot_state_not_cleanup_eligible"
                          else if f.corrupt then "manifest_invalid" else "identity_or_path_requires_review"}
  {
    ReasonOfRestorable(e, f);
    ReasonOfLeftover(e, f);
    ReasonOfReview(e, f);
  }

  /** The one protected as the newest is the first usable snapshot of the inventory that no usable one is
      newer than. */
  lemma LatestIsTheFirstNewest(all: seq<Facts>) returns (i: nat)
    requires exists f :: f in all && Restorable(f) && !f.invalid
    ensures i < |all| && Restorable(all[i]) && !all[i].invalid
    ensures forall j :: 0 <= j < |all| && Restorable(all[j]) && !all[j].invalid ==>
              all[j].created <= all[i].created && (j < i ==> all[j].created < all[i].created)
    ensures forall f :: IsLatest(Ranked(all), f) <==> Restorable(f) && !f.invalid && f.id == all[i].id
  {
    var f :| f in all && Restorable(f) && !f.invalid;
    assert Usable(f);
    i := FirstNewest(all);
    forall j | 0 <= j < |all| && Restorable(all[j]) && !all[j].invalid
      ensures all[j].created <= all[i].created && (j < i ==> all[j].created < all[i].created)
    {
      assert Usable(all[j]);
    }
  }

  lemma FirstNewest(all: seq<Facts>) returns (i: nat)
    requires exists f :: f in all && Usable(f)
    ensures i < |all| && Usable(all[i]) && Ranked(all) != [] && Ranked(all)[0] == all[i]
    ensures forall j :: 0 <= j < |all| && Usable(all[j]) ==>
              all[j].created <= all[i].created && (j < i ==> all[j].created < all[i].created)
  {
    var usable := UsableOnes(all);
    var f :| f in all && Usable(f);
    assert f in usable;
    NewerFirstIsPreorder();
    var k := Sorting.FirstOfSorted(usable, NewerFirst);
    i := PlaceOf(all, k);
    forall j | 0 <= j < |all| && Usable(all[j])
      ensures all[j].created <= all[i].created && (j < i ==> all[j].created < all[i].created)
    {
      assert all[j] in usable;
      var n :| 0 <= n < |usable| && usable[n] == all[j];
      if j < i {
        assert all[..i][j] == all[j] && all[j] in UsableOnes(all[..i]);
        var m :| 0 <= m < k && usable[..k][m] == all[j];
      }
    }
  }

  function UsableHead(all: seq<Facts>): seq<Facts>
    requires all != []
  {
    if Usable(all[0]) then [all[0]] else []
  }

  lemma UsableSplits(all: seq<Facts>)
    requires all != []
    ensures UsableOnes(all) == UsableHead(all) + UsableOnes(all[1..])
  {
  }

  lemma UsableFront(all: seq<Facts>, i: nat)
    requires 0 < i <= |all|
    ensures UsableOnes(all[..i]) == UsableHead(all) + UsableOnes(all[1..][..i - 1])
  {
    assert all[..i][1..] == all[1..][..i - 1];
    UsableSplits(all[..i]);
  }

  lemma TakeBehind(whole: seq<Facts>, head: seq<Facts>, rest: seq<Facts>, k: nat, front: seq<Facts>)
    requires whole == head + rest && |head| <= k < |whole| && front == rest[..k - |head|]
    ensures whole[k] == rest[k - |head|] && whole[..k] == head + front
  {
  }

  /** Where the `k`-th usable snapshot stands in the inventory: behind those before it. */
  lemma {:induction false} PlaceOf(all: seq<Facts>, k: nat) returns (i: nat)
    requires k < |UsableOnes(all)|
    ensures i < |all| && Usable(all[i]) && all[i] == UsableOnes(all)[k] && UsableOnes(all[..i]) == UsableOnes(all)[..k]
  {
    if Usable(all[0]) && k == 0 {
      i := 0;
    } else {
      var head, rest := UsableHead(all), UsableOnes(all[1..]);
      UsableSplits(all);
      var n := PlaceOf(all[1..], k - |head|);
      i := n + 1;
      UsableFront(all, i);
      TakeBehind(UsableOnes(all), head, rest, k, UsableOnes(all[1..][..n]));
    }
  }

  // ---------------------------------------------------------------- candidates

  /** A candidate has no protection of any kind, is not doubtful, and is not the newest usable snapshot. */
  lemma CandidatesAreUnprotected(e: Evaluation, f: Facts)
    requires Candidate(e.ClassOf(f))
    ensures ProtectionOf(Ranked(e.all), f) == {} && !Doubtful(f) && !IsLatest(Ranked(e.all), f)
            && !f.explicitlyProtected
  {
    if IsLatest(Ranked(e.all), f) {
      assert "latest_verified_restorable" in ProtectionOf(Ranked(e.all), f);
    }
    if f.explicitlyProtected {
      assert "explicit_server_owned_protection" in ProtectionOf(Ranked(e.all), f);
    }
  }

  /** Anything protected is listed as protected, unless it is doubtful and left for review. */
  lemma ProtectionShows(e: Evaluation, f: Facts)
    requires ProtectionOf(Ranked(e.all), f) != {}
    ensures e.ClassOf(f) == if Doubtful(f) then NeedsReview else ProtectedClass
  {
  }

  lemma NewerFirstIsPreorder()
    ensures Sorting.TotalPreorder(NewerFirst)
  {
  }

  lemma RankedFacts(all: seq<Facts>)
    ensures forall f :: f in Ranked(all) <==> f in all && Usable(f)
    ensures Sorting.Sorted(Ranked(all), NewerFirst)
  {
    NewerFirstIsPreorder();
    Sorting.SortSorted(UsableOnes(all), NewerFirst);
    Sorting.SameElements(Ranked(all), UsableOnes(all));
  }

  /** The newest usable snapshot: no usable one is newer, and it is never a candidate. */
  lemma NewestIsNeverACandidate(e: Evaluation) returns (newest: Facts)
    requires exists f :: f in e.all && Usable(f)
    ensures newest in e.all && Usable(newest) && forall f :: f in e.all && Usable(f) ==> f.created <= newest.created
    ensures !Candidate(e.ClassOf(newest))
  {
    RankedFacts(e.all);
    var f :| f in e.all && Usable(f);
    assert f in Ranked(e.all);
    newest := Ranked(e.all)[0];
    forall g | g in e.all && Usable(g) ensures g.created <= newest.created {
      assert g in Ranked(e.all);
      var i :| 0 <= i < |Ranked(e.all)| && Ranked(e.all)[i] == g;
      assert i > 0 ==> NewerFirst(Ranked(e.all)[0], Ranked(e.all)[i]);
    }
    assert IsLatest(Ranked(e.all), newest);
    assert "latest_verified_restorable" in ProtectionOf(Ranked(e.all), newest);
  }

  /** What is left when every candidate is deleted. */
  function Remaining(e: Evaluation, facts: seq<Facts>): (r: seq<Facts>)
    ensures forall f :: f in r <==> f in facts && !Candidate(e.ClassOf(f))
  {
    if facts == [] then []
    else
      assert facts == [facts[0]] + facts[1..];
      (if Candidate(e.ClassOf(facts[0])) then [] else [facts[0]]) + Remaining(e, facts[1..])
  }

  /** A project that can be restored still can be after the cleanup, and from its newest usable snapshot. */
  lemma RestorableSurvives(e: Evaluation)
    requires exists f :: f in e.all && Usable(f)
    ensures exists f :: f in Remaining(e, e.all) && Usable(f)
                        && forall g :: g in e.all && Usable(g) ==> g.created <= f.created
  {
    var newest := NewestIsNeverACandidate(e);
    assert newest in Remaining(e, e.all);
  }

  lemma {:induction false} RankFirst(ranked: seq<Facts>, id: string)
    requires RankOf(ranked, id) >= 0
    ensures forall i :: 0 <= i < RankOf(ranked, id) ==> ranked[i].id != id
  {
    if ranked[0].id != id {
      RankFirst(ranked[1..], id);
      assert forall i :: 0 < i < |ranked| ==> ranked[i] == ranked[1..][i - 1];
    }
  }

  /** Cleanup by count leaves enough behind: the maximum number of other usable snapshots, none of them older. */
  lemma EligibleByCountHasNewer(e: Evaluation, f: Facts) returns (newer: seq<Facts>)
    requires f in e.all && e.ClassOf(f) == EligibleByCount && DistinctUsable(e.all)
    ensures |newer| == e.policy.maxRetained && multiset(newer) <= multiset(UsableOnes(e.all))
    ensures forall g :: g in newer ==> g in e.all && Usable(g) && g.id != f.id && g.created >= f.created
  {
    var ranked := Ranked(e.all);
    CountMeansRank(e, f);
    newer := ranked[..e.policy.maxRetained];
    assert ranked == newer + ranked[e.policy.maxRetained..];
    forall g | g in newer ensures g in e.all && Usable(g) && g.id != f.id && g.created >= f.created {
      var i :| 0 <= i < |newer| && newer[i] == g;
      BeforeInRank(e.all, f, i);
    }
  }

  lemma CountMeansRank(e: Evaluation, f: Facts)
    requires e.ClassOf(f) == EligibleByCount
    ensures Usable(f) && e.policy.maxRetained <= RankOf(Ranked(e.all), f.id)
  {
  }

  lemma BeforeInRank(all: seq<Facts>, f: Facts, i: nat)
    requires f in all && Usable(f) && DistinctUsable(all) && i < RankOf(Ranked(all), f.id)
    ensures var g := Ranked(all)[i]; g in all && Usable(g) && g.id != f.id && g.created >= f.created
  {
    RankedFacts(all);
    RankFirst(Ranked(all), f.id);
    RankIsFact(all, f);
    assert NewerFirst(Ranked(all)[i], Ranked(all)[RankOf(Ranked(all), f.id)]);
    assert Ranked(all)[i] in Ranked(all);
  }

  lemma RankIsFact(all: seq<Facts>, f: Facts)
    requires DistinctUsable(all) && f in all && Usable(f)
    ensures RankOf(Ranked(all), f.id) >= 0 && Ranked(all)[RankOf(Ranked(all), f.id)] == f
  {
    RankedFacts(all);
    RankIsPosition(Ranked(all), f);
    var g := Ranked(all)[RankOf(Ranked(all), f.id)];
    assert g in Ranked(all);
    var i :| 0 <= i < |all| && all[i] == f;
    var j :| 0 <= j < |all| && all[j] == g;
  }

  // ---------------------------------------------------------------- retention

  function RetainedOnes(e: Evaluation, facts: seq<Facts>): (r: seq<Facts>)
    ensures forall f :: f in r <==> f in facts && e.ClassOf(f) == Retained
  {
    if facts == [] then []
    else
      assert facts == [facts[0]] + facts[1..];
      (if e.ClassOf(facts[0]) == Retained then [facts[0]] else []) + RetainedOnes(e, facts[1..])
  }

  function IdSet(facts: seq<Facts>): set<string> { set f | f in facts :: f.id }

  lemma {:induction false} IdSetBound(facts: seq<Facts>)
    ensures |IdSet(facts)| <= |facts|
  {
    if facts != [] {
      IdSetBound(facts[1..]);
      assert facts == [facts[0]] + facts[1..];
      assert IdSet(facts) == {facts[0].id} + IdSet(facts[1..]);
    }
  }

  lemma IdSetGrows(f: Facts, rest: seq<Facts>)
    requires forall g :: g in rest ==> g.id != f.id
    ensures |IdSet([f] + rest)| == |IdSet(rest)| + 1
  {
    assert forall x :: x in [f] + rest <==> x == f || x in rest;
    assert IdSet([f] + rest) == {f.id} + IdSet(rest);
    assert f.id !in IdSet(rest);
  }

  lemma FirstIdIsNew(facts: seq<Facts>, g: Facts)
    requires facts != [] && DistinctUsable(facts) && Usable(facts[0]) && Usable(g) && g in facts[1..]
    ensures g.id != facts[0].id
  {
    var i :| 0 <= i < |facts[1..]| && facts[1..][i] == g;
    assert facts[i + 1] == g;
  }

  lemma RetainedIsUsable(e: Evaluation, f: Facts)
    requires e.ClassOf(f) == Retained
    ensures Usable(f)
  {
  }

  lemma {:induction false} RetainedIds(e: Evaluation, facts: seq<Facts>)
    requires DistinctUsable(facts)
    ensures |IdSet(RetainedOnes(e, facts))| == |RetainedOnes(e, facts)|
  {
    if facts != [] {
      var f, rest := facts[0], RetainedOnes(e, facts[1..]);
      RetainedIds(e, facts[1..]);
      if e.ClassOf(f) == Retained {
        forall g | g in rest ensures g.id != f.id {
          RetainedIsUsable(e, f);
          RetainedIsUsable(e, g);
          FirstIdIsNew(facts, g);
        }
        IdSetGrows(f, rest);
        assert RetainedOnes(e, facts) == [f] + rest;
      } else {
        assert RetainedOnes(e, facts) == rest;
      }
    }
  }

  lemma {:induction false} RankIsPosition(ranked: seq<Facts>, f: Facts)
    requires f in ranked
    ensures RankOf(ranked, f.id) >= 0
  {
    if ranked[0].id != f.id {
      assert ranked == [ranked[0]] + ranked[1..];
      RankIsPosition(ranked[1..], f);
    }
  }

  lemma LatestIsNotRetained(e: Evaluation, f: Facts)
    ensures IsLatest(Ranked(e.all), f) ==> e.ClassOf(f) != Retained
  {
    assert IsLatest(Ranked(e.all), f) ==> "latest_verified_restorable" in ProtectionOf(Ranked(e.all), f);
  }

  lemma RetainedRank(e: Evaluation, f: Facts)
    requires f in e.all && e.ClassOf(f) == Retained
    ensures 0 < RankOf(Ranked(e.all), f.id) < e.policy.maxRetained && Usable(f)
  {
    RankedFacts(e.all);
    assert Usable(f);
    RankIsPosition(Ranked(e.all), f);
    LatestIsNotRetained(e, f);
  }

  /** Retained snapshots never exceed the policy's maximum; the newest usable one is protected and not among
      them, so at most one less is retained. */
  lemma RetainedWithinPolicy(e: Evaluation)
    requires e.policy.maxRetained >= 1 && DistinctUsable(e.all)
    ensures |RetainedOnes(e, e.all)| <= e.policy.maxRetained - 1
  {
    var retained := RetainedOnes(e, e.all);
    RetainedIds(e, e.all);
    if retained != [] {
      var below := BelowTheTop(Ranked(e.all), e.policy.maxRetained);
      forall id | id in IdSet(retained) ensures id in IdSet(below) {
        var f :| f in retained && f.id == id;
        RetainedRank(e, f);
        RankIsBelow(Ranked(e.all), e.policy.maxRetained, id);
      }
      IdSetBound(below);
      Sets.SubsetSize(IdSet(retained), IdSet(below));
    }
  }

  /** The first `max` of a ranking, without the very first. */
  function BelowTheTop(ranked: seq<Facts>, max: nat): (r: seq<Facts>)
    requires max >= 1
    ensures |r| <= max - 1
  {
    if |ranked| == 0 then [] else if |ranked| < max then ranked[1..] else ranked[1..max]
  }

  lemma RankIsBelow(ranked: seq<Facts>, max: nat, id: string)
    requires max >= 1 && 0 < RankOf(ranked, id) < max
    ensures id in IdSet(BelowTheTop(ranked, max))
  {
    var rank, below := RankOf(ranked, id), BelowTheTop(ranked, max);
    assert below[rank - 1] == ranked[rank];
    assert ranked[rank] in below;
  }

  // ---------------------------------------------------------------- bytes

  datatype Measured = Measured(bytes: nat, classification: Classification)

  function SumOf(items: seq<Measured>, classes: set<Classification>): nat {
    if items == [] then 0
    else (if items[0].classification in classes then items[0].bytes else 0) + SumOf(items[1..], classes)
  }

  /** The snapshots of an evaluation with the bytes accounted for each of their trees. */
  function Items(classes: seq<Classification>, bytes: seq<nat>): (items: seq<Measured>)
    requires |classes| == |bytes|
    ensures |items| == |classes|
  {
    if classes == [] then [] else [Measured(bytes[0], classes[0])] + Items(classes[1..], bytes[1..])
  }

  /** The six parts of the report, added up. */
  function Reported(items: seq<Measured>): nat {
    SumOf(items, {ProtectedClass}) + SumOf(items, {Retained}) + SumOf(items, {EligibleByAge, EligibleByCount})
    + SumOf(items, {IncompleteCandidate, CorruptCandidate}) + SumOf(items, {Blocked}) + SumOf(items, {NeedsReview})
  }

  /** The parts are disjoint and leave nothing out. */
  lemma {:induction false} PartsAddUp(classes: seq<Classification>, bytes: seq<nat>)
    requires |classes| == |bytes|
    ensures Sum(bytes) == Reported(Items(classes, bytes))
  {
    if classes != [] {
      PartsAddUp(classes[1..], bytes[1..]);
      var c := classes[0];
      assert Items(classes, bytes)[1..] == Items(classes[1..], bytes[1..]);
      assert c == ProtectedClass || c == Retained || c in {EligibleByAge, EligibleByCount}
             || c in {IncompleteCandidate, CorruptCandidate} || c == Blocked || c == NeedsReview;
    }
  }

  /** Whatever classes the snapshots get, the parts of the report add up to the size of the distinct files
      under them: what an accounting of their trees gives each of them. */
  lemma ReportedUsage(roots: seq<Node>, sizes: Sizes, classes: seq<Classification>)
    requires |classes| == |roots|
    ensures Total(FilesOf(roots), sizes) == Reported(Items(classes, Parts(roots, {}, sizes)))
  {
    UsageIsDistinctBytes(roots, sizes);
    PartsAddUp(classes, Parts(roots, {}, sizes));
  }

  // ---------------------------------------------------------------- pressure

  datatype Pressure = Healthy | ApproachingLimit | CleanupRecommended | CaptureBlocked | RestoreOnly

  datatype Quota = Quota(maximum: nat, reserve: nat, approaching: real, cleanup: real)

  function Pressured(usage: nat, typical: nat, available: nat, q: Quota): Pressure {
    if available as real < q.reserve as real / 2.0 then RestoreOnly
    else if available < q.reserve || usage + typical > q.maximum then CaptureBlocked
    else if usage as real >= q.maximum as real * q.cleanup then CleanupRecommended
    else if usage as real >= q.maximum as real * q.approaching || available < q.reserve * 2 then ApproachingLimit
    else Healthy
  }

  function Severity(p: Pressure): nat {
    match p
    case Healthy => 0
    case ApproachingLimit => 1
    case CleanupRecommended => 2
    case CaptureBlocked => 3
    case RestoreOnly => 4
  }

  /** What each step up means in numbers: captures stop exactly when the free space is under the reserve or the
      next snapshot would pass the maximum, and only restores are left when half the reserve is gone as well. */
  lemma PressureInNumbers(usage: nat, typical: nat, available: nat, q: Quota)
    ensures var p := Pressured(usage, typical, available, q);
            && (p == RestoreOnly <==> 2 * available < q.reserve)
            && (p == CaptureBlocked || p == RestoreOnly <==> available < q.reserve || q.maximum < usage + typical)
            && (p == CleanupRecommended <==>
                  q.reserve <= available && usage + typical <= q.maximum
                  && q.cleanup * q.maximum as real <= usage as real)
            && (p == Healthy <==>
                  && 2 * q.reserve <= available && usage + typical <= q.maximum
                  && (usage as real) < q.cleanup * q.maximum as real
                  && (usage as real) < q.approaching * q.maximum as real)
  {
    var half := q.reserve as real / 2.0;
    assert (available as real < half) == (2 * available < q.reserve) by {
      assert (2 * available) as real == 2.0 * available as real;
    }
    assert q.maximum as real * q.cleanup == q.cleanup * q.maximum as real;
    assert q.maximum as real * q.approaching == q.approaching * q.maximum as real;
  }

  /** More usage or less free space never lowers the pressure, and a capture that is not blocked fits the quota. */
  lemma PressureIsMonotone(usage: nat, typical: nat, available: nat, usage': nat, typical': nat, available': nat,
                           q: Quota)
    requires usage <= usage' && typical <= typical' && available >= available'
    ensures Severity(Pressured(usage, typical, available, q)) <= Severity(Pressured(usage', typical', available', q))
    ensures Severity(Pressured(usage, typical, available, q)) < 3 ==>
              usage + typical <= q.maximum && available >= q.reserve
  {
    var a, b := available as real, available' as real;
    assert a >= b && usage as real <= usage' as real;
  }
}
